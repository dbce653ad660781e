/** `Base64`: the encoder, and the decoder that skips foreign characters. */
module Base64 {
  type Byte = b: int | 0 <= b < 256

  /** The character of a 6-bit value. */
  function Symbol(v: int): char
    requires 0 <= v < 64
  {
    if v < 26 then ('A' as int + v) as char
    else if v < 52 then ('a' as int + v - 26) as char
    else if v < 62 then ('0' as int + v - 52) as char
    else if v == 62 then '+' else '/'
  }

  /** The decode table: the 6-bit value of a character, negative for a foreign one. */
  function Sextet(c: char): (v: int)
    ensures v < 64
  {
    if 'A' <= c <= 'Z' then c as int - 'A' as int
    else if 'a' <= c <= 'z' then c as int - 'a' as int + 26
    else if '0' <= c <= '9' then c as int - '0' as int + 52
    else if c == '+' then 62
    else if c == '/' then 63
    else -2
  }

  const PAD := '='

  /** The four characters of a full group. */
  function Group(b: seq<Byte>): string
    requires |b| >= 3
  {
    [Symbol(b[0] / 4), Symbol(b[0] % 4 * 16 + b[1] / 16), Symbol(b[1] % 16 * 4 + b[2] / 64), Symbol(b[2] % 64)]
  }

  /** The padded characters of a last group of one or two bytes. */
  function Tail(b: seq<Byte>): string
    requires |b| == 1 || |b| == 2
  {
    if |b| == 1 then [Symbol(b[0] / 4), Symbol(b[0] % 4 * 16), PAD, PAD]
    else [Symbol(b[0] / 4), Symbol(b[0] % 4 * 16 + b[1] / 16), Symbol(b[1] % 16 * 4), PAD]
  }

  /** Section 4 of RFC 4648: groups of three bytes give four characters, a last group of one or two bytes is padded. */
  function Encoded(b: seq<Byte>): string {
    if |b| == 0 then "" else if |b| < 3 then Tail(b) else Group(b) + Encoded(b[3..])
  }

  method Encode(str: seq<Byte>, bytes: int) returns (r: string)
    requires bytes <= |str|
    ensures r == Encoded(if bytes < 0 then [] else str[..bytes])
  {
    if bytes < 0 {
      return "";
    }
    var current, left := str[..bytes], bytes;
    r := "";
    while left > 2
      invariant left == |current|
      invariant r + Encoded(current) == Encoded(str[..bytes])
    {
      var group := [Symbol(current[0] / 4)];
      group := group + [Symbol(current[0] % 4 * 16 + current[1] / 16)];
      group := group + [Symbol(current[1] % 16 * 4 + current[2] / 64)];
      group := group + [Symbol(current[2] % 64)];
      assert group == Group(current);
      r := r + group;
      current, left := current[3..], left - 3;
    }
    if left > 0 {
      var tail := [Symbol(current[0] / 4)];
      if left == 1 {
        tail := tail + [Symbol(current[0] % 4 * 16)] + "==";
      } else {
        tail := tail + [Symbol(current[0] % 4 * 16 + current[1] / 16)];
        tail := tail + [Symbol(current[1] % 16 * 4)] + "=";
      }
      assert tail == Tail(current);
      r := r + tail;
    }
  }

  datatype Decoding = Bytes(bytes: seq<Byte>) | Invalid

  /** The bits carried from one character of a group to the next: the top of the byte to come. */
  predicate CarryOk(bin: int, phase: int) {
    match phase
    case 1 => 0 <= bin <= 252 && bin % 4 == 0
    case 2 => 0 <= bin <= 240 && bin % 16 == 0
    case 3 => 0 <= bin <= 192 && bin % 64 == 0
    case _ => true
  }

  /** The bitwise or of a value whose low bits are zero with a value that fits into them. */
  function Or(high: int, low: int, room: int): int
    requires 0 < room && 0 <= low < room && high % room == 0
  {
    high + low
  }

  /** The byte completed by 6-bit value `v` in a phase after the first. */
  function Completed(bin: int, phase: int, v: int): Byte
    requires 0 <= v < 64 && 1 <= phase <= 3 && CarryOk(bin, phase)
  {
    if phase == 1 then Or(bin, v / 16, 4)
    else if phase == 2 then Or(bin, v / 4, 16)
    else Or(bin, v, 64)
  }

  /** The first character of a group completes no byte. */
  function Emitted(bin: int, phase: int, v: int): seq<Byte>
    requires 0 <= v < 64 && 0 <= phase <= 3 && CarryOk(bin, phase)
  {
    if phase == 0 then [] else [Completed(bin, phase, v)]
  }

  function NextCarry(bin: int, phase: int, v: int): (r: int)
    requires 0 <= v < 64 && 0 <= phase <= 3
    ensures CarryOk(r, (phase + 1) % 4)
  {
    if phase == 0 then v * 4
    else if phase == 1 then v % 16 * 16
    else if phase == 2 then v % 4 * 64
    else bin
  }

  function Prepend(b: seq<Byte>, d: Decoding): Decoding {
    if d.Bytes? then Bytes(b + d.bytes) else d
  }

  /** Decoding from here on: `s` ends in a NUL, `length` characters may still be read, `i` symbols were read. */
  function DecodeFrom(s: string, length: int, bin: int, i: nat): Decoding
    requires CarryOk(bin, i % 4)
    decreases |s|
  {
    if s == "" || s[0] == '\0' || length <= 0 then Bytes([])
    else if s[0] == PAD then
      if (if |s| > 1 then s[1] else '\0') != PAD && i % 4 == 1 then Invalid
      else DecodeFrom(s[1..], length - 1, bin, i)
    else
      var v := Sextet(s[0]);
      if v < 0 then DecodeFrom(s[1..], length - 1, bin, i)
      else
        Prepend(Emitted(bin, i % 4, v),
                DecodeFrom(s[1..], length - 1, NextCarry(bin, i % 4, v), i + 1))
  }

  predicate Ascii(s: string) {
    forall k :: 0 <= k < |s| ==> s[k] < 128 as char
  }

  /** The switch over the position in the group. */
  method TakeSextet(bin: int, phase: int, v: int) returns (out: seq<Byte>, carry: int)
    requires 0 <= v < 64 && 0 <= phase <= 3 && CarryOk(bin, phase)
    ensures out == Emitted(bin, phase, v) && carry == NextCarry(bin, phase, v)
  {
    out := [];
    carry := bin;
    match phase {
      case 0 =>
        carry := v * 4;
      case 1 =>
        carry := Or(carry, v / 16, 4);
        out := [carry];
        carry := v % 16 * 16;
      case 2 =>
        carry := Or(carry, v / 4, 16);
        out := [carry];
        carry := v % 4 * 64;
      case _ =>
        out := [Or(carry, v, 64)];
    }
  }

  lemma PrependConcat(a: seq<Byte>, b: seq<Byte>, d: Decoding)
    ensures Prepend(a + b, d) == Prepend(a, Prepend(b, d))
  {
    if d.Bytes? {
      assert a + b + d.bytes == a + (b + d.bytes);
    }
  }

  /** What the loop will return: the bytes it has, then what it decodes from position `at` on. */
  function Pending(got: seq<Byte>, str: string, at: nat, left: int, bin: int, i: nat): Decoding
    requires at <= |str| && CarryOk(bin, i % 4)
  {
    Prepend(got, DecodeFrom(str[at..], left, bin, i))
  }

  /** The character the loop looks at next, when it goes on. */
  predicate Goes(str: string, at: nat, left: int) {
    at < |str| && str[at] != '\0' && left > 0
  }

  /** The pad character after position `at`, or the terminating NUL. */
  predicate BadPad(str: string, at: nat, i: nat)
    requires at < |str|
  {
    str[at] == PAD && (if at + 1 < |str| then str[at + 1] else '\0') != PAD && i % 4 == 1
  }

  lemma PendingRejects(got: seq<Byte>, str: string, at: nat, left: int, bin: int, i: nat)
    requires CarryOk(bin, i % 4) && Goes(str, at, left) && BadPad(str, at, i)
    ensures Pending(got, str, at, left, bin, i) == Invalid
  {
    assert str[at..][0] == str[at];
  }

  lemma PendingSkips(got: seq<Byte>, str: string, at: nat, left: int, bin: int, i: nat)
    requires CarryOk(bin, i % 4) && Goes(str, at, left) && !BadPad(str, at, i)
    requires str[at] == PAD || Sextet(str[at]) < 0
    ensures Pending(got, str, at, left, bin, i) == Pending(got, str, at + 1, left - 1, bin, i)
  {
    assert str[at..][0] == str[at] && str[at..][1..] == str[at + 1..];
  }

  lemma PendingTakes(got: seq<Byte>, str: string, at: nat, left: int, bin: int, i: nat, v: int)
    requires CarryOk(bin, i % 4) && Goes(str, at, left) && str[at] != PAD
    requires 0 <= v < 64 && v == Sextet(str[at])
    ensures CarryOk(NextCarry(bin, i % 4, v), (i + 1) % 4)
    ensures Pending(got, str, at, left, bin, i)
         == Pending(got + Emitted(bin, i % 4, v), str, at + 1, left - 1, NextCarry(bin, i % 4, v), i + 1)
  {
    assert str[at..][0] == str[at] && str[at..][1..] == str[at + 1..];
    assert (i + 1) % 4 == (i % 4 + 1) % 4;
    PrependConcat(got, Emitted(bin, i % 4, v), DecodeFrom(str[at + 1..], left - 1, NextCarry(bin, i % 4, v), i + 1));
  }

  method Decode(str: string, length: int) returns (r: Decoding)
    requires Ascii(str)
    ensures r == DecodeFrom(str, length, 0, 0)
  {
    var result: seq<Byte> := [];
    var bin, i, current, left := 0, 0, 0, length;
    assert str[0..] == str;
    while current < |str| && str[current] != '\0' && left > 0
      invariant 0 <= current <= |str| && 0 <= i && CarryOk(bin, i % 4)
      invariant Pending(result, str, current, left, bin, i) == DecodeFrom(str, length, 0, 0)
    {
      var ch := str[current];
      current, left := current + 1, left - 1;
      if ch == PAD {
        if (if current < |str| then str[current] else '\0') != PAD && i % 4 == 1 {
          PendingRejects(result, str, current - 1, left + 1, bin, i);
          return Invalid;
        }
        PendingSkips(result, str, current - 1, left + 1, bin, i);
        continue;
      }
      var v := Sextet(ch);
      if v < 0 {
        PendingSkips(result, str, current - 1, left + 1, bin, i);
        continue;
      }
      PendingTakes(result, str, current - 1, left + 1, bin, i, v);
      var out: seq<Byte>;
      out, bin := TakeSextet(bin, i % 4, v);
      result := result + out;
      i := i + 1;
    }
    return Bytes(result);
  }

  // ------------------------------------------------------------------------------------------------------------
  // Decoding an encoding, whatever foreign characters were inserted
  // ------------------------------------------------------------------------------------------------------------

  /** A character the decoder does not skip. */
  predicate Plain(c: char) {
    c == PAD || Sextet(c) >= 0
  }

  /** A string without the characters that the decoder skips over. */
  function Stripped(s: string): (r: string)
    ensures |r| <= |s|
  {
    if s == "" then ""
    else if Plain(s[0]) then [s[0]] + Stripped(s[1..])
    else Stripped(s[1..])
  }

  lemma SymbolReads(v: int)
    requires 0 <= v < 64
    ensures Sextet(Symbol(v)) == v
  {
  }

  lemma {:induction false} EncodedLength(b: seq<Byte>)
    ensures |Encoded(b)| == (|b| + 2) / 3 * 4
  {
    if |b| >= 3 {
      var n := |b[3..]|;
      EncodedLength(b[3..]);
      assert (|b| + 2) / 3 == (n + 2) / 3 + 1;
    }
  }

  /** The 6-bit value at position `p` of the first group. */
  function Part(b: seq<Byte>, p: nat): (v: int)
    requires p <= |b| && p < 4
    requires p == 0 ==> |b| > 0
    ensures 0 <= v < 64
  {
    if p == 0 then b[0] / 4
    else if p == 1 then b[0] % 4 * 16 + (if |b| > 1 then b[1] / 16 else 0)
    else if p == 2 then b[1] % 16 * 4 + (if |b| > 2 then b[2] / 64 else 0)
    else b[2] % 64
  }

  /** The bits left over before position `p` of the first group. */
  function Carry(b: seq<Byte>, p: nat): (r: int)
    requires 0 < p < 4 && p <= |b| + 1
    ensures CarryOk(r, p)
  {
    if p == 1 then (if |b| > 0 then b[0] / 4 * 4 else 0)
    else if |b| < p then 0
    else if p == 2 then b[1] / 16 * 16
    else b[2] / 64 * 64
  }

  lemma EncodedAt(b: seq<Byte>, p: nat)
    requires 0 < |b| && p < 4
    ensures |Encoded(b)| >= 4
    ensures Encoded(b)[p] == if p <= |b| then Symbol(Part(b, p)) else PAD
    ensures Encoded(b)[4..] == if |b| < 3 then "" else Encoded(b[3..])
  {
    if |b| >= 3 {
      assert Encoded(b)[..4] == Group(b);
    }
  }

  /** A 6-bit value of the group completes the byte it belongs to and leaves the right bits over. */
  lemma PartCompletes(b: seq<Byte>, p: nat, bin: int)
    requires 0 < |b| && p < 4 && p <= |b|
    requires p > 0 ==> bin == Carry(b, p)
    ensures CarryOk(bin, p)
    ensures p > 0 ==> Emitted(bin, p, Part(b, p)) == [b[p - 1]]
    ensures p < 3 ==> NextCarry(bin, p, Part(b, p)) == Carry(b, p + 1)
  {
  }

  lemma {:induction false} PadsDecodeToNothing(s: string, length: int, bin: int, i: nat)
    requires CarryOk(bin, i % 4) && i % 4 != 1
    requires forall c :: c in Stripped(s) ==> c == PAD
    ensures DecodeFrom(s, length, bin, i) == Bytes([])
    decreases |s|
  {
    if s != "" && s[0] != '\0' && length > 0 {
      if Plain(s[0]) {
        assert s[0] in Stripped(s);
      }
      forall c | c in Stripped(s[1..]) ensures c == PAD {
        assert c in Stripped(s);
      }
      PadsDecodeToNothing(s[1..], length - 1, bin, i);
    }
  }

  /** The decoder stands at position `p` of the first group of `b`, with the bits of that group left over. */
  predicate Stands(s: string, b: seq<Byte>, bin: int, p: nat) {
    && '\0' !in s
    && p < 4 && p <= |b|
    && (p > 0 ==> bin == Carry(b, p))
    && |Encoded(b)| >= p && Stripped(s) == Encoded(b)[p..]
  }

  /** The rest of `s`, at position `p` of a group, decodes to the bytes that were not complete before. */
  predicate Decodes(s: string, length: int, b: seq<Byte>, bin: int, i: nat, p: nat) {
    && p == i % 4 && CarryOk(bin, p) && p <= |b|
    && DecodeFrom(s, length, bin, i) == Bytes(if p == 0 then b else b[p - 1..])
  }

  lemma SkipsForeign(s: string, length: int, b: seq<Byte>, bin: int, i: nat, p: nat)
    requires s != "" && Stands(s, b, bin, p) && length >= |s|
    requires !Plain(s[0])
    ensures Stands(s[1..], b, bin, p)
    ensures Decodes(s[1..], length - 1, b, bin, i, p) ==> Decodes(s, length, b, bin, i, p)
  {
  }

  /** The first character that is not skipped is the next symbol of the encoding, and then come the others. */
  lemma FirstIsPart(s: string, b: seq<Byte>, bin: int, p: nat)
    requires s != "" && Plain(s[0]) && Stands(s, b, bin, p)
    ensures 0 < |b| && s[0] != PAD && Sextet(s[0]) == Part(b, p)
    ensures |Encoded(b)| > p && Stripped(s[1..]) == Encoded(b)[p + 1..]
  {
    assert Stripped(s) == [s[0]] + Stripped(s[1..]);
    assert b != [];
    EncodedAt(b, p);
    SymbolReads(Part(b, p));
    assert Stripped(s[1..]) == Stripped(s)[1..];
  }

  /** Reading a symbol, when what follows it decodes to the bytes after it. */
  lemma TakesPart(s: string, length: int, b: seq<Byte>, bin: int, i: nat, p: nat, next: int)
    requires s != "" && s[0] != '\0' && s[0] != PAD && length > 0 && p == i % 4
    requires 0 < |b| && p <= |b| && Sextet(s[0]) == Part(b, p)
    requires p > 0 ==> bin == Carry(b, p)
    requires next == if p < 3 then Carry(b, p + 1) else bin
    requires CarryOk(next, (i + 1) % 4)
    requires DecodeFrom(s[1..], length - 1, next, i + 1) == Bytes(b[p..])
    ensures Decodes(s, length, b, bin, i, p)
  {
    PartCompletes(b, p, bin);
    var v := Part(b, p);
    assert NextCarry(bin, p, v) == next;
    assert DecodeFrom(s, length, bin, i) == Prepend(Emitted(bin, p, v), Bytes(b[p..]));
    if p > 0 {
      assert [b[p - 1]] + b[p..] == b[p - 1..];
    }
  }

  /** After the last symbol of a group the decoder stands at the next group. */
  lemma EntersGroup(s: string, length: int, b: seq<Byte>, bin: int, i: nat)
    requires s != "" && Plain(s[0]) && length >= |s| && i % 4 == 3 && Stands(s, b, bin, 3)
    ensures Stands(s[1..], b[3..], bin, 0)
    ensures Decodes(s[1..], length - 1, b[3..], bin, i + 1, 0) ==> Decodes(s, length, b, bin, i, 3)
  {
    FirstIsPart(s, b, bin, 3);
    EncodedAt(b, 3);
    assert Encoded(b[3..])[0..] == Encoded(b[3..]);
    if Decodes(s[1..], length - 1, b[3..], bin, i + 1, 0) {
      TakesPart(s, length, b, bin, i, 3, bin);
    }
  }

  lemma EntersPart(s: string, length: int, b: seq<Byte>, bin: int, i: nat, p: nat)
    requires s != "" && Plain(s[0]) && length >= |s| && i % 4 == p < 3 && p < |b| && Stands(s, b, bin, p)
    ensures Stands(s[1..], b, Carry(b, p + 1), p + 1)
    ensures Decodes(s[1..], length - 1, b, Carry(b, p + 1), i + 1, p + 1) ==> Decodes(s, length, b, bin, i, p)
  {
    FirstIsPart(s, b, bin, p);
    if Decodes(s[1..], length - 1, b, Carry(b, p + 1), i + 1, p + 1) {
      TakesPart(s, length, b, bin, i, p, Carry(b, p + 1));
    }
  }

  /** The last symbol of a padded group: only pad characters follow. */
  lemma EndsAtPads(s: string, length: int, b: seq<Byte>, bin: int, i: nat, p: nat)
    requires s != "" && Plain(s[0]) && length >= |s| && i % 4 == p == |b| && p < 3 && Stands(s, b, bin, p)
    ensures Decodes(s, length, b, bin, i, p)
  {
    FirstIsPart(s, b, bin, p);
    var next := Carry(b, p + 1);
    assert (i + 1) % 4 == p + 1;
    var pads := Stripped(s[1..]);
    assert pads == Encoded(b)[p + 1..];
    assert forall c :: c in pads ==> c == PAD;
    PadsDecodeToNothing(s[1..], length - 1, next, i + 1);
    TakesPart(s, length, b, bin, i, p, next);
  }

  lemma StopsAtEnd(length: int, b: seq<Byte>, bin: int, i: nat, p: nat)
    requires p == i % 4 && Stands("", b, bin, p)
    ensures Decodes("", length, b, bin, i, p)
  {
    EncodedLength(b);
    assert b == [];
  }

  /** Where the decoder stands after one character, unless only pad characters are left. */
  lemma Advances(s: string, length: int, b: seq<Byte>, bin: int, i: nat, p: nat)
    returns (b': seq<Byte>, bin': int, i': nat, p': nat)
    requires p == i % 4 && Stands(s, b, bin, p) && length >= |s| && s != ""
    requires Plain(s[0]) ==> p == 3 || p < |b|
    ensures p' == i' % 4 && Stands(s[1..], b', bin', p')
    ensures Decodes(s[1..], length - 1, b', bin', i', p') ==> Decodes(s, length, b, bin, i, p)
  {
    if !Plain(s[0]) {
      SkipsForeign(s, length, b, bin, i, p);
      return b, bin, i, p;
    } else if p == 3 {
      EntersGroup(s, length, b, bin, i);
      return b[3..], bin, i + 1, 0;
    } else {
      EntersPart(s, length, b, bin, i, p);
      return b, Carry(b, p + 1), i + 1, p + 1;
    }
  }

  /** From position `p` of a group on, the rest of the bytes come out. */
  lemma {:induction false} DecodesRest(s: string, length: int, b: seq<Byte>, bin: int, i: nat, p: nat)
    requires p == i % 4 && Stands(s, b, bin, p) && length >= |s|
    ensures Decodes(s, length, b, bin, i, p)
    decreases |s|
  {
    if s == "" {
      StopsAtEnd(length, b, bin, i, p);
    } else if Plain(s[0]) && p == |b| && p < 3 {
      EndsAtPads(s, length, b, bin, i, p);
    } else {
      var b', bin', i', p' := Advances(s, length, b, bin, i, p);
      DecodesRest(s[1..], length - 1, b', bin', i', p');
    }
  }

  lemma {:induction false} EncodingIsPlain(b: seq<Byte>)
    ensures Stripped(Encoded(b)) == Encoded(b) && '\0' !in Encoded(b)
  {
    if |b| > 0 {
      var e := Encoded(b);
      EncodingStart(b);
      if |b| >= 3 {
        EncodingIsPlain(b[3..]);
      }
      StrippedPrefix(e[..4], e[4..]);
      assert e == e[..4] + e[4..];
    }
  }

  lemma EncodingStart(b: seq<Byte>)
    requires |b| > 0
    ensures |Encoded(b)| >= 4 && Encoded(b)[4..] == if |b| < 3 then "" else Encoded(b[3..])
    ensures forall k :: 0 <= k < 4 ==> Plain(Encoded(b)[k])
  {
    forall k | 0 <= k < 4
      ensures |Encoded(b)| >= 4 && Plain(Encoded(b)[k])
    {
      EncodedAt(b, k);
      if k <= |b| {
        SymbolReads(Part(b, k));
      }
    }
    EncodedAt(b, 0);
  }

  lemma {:induction false} StrippedPrefix(a: string, s: string)
    requires forall k :: 0 <= k < |a| ==> Plain(a[k])
    ensures Stripped(a + s) == a + Stripped(s)
  {
    if a == "" {
      assert a + s == s;
    } else {
      StrippedPrefix(a[1..], s);
      assert Plain(a[0]) && (a + s)[0] == a[0] && (a + s)[1..] == a[1..] + s;
      assert a + Stripped(s) == [a[0]] + (a[1..] + Stripped(s));
    }
  }

  /** Any string that is an encoding once the skipped characters are removed decodes to the bytes encoded. */
  lemma RoundTrip(b: seq<Byte>, s: string, length: int)
    requires '\0' !in s && length >= |s| && Stripped(s) == Encoded(b)
    ensures DecodeFrom(s, length, 0, 0) == Bytes(b)
  {
    assert Encoded(b)[0..] == Encoded(b) && b[0..] == b;
    DecodesRest(s, length, b, 0, 0, 0);
  }

  lemma PlainRoundTrip(b: seq<Byte>)
    ensures DecodeFrom(Encoded(b), |Encoded(b)|, 0, 0) == Bytes(b)
  {
    EncodingIsPlain(b);
    RoundTrip(b, Encoded(b), |Encoded(b)|);
  }

  // ------------------------------------------------------------------------------------------------------------
  // What the decoder rejects
  // ------------------------------------------------------------------------------------------------------------

  function Sextets(s: string): nat {
    if s == "" then 0 else Weight(s[0]) + Sextets(s[1..])
  }

  function Weight(c: char): nat {
    if Sextet(c) >= 0 then 1 else 0
  }

  /** A lone pad character at `k`, within reach, where one symbol of a group was read and `i` before this string. */
  predicate StrayPad(s: string, length: int, i: nat, k: nat) {
    && k < |s| && k < length && '\0' !in s[..k]
    && s[k] == PAD && (k + 1 == |s| || s[k + 1] != PAD)
    && (i + Sextets(s[..k])) % 4 == 1
  }

  predicate HasStrayPad(s: string, length: int, i: nat) {
    exists k: nat :: k < |s| && StrayPad(s, length, i, k)
  }

  lemma StrayPadLater(s: string, length: int, i: nat, k: nat)
    requires s != ""
    ensures StrayPad(s, length, i, k + 1)
       <==> s[0] != '\0' && StrayPad(s[1..], length - 1, i + Weight(s[0]), k)
  {
    if k < |s| - 1 {
      assert s[..k + 1] == [s[0]] + s[1..][..k];
      assert s[..k + 1][1..] == s[1..][..k];
      assert s[1..][k] == s[k + 1];
    }
  }

  lemma StrayPadMoves(s: string, length: int, i: nat)
    requires s != "" && s[0] != '\0' && !StrayPad(s, length, i, 0)
    ensures HasStrayPad(s, length, i) <==> HasStrayPad(s[1..], length - 1, i + Weight(s[0]))
  {
    var more := Weight(s[0]);
    if HasStrayPad(s[1..], length - 1, i + more) {
      var k: nat :| k < |s[1..]| && StrayPad(s[1..], length - 1, i + more, k);
      StrayPadLater(s, length, i, k);
    }
    if HasStrayPad(s, length, i) {
      var k: nat :| k < |s| && StrayPad(s, length, i, k);
      StrayPadLater(s, length, i, k - 1);
    }
  }

  lemma StrayPadFirst(s: string, length: int, i: nat)
    requires s != "" && s[0] != '\0' && length > 0
    ensures StrayPad(s, length, i, 0) <==> BadPad(s, 0, i)
  {
    assert s[..0] == "";
  }

  lemma NoStrayPadAtEnd(s: string, length: int, i: nat)
    requires s == "" || s[0] == '\0' || length <= 0
    ensures !HasStrayPad(s, length, i)
  {
    forall k: nat | k < |s|
      ensures !StrayPad(s, length, i, k)
    {
      if k > 0 {
        assert s[..k][0] == s[0];
      }
    }
  }

  /** The decoder answers with nothing exactly when a lone pad character is the second of its group. */
  lemma {:induction false} RejectedExactly(s: string, length: int, bin: int, i: nat)
    requires CarryOk(bin, i % 4)
    ensures DecodeFrom(s, length, bin, i) == Invalid <==> HasStrayPad(s, length, i)
    decreases |s|
  {
    if s == "" || s[0] == '\0' || length <= 0 {
      NoStrayPadAtEnd(s, length, i);
    } else {
      StrayPadFirst(s, length, i);
      if !BadPad(s, 0, i) {
        StrayPadMoves(s, length, i);
        var v := Sextet(s[0]);
        if v < 0 {
          RejectedExactly(s[1..], length - 1, bin, i);
        } else {
          assert CarryOk(NextCarry(bin, i % 4, v), (i + 1) % 4);
          RejectedExactly(s[1..], length - 1, NextCarry(bin, i % 4, v), i + 1);
        }
      }
    }
  }

  // ------------------------------------------------------------------------------------------------------------
  // The alphabet, and what each character says
  // ------------------------------------------------------------------------------------------------------------

  const UPPER := "ABCDEFGHIJKLMNOPQRSTUVWXYZ"
  const LOWER := "abcdefghijklmnopqrstuvwxyz"
  const NUMERALS := "0123456789"

  /** Table 1 of RFC 4648. */
  const ALPHABET := UPPER + LOWER + NUMERALS + "+/"

  lemma UpperAt(v: nat)
    requires v < 26
    ensures |UPPER| == 26 && UPPER[v] == ('A' as int + v) as char
  {
  }

  lemma LowerAt(v: nat)
    requires v < 26
    ensures |LOWER| == 26 && LOWER[v] == ('a' as int + v) as char
  {
  }

  lemma NumeralAt(v: nat)
    requires v < 10
    ensures |NUMERALS| == 10 && NUMERALS[v] == ('0' as int + v) as char
  {
  }

  lemma InParts(a: string, b: string, c: string, d: string, v: nat)
    requires v < |a| + |b| + |c| + |d|
    ensures (a + b + c + d)[v] ==
            if v < |a| then a[v]
            else if v < |a| + |b| then b[v - |a|]
            else if v < |a| + |b| + |c| then c[v - |a| - |b|]
            else d[v - |a| - |b| - |c|]
  {
  }

  /** Symbols are the characters of the alphabet in order, and the decode table inverts it. */
  lemma AlphabetTheorem(v: int)
    requires 0 <= v < 64
    ensures |ALPHABET| == 64 && Symbol(v) == ALPHABET[v] && Sextet(ALPHABET[v]) == v
  {
    InParts(UPPER, LOWER, NUMERALS, "+/", v);
    if v < 26 {
      UpperAt(v);
    } else if v < 52 {
      LowerAt(v - 26);
    } else if v < 62 {
      NumeralAt(v - 52);
    }
  }

  /** The byte at position i, zero behind the end. */
  function ByteAt(b: seq<Byte>, i: nat): int {
    if i < |b| then b[i] else 0
  }

  /** Character p of four that write the 24-bit number `n` in base 64, the most significant first. */
  function Digit64(n: nat, p: nat): (v: nat)
    requires p < 4
    ensures v < 64
  {
    (if p == 0 then n / 262144 else if p == 1 then n / 4096 else if p == 2 then n / 64 else n) % 64
  }

  /** Three bytes as one number, the first one most significant. */
  function Number24(b: seq<Byte>, i: nat): nat {
    ByteAt(b, i) * 65536 + ByteAt(b, i + 1) * 256 + ByteAt(b, i + 2)
  }

  lemma PartIsDigit(b: seq<Byte>, p: nat)
    requires p <= |b| && p < 4 && |b| > 0
    ensures Part(b, p) == Digit64(Number24(b, 0), p)
  {
    DigitsOfThree(b[0], ByteAt(b, 1), ByteAt(b, 2));
  }

  lemma By64(n: nat, q: nat, r: nat)
    requires n == q * 64 + r && r < 64
    ensures n / 64 == q && n % 64 == r
  {
  }

  lemma By4096(n: nat, q: nat, r: nat)
    requires n == q * 4096 + r && r < 4096
    ensures n / 4096 == q
  {
  }

  lemma By262144(n: nat, q: nat, r: nat)
    requires n == q * 262144 + r && r < 262144
    ensures n / 262144 == q
  {
  }

  lemma DigitsOfThree(x: Byte, y: Byte, z: Byte)
    ensures var n: nat := x * 65536 + y * 256 + z;
      && Digit64(n, 0) == x / 4 && Digit64(n, 1) == x % 4 * 16 + y / 16
      && Digit64(n, 2) == y % 16 * 4 + z / 64 && Digit64(n, 3) == z % 64
  {
    var n: nat := x * 65536 + y * 256 + z;
    var a, b, c, d := x / 4, x % 4 * 16 + y / 16, y % 16 * 4 + z / 64, z % 64;
    By64(n, (a * 64 + b) * 64 + c, d);
    By4096(n, a * 64 + b, c * 64 + d);
    By262144(n, a, b * 4096 + c * 64 + d);
    By64((a * 64 + b) * 64 + c, a * 64 + b, c);
    By64(a * 64 + b, a, b);
  }

  lemma {:induction false} NumberShifts(b: seq<Byte>, i: nat)
    requires |b| >= 3
    ensures Number24(b[3..], i) == Number24(b, i + 3)
  {
  }

  /** The character at position j: digit j % 4 of the three bytes from j / 4 * 3 on, or padding. */
  function CharacterAt(b: seq<Byte>, j: nat): char {
    var first, p := j / 4 * 3, j % 4;
    if first + p > |b| then '='
    else
      AlphabetTheorem(Digit64(Number24(b, first), p));
      ALPHABET[Digit64(Number24(b, first), p)]
  }

  lemma FirstFour(b: seq<Byte>, j: nat)
    requires b != [] && j < 4
    ensures |Encoded(b)| >= 4 && Encoded(b)[j] == CharacterAt(b, j)
  {
    EncodedAt(b, j);
    if j <= |b| {
      PartIsDigit(b, j);
      AlphabetTheorem(Part(b, j));
    }
  }

  lemma CharacterShifts(b: seq<Byte>, j: nat)
    requires |b| >= 3 && j >= 4
    ensures CharacterAt(b[3..], j - 4) == CharacterAt(b, j)
  {
    NumberShifts(b, (j - 4) / 4 * 3);
  }

  /** Section 4 of RFC 4648, character by character: four characters write three bytes as one number in base 64, zeros
      standing in for missing bytes, and the characters no byte reaches are padding. */
  lemma {:induction false} EncodedMeans(b: seq<Byte>, j: nat)
    requires j < |Encoded(b)|
    ensures Encoded(b)[j] == CharacterAt(b, j)
  {
    if j < 4 {
      FirstFour(b, j);
    } else {
      EncodedAt(b, 0);
      assert Encoded(b)[4..][j - 4] == Encoded(b)[j];
      EncodedMeans(b[3..], j - 4);
      CharacterShifts(b, j);
    }
  }
}
