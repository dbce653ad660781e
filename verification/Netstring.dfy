/** Netstrings: `<decimal length>:<payload>,`. */
module Netstring {
  import opened Decimal

  /** The payload is `buffer[start..start + len]`; or the reason there is none. */
  datatype ReadResult =
    | Payload(start: nat, len: nat)
    | TooLong
    | NoColon
    | TooShort
    | NoComma
    | LeadingZero
    | NoLength

  const MAX_LENGTH := 999_999_999

  function Encode(payload: string): string {
    Digits(|payload|) + ":" + payload + ","
  }

  /** How many digits `buffer` starts with. */
  function DigitRun(buffer: string): (n: nat)
    ensures n <= |buffer| && AllDigits(buffer[..n])
    ensures n < |buffer| ==> !IsDigit(buffer[n])
  {
    if buffer == [] || !IsDigit(buffer[0]) then 0
    else
      var rest := DigitRun(buffer[1..]);
      assert forall i :: 0 < i <= rest ==> buffer[i] == buffer[1..][i - 1];
      1 + rest
  }

  function Read(buffer: string): ReadResult {
    if |buffer| < 3 then TooShort
    else if buffer[0] == '0' && IsDigit(buffer[1]) then LeadingZero
    else if !IsDigit(buffer[0]) then NoLength
    else
      var i := DigitRun(buffer);
      if i > 9 then TooLong
      else
        var len := Value(buffer[..i]);
        if i + len + 1 >= |buffer| then TooShort
        else if buffer[i] != ':' then NoColon
        else if buffer[i + 1 + len] != ',' then NoComma
        else Payload(i + 1, len)
  }

  lemma DigitRunIs(buffer: string, n: nat)
    requires n <= |buffer| && AllDigits(buffer[..n])
    requires n < |buffer| ==> !IsDigit(buffer[n])
    ensures DigitRun(buffer) == n
  {
    var r := DigitRun(buffer);
    forall j | 0 <= j < r ensures IsDigit(buffer[j]) {
      assert buffer[..r][j] == buffer[j];
    }
    forall j | 0 <= j < n ensures IsDigit(buffer[j]) {
      assert buffer[..n][j] == buffer[j];
    }
  }

  method NetstringRead(buffer: string) returns (r: ReadResult)
    ensures r == Read(buffer)
  {
    if |buffer| < 3 {
      return TooShort;
    }
    if buffer[0] == '0' && IsDigit(buffer[1]) {
      return LeadingZero;
    }
    if !IsDigit(buffer[0]) {
      return NoLength;
    }
    var i, len := 0, 0;
    while i < |buffer| && IsDigit(buffer[i])
      invariant 0 <= i <= |buffer| && i <= 9
      invariant AllDigits(buffer[..i]) && len == Value(buffer[..i])
    {
      if i >= 9 {
        assert DigitRun(buffer) > 9 by {
          assert DigitRun(buffer) < |buffer| ==> !IsDigit(buffer[DigitRun(buffer)]);
          assert forall j :: 0 <= j <= i ==> buffer[j] == if j < i then buffer[..i][j] else buffer[i];
        }
        return TooLong;
      }
      assert buffer[..i + 1][..i] == buffer[..i];
      len := len * 10 + DigitValue(buffer[i]);
      i := i + 1;
    }
    DigitRunIs(buffer, i);
    if i + len + 1 >= |buffer| {
      return TooShort;
    }
    if buffer[i] != ':' {
      return NoColon;
    }
    i := i + 1;
    if buffer[i + len] != ',' {
      return NoComma;
    }
    return Payload(i, len);
  }

  // ----- Sizes

  /** ceil(log10(x)): the least k with 10^k >= x. */
  function CeilLog10(x: nat): (k: nat)
    requires x > 0
    ensures Pow10(k) >= x
    ensures forall j :: 0 <= j < k ==> Pow10(j) < x
  {
    LeastPower(x, 0)
  }

  function LeastPower(x: nat, k: nat): (r: nat)
    requires forall j :: 0 <= j < k ==> Pow10(j) < x
    ensures Pow10(r) >= x
    ensures forall j :: 0 <= j < r ==> Pow10(j) < x
    decreases x - Pow10(k)
  {
    if Pow10(k) >= x then k else LeastPower(x, k + 1)
  }

  function BufferSize(len: nat): nat {
    if len == 0 then 3 else CeilLog10(len + 1) + len + 2
  }

  /** The logarithm counts the decimal digits. */
  lemma LogCountsDigits(len: nat)
    requires len > 0
    ensures CeilLog10(len + 1) == |Digits(len)|
  {
    var d := |Digits(len)|;
    DigitCount(len, d);
    if d > 1 {
      DigitCount(len, d - 1);
    }
    var k := CeilLog10(len + 1);
    assert Pow10(0) == 1;
    if k < d {
      assert d > 1;
      PowMonotone(k, d - 1);
    }
  }

  lemma {:induction false} PowMonotone(j: nat, k: nat)
    requires j <= k
    ensures Pow10(j) <= Pow10(k)
  {
    if j < k {
      PowMonotone(j, k - 1);
    }
  }

  /** The size computed by logarithm is the length of the encoding. */
  lemma EncodeSize(payload: string)
    ensures |Encode(payload)| == BufferSize(|payload|)
  {
    if payload != [] {
      LogCountsDigits(|payload|);
    }
  }

  /** Fills a fresh buffer: length text and colon, then the payload, then the comma. */
  method NetstringEncodeNew(data: array<char>, len: nat) returns (ns: array<char>, size: nat)
    requires len <= data.Length
    ensures fresh(ns)
    ensures ns[..] == Encode(data[..len]) && size == ns.Length
  {
    if len == 0 {
      ns := new char[3];
      ns[0], ns[1], ns[2] := '0', ':', ',';
      size := 3;
      assert Digits(0) == "0";
      assert ns[..] == "0:,";
    } else {
      LogCountsDigits(len);
      var num := CeilLog10(len + 1);
      ns := new char[num + len + 2];
      var text := Digits(len) + ":";
      for i := 0 to num + 1
        invariant ns[..i] == text[..i]
      {
        ns[i] := text[i];
      }
      // The terminating NUL of sprintf, overwritten by the payload.
      ns[num + 1] := '\0';
      assert ns[..num + 1] == text;
      for i := 0 to len
        invariant ns[..num + 1] == text
        invariant ns[num + 1..num + 1 + i] == data[..i]
      {
        ns[num + 1 + i] := data[i];
      }
      ns[num + len + 1] := ',';
      size := num + len + 2;
      assert ns[..num + 1] == text && ns[num + 1..num + 1 + len] == data[..len];
      assert ns[..] == ns[..num + 1] + ns[num + 1..num + 1 + len] + [','];
    }
  }

  // ----- Printer and parser

  predicate Fits(payload: string) {
    |payload| <= MAX_LENGTH
  }

  lemma NineDigits(n: nat)
    ensures |Digits(n)| <= 9 <==> n <= MAX_LENGTH
  {
    DigitCount(n, 9);
    assert Pow10(9) == 1_000_000_000 by {
      assert Pow10(3) == 1000;
      assert Pow10(6) == 1000 * Pow10(3);
    }
  }

  lemma RunOfEncoding(payload: string, rest: string)
    ensures var b := Encode(payload) + rest; var n := |Digits(|payload|)|;
      DigitRun(b) == n && b[..n] == Digits(|payload|) && b[n] == ':'
  {
    var b := Encode(payload) + rest;
    var n := |Digits(|payload|)|;
    assert b[..n] == Digits(|payload|) && b[n] == ':';
    DigitRunIs(b, n);
  }

  /** Reading an encoding followed by anything gives the payload back, for exactly the lengths up to 999999999; a
      longer one is refused as too long. */
  lemma ReadEncoded(payload: string, rest: string)
    ensures var b := Encode(payload) + rest; var n := |Digits(|payload|)|;
      if Fits(payload)
      then Read(b) == Payload(n + 1, |payload|) && b[n + 1..n + 1 + |payload|] == payload
      else Read(b) == TooLong
  {
    var b := Encode(payload) + rest;
    var n := |Digits(|payload|)|;
    RunOfEncoding(payload, rest);
    NineDigits(|payload|);
    ValueOfDigits(|payload|);
    assert b[n + 1..n + 1 + |payload|] == payload;
    assert b[n + 1 + |payload|] == ',';
    assert b[0] == b[..n][0];
    assert b[1] == if n > 1 then b[..n][1] else ':';
    OneZero(|payload|);
  }

  lemma OneZero(n: nat)
    ensures Digits(n)[0] == '0' ==> |Digits(n)| == 1
  {
  }

  lemma Pieces(b: string, i: nat, len: nat)
    requires i + 1 + len < |b| && b[i] == ':' && b[i + 1 + len] == ','
    ensures b == b[..i] + ":" + b[i + 1..i + 1 + len] + "," + b[i + 2 + len..]
  {
  }

  /** What a successful read has seen: digits without a leading zero, the colon, and the comma after the payload. */
  lemma ReadParts(buffer: string)
    requires Read(buffer).Payload?
    ensures var p := Read(buffer); var i := p.start - 1;
      && 0 < i <= 9 && p.start + p.len < |buffer|
      && AllDigits(buffer[..i]) && Digits(p.len) == buffer[..i]
      && buffer[i] == ':' && buffer[p.start + p.len] == ','
  {
    var p := Read(buffer);
    var i := p.start - 1;
    assert i == DigitRun(buffer);
    var digits := buffer[..i];
    assert digits[0] == buffer[0] && (i > 1 ==> digits[1] == buffer[1]);
    DigitsOfValue(digits);
  }

  /** A successful read has found a canonical encoding at the start of the buffer. */
  lemma ReadIsCanonical(buffer: string)
    requires Read(buffer).Payload?
    ensures var p := Read(buffer); var end := p.start + p.len;
      && end < |buffer|
      && Fits(buffer[p.start..end])
      && buffer == Encode(buffer[p.start..end]) + buffer[end + 1..]
      && end + 1 == BufferSize(p.len)
  {
    ReadParts(buffer);
    var p := Read(buffer);
    var i, payload := p.start - 1, buffer[p.start..p.start + p.len];
    Pieces(buffer, i, p.len);
    assert Encode(payload) == buffer[..i] + ":" + payload + ",";
    assert Fits(payload) by {
      NineDigits(p.len);
    }
    assert BufferSize(p.len) == i + 1 + p.len + 1 by {
      EncodeSize(payload);
    }
  }

  /** Every proper prefix of an encoding is reported as too short: it may still be completed. */
  lemma ProperPrefixTooShort(payload: string, k: nat)
    requires Fits(payload) && k < |Encode(payload)|
    ensures Read(Encode(payload)[..k]) == TooShort
  {
    var e := Encode(payload);
    var b := e[..k];
    var n := |Digits(|payload|)|;
    NineDigits(|payload|);
    if k >= 3 {
      assert e[..n] == Digits(|payload|) && e[n] == ':';
      assert b[0] == e[..n][0];
      assert b[1] == if n > 1 then e[..n][1] else ':';
      OneZero(|payload|);
      if k <= n {
        assert b == e[..n][..k];
        DigitRunIs(b, k);
      } else {
        assert b[..n] == e[..n] && b[n] == ':';
        DigitRunIs(b, n);
        ValueOfDigits(|payload|);
      }
    }
  }

  // ----- What is refused

  /** The buffer starts with the length `len`, whole, and is long enough for its payload, but the colon or the comma is
      missing. */
  predicate BadFrame(buffer: string, len: nat) {
    var n := |Digits(len)|;
    && len <= MAX_LENGTH && n + len + 1 < |buffer| && buffer[..n] == Digits(len) && !IsDigit(buffer[n])
    && (buffer[n] != ':' || buffer[n + 1 + len] != ',')
  }

  /** Three characters or more that do not start with a digit, or start with a leading zero, with ten digits, or with a
      bad frame. */
  ghost predicate Malformed(buffer: string) {
    |buffer| >= 3 &&
    (|| !IsDigit(buffer[0])
     || (buffer[0] == '0' && IsDigit(buffer[1]))
     || (|buffer| >= 10 && AllDigits(buffer[..10]))
     || exists len: nat :: BadFrame(buffer, len))
  }

  lemma BadFrameRefused(buffer: string, len: nat)
    requires BadFrame(buffer, len)
    ensures Read(buffer).NoColon? || Read(buffer).NoComma?
  {
    var n := |Digits(len)|;
    NineDigits(len);
    ValueOfDigits(len);
    DigitRunIs(buffer, n);
    OneZero(len);
    assert buffer[0] == buffer[..n][0] && (n > 1 ==> buffer[1] == buffer[..n][1]);
  }

  lemma LongRun(buffer: string)
    requires |buffer| >= 10
    ensures DigitRun(buffer) > 9 <==> AllDigits(buffer[..10])
  {
    var n := DigitRun(buffer);
    if AllDigits(buffer[..10]) {
      forall j | 0 <= j < 10 ensures IsDigit(buffer[j]) {
        assert buffer[j] == buffer[..10][j];
      }
    }
    if n > 9 {
      assert forall j :: 0 <= j < 10 ==> buffer[..10][j] == buffer[..n][j];
    }
  }

  lemma RefusedFrame(buffer: string)
    requires Read(buffer).NoColon? || Read(buffer).NoComma?
    ensures BadFrame(buffer, Value(buffer[..DigitRun(buffer)]))
  {
    var digits := buffer[..DigitRun(buffer)];
    assert digits[0] == buffer[0] && (|digits| > 1 ==> digits[1] == buffer[1]);
    DigitsOfValue(digits);
    NineDigits(Value(digits));
  }

  /** The parser refuses exactly the malformed buffers; it waits on every other one that holds no netstring yet. */
  lemma RefusedExactly(buffer: string)
    ensures Malformed(buffer) <==> !Read(buffer).TooShort? && !Read(buffer).Payload?
  {
    if |buffer| >= 10 {
      LongRun(buffer);
    }
    if len: nat :| BadFrame(buffer, len) {
      BadFrameRefused(buffer, len);
    }
    if Read(buffer).NoColon? || Read(buffer).NoComma? {
      RefusedFrame(buffer);
    }
  }
}
