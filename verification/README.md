# Verified model of a conferencing server's negotiation, channel and room logic

The repository is a C++ port of a mediasoup server with a demo room service. This project models the parts of it whose
correctness depends on several functions or on whole runs, and proves what those parts are for. `dafny verify
dfyconfig.toml` checks everything.

- **RTP negotiation** (`Rtp`, `SupportedCodecs`, `RouterCapabilities`, `ProducerMapping`, `Consumable`,
  `FeedbackReduction`, `Consumer`, `Negotiation`, `NegotiationLimits`): the four stages of `ortc.cpp`, from a router's
  codec list to the parameters granted to a consumer. Each stage is a method with the source's loops, proved equal to a
  function; the theorems are about those functions and their composition.
- **Worker channel** (`Sequences`, `Decimal`, `Netstring`, `ChannelReader`, `RequestCorrelator`): the netstring printer and parser, the
  reader that cuts messages out of an arbitrarily chunked stream, and the matching of responses and timeouts to requests.
- **Remote SDP** (`MediaSections`, `RemoteSdp`): m-lines, their index by mid, the mirrored SDP object and the BUNDLE text,
  as an object over a vector of section objects.
- **Linked structures** (`RingList`, `PromiseChain`, `PromiseSettlement`): circular lists spliced by pointer swaps; promise
  chains, the insertion of one chain into another, and how a settlement travels down a chain of `then` steps.
- **Ring buffer** (`CircularBuffer`), **SCTP stream ids** (`SctpStreams`), **room mesh** (`RoomMesh`), **Base64** (`Base64`).

Conventions. A class keeps the source's fields; its methods equate the new state with a specification function or relation
of the old one, and the lemmas about all runs are stated for that function or relation. Ghost parameters of the linked-structure
methods name the chain or ring a node lies in. Thrown errors are values of `Outcome`. The H264 profile comparison is a
parameter `same` of everything that compares codecs; see below for what the theorems ask of it.
Random stream identifiers and the JSON parser's verdict on a payload are parameters as well.

## The profile comparison

The code takes two H264 profile texts as the same when both can be parsed and the parsed profiles are equal
(`Rtp.SameParsed`, for any parsing). For every such comparison a consumer is granted exactly when some media codec is
accepted (`Negotiation.AcceptanceOfParsedProfiles`). This needs only symmetry and transitivity, or a distinct mapping
(`Negotiation.AcceptanceTheorem`); for an arbitrary `same` the exact condition is that the first useful codec is media
(`Negotiation.ExactAcceptance`), and the two can differ (`NegotiationLimits.UnlikeCodecsRefused`).

## What turned out not to hold as documented

- `canConsume` and the negotiation are meant as one decision. They disagree exactly when the first accepted codec is RTX
  and the first useful one, media or RTX naming an accepted media codec, is media (`Negotiation.AgreementTheorem`).
  `canConsume` then says no and the consumer is granted: VP8 and VP9 offered to an endpoint without VP8
  (`NegotiationLimits.CanConsumeTooStrict`).
- A channel read that finds more than 4194304 buffered characters discards them, so payloads are delivered exactly if and
  only if that never happens (`ChannelReader.ReassemblyTheorem`).
- Request ids do not identify requests once the 32-bit counter wraps. Settlements are the requests' own exactly if no timer
  or response of another request with the same id meets a pending request (`RequestCorrelator.OwnExactly`); what a caller
  can check is that the next id has no sleeping timer and no outstanding response (`RequestCorrelator.GuardIsExact`).
  A request that timed out long ago is enough to break it: its late response settles the next request with its id
  (`RequestCorrelator.WrapConfusesResponses`).
- `move` of a list node onto itself breaks its ring (`RingList.MoveOntoItself`).
- A further `then` on a promise that has already handed its outcome on is not heard by that call
  (`PromiseSettlement.ThenIsHeardAtEndOnly`). The new promise stays pending exactly as long as no event settles it or
  makes a call that reaches it (`PromiseSettlement.PendingExactly`). None does as long as neither it nor one between the
  two is settled, and the finished promise, should its own handler still run, returns no promise of a chain that holds an
  outcome (`PromiseSettlement.WaitsForGood`).
- A handler may return a promise whose chain already holds an outcome further down; the call then does not
  hand that outcome to what follows (`PromiseSettlement.AdoptionStableExactly`).
- With no SCTP stream id free the failure is only logged and id 0 is given out twice (`SctpStreams.ConsumeKeepsExact`).
- Closing an unknown mid records it at index 0 and closes the first section (`RemoteSdp.CloseNeedsKnownMid`).
- Joining twice is only logged. A ready peer that joins again keeps the mesh only if no other joined peer has a live
  producer (`RoomMesh.RepeatedJoinExactly`); otherwise it is subscribed twice (`RoomMesh.SecondJoinDuplicates`).
- A consuming transport created after the join is in time only if no other joined peer has a live producer
  (`RoomMesh.LateTransportExactly`).

## Model

| member | source | states |
|---|---|---|
| Rtp.FindMatch | mediasoup/ortc.cpp:57-147 | the search loops around `matchCodecs` find the first matching codec, or none when none matches |
| Rtp.MatchIsIdentity | mediasoup/ortc.cpp:57-147 | with the code's comparison, strict matching is equality of what tells codecs apart: mime in any case, clock rate, opus channels, H264 packetization mode and profile, VP9 profile; matching that is not strict leaves the profiles out |
| Rtp.OpusChannels | mediasoup/ortc.cpp:405-416 | opus without channels counts as mono, so a stereo entry supports stereo opus only |
| SupportedCodecs.TableIsOk | mediasoup/SupportedRtpCapabilities.cpp:6-618 | no supported codec is RTX and none has a payload type in the dynamic range 96-127 |
| RouterCapabilities.PlaceMediaCodec | mediasoup/ortc.cpp:1860-1980 | one media codec: skipped if unsupported, given the requested, the fixed or the first free payload type, refused on a duplicate or an empty pool, followed by its RTX codec if video |
| RouterCapabilities.GenerateRouterRtpCapabilities | mediasoup/ortc.cpp:1837-1983 | the loop over all media codecs computes the allocation the lemmas below are about, with its first error |
| RouterCapabilities.AllocateConsistent | mediasoup/ortc.cpp:1851-1983 | throughout, payload types are distinct, RTX codecs are paired, and free and used dynamic payload types partition the initial 32 |
| RouterCapabilities.AllocateDemand | mediasoup/ortc.cpp:1896-1960 | a run takes exactly the demanded number of payload types; failing for lack of one means the demand exceeded the pool |
| RouterCapabilities.RouterCapabilitiesTheorem | mediasoup/ortc.cpp:1837-1983 | success gives distinct non-zero payload types with every video codec directly followed by its RTX codec; a demand of at most 32 never exhausts the pool |
| RouterCapabilities.AllocateExactly | mediasoup/ortc.cpp:1851-1983 | from any point of the run, allocation succeeds exactly if the remaining codecs are valid, their demand is within the pool, and no payload type chosen for them is chosen twice or in use |
| RouterCapabilities.RouterExactly | mediasoup/ortc.cpp:1837-1983 | the router's list exists exactly if every media codec is valid, at most 32 dynamic payload types are needed and none is chosen twice |
| RouterCapabilities.ExactlyOneRtx | mediasoup/ortc.cpp:1953-1979 | in such a list exactly one RTX codec names a given video codec: the one right behind it |
| RouterCapabilities.RouterListTheorem | mediasoup/ortc.cpp:1851-1983 | the list is, in order and nothing else, one codec per supported media codec, audio or video: kind, mime, clock rate, channels and feedback of the table, parameters of the media codec over those of the table, the requested, fixed or a dynamic payload type; behind a video codec its RTX codec, field by field |
| RouterCapabilities.EachIsListed | mediasoup/ortc.cpp:1858-1951 | so every media codec with a match is listed |
| RouterCapabilities.NothingElseListed | mediasoup/ortc.cpp:1858-1979 | and every listed codec that is not RTX lists one |
| ProducerMapping.MatchMediaCodecs | mediasoup/ortc.cpp:2001-2031 | the loop over the producer's media codecs records each one's router codec, or reports the first unsupported one |
| ProducerMapping.MatchRtxCodecs | mediasoup/ortc.cpp:2033-2110 | the loop over the RTX codecs: first codec with the apt's payload type, last router RTX codec naming its match, both errors |
| ProducerMapping.GetProducerRtpParametersMapping | mediasoup/ortc.cpp:1991-2123 | both loops together compute the mapping the lemmas below are about |
| ProducerMapping.MapMediaMeaning | mediasoup/ortc.cpp:2001-2031 | the media pass succeeds exactly when every media codec has a match, and then records exactly those matches |
| ProducerMapping.MapRtxMeaning | mediasoup/ortc.cpp:2033-2110 | the RTX pass succeeds exactly when every apt names a media codec matched with a video codec, keeps all media entries, and each new entry is a router RTX codec naming that match |
| ProducerMapping.ProducerMappingTheorem | mediasoup/ortc.cpp:1991-2123 | the mapping succeeds exactly for mappable producers; it is total on the producer's payload types, lands in the router's, and commutes with the association of RTX and media codecs |
| ProducerMapping.AptOfRtxRejected | mediasoup/ortc.cpp:2059-2105 | an apt that names an RTX codec of the producer is always rejected |
| ProducerMapping.MappingErrors | mediasoup/ortc.cpp:2001-2110 | a media codec without a match is the error reported first; otherwise the first RTX codec that names no media codec matched with a video codec, with the error telling whether it names any codec of the producer |
| Consumable.GetConsumableRtpParameters | mediasoup/ortc.cpp:2173-2273 | the loop with its three searches computes the consumable list the lemmas below are about |
| Consumable.ConsumableShaped | mediasoup/ortc.cpp:2173-2273 | for a router's list and a faithful mapping, every RTX codec directly follows the media codec its apt names, and every codec is the router's counterpart of a producer codec |
| Consumable.ShapeIsApart | mediasoup/ortc.cpp:2173-2273 | no media codec of such a list shares its payload type with an RTX codec |
| Consumable.DistinctMappingGivesDistinctMedia | mediasoup/ortc.cpp:2181-2222 | media codecs mapped to distinct router codecs stay distinct |
| Consumable.ConsumableRestated | mediasoup/ortc.cpp:2173-2273 | field by field and in the producer's order: each media codec has its router codec's mime, payload type, clock rate, channels and feedback and its own parameters; behind it, exactly if it is video, the router's RTX codec |
| FeedbackReduction.RebuildFeedback | mediasoup/ortc.cpp:2516-2577 | the consumer side's rebuild loop is the order-preserving filter |
| FeedbackReduction.EraseFeedback | mediasoup/ortc.cpp:1674-1735 | the sending side's in-place erase loop is the same filter |
| FeedbackReduction.ReducedConcat | mediasoup/ortc.cpp:2516-2577 | the filter works entry by entry, so the order is kept |
| FeedbackReduction.ReducedEntries | mediasoup/ortc.cpp:2516-2577 | each surviving entry stays with all its copies, every other one is gone |
| FeedbackReduction.BandwidthEstimation | mediasoup/ortc.cpp:1663-1736 | transport-cc and goog-remb never stay together; each stays only with its extension; everything else stays |
| Consumer.MatchConsumable | mediasoup/ortc.cpp:2400-2423 | the matching loop keeps the accepted codecs in order, with the endpoint's feedback |
| Consumer.MatchedIsAccepted | mediasoup/ortc.cpp:2400-2423 | every matched codec is an accepted consumable codec, up to feedback |
| Consumer.AcceptedIsMatched | mediasoup/ortc.cpp:2400-2423 | every accepted consumable codec is matched |
| Consumer.SanitizeRtx | mediasoup/ortc.cpp:2426-2472 | the downward erase loop and its RTX flag compute the sweep the lemmas below are about |
| Consumer.SweepMeaning | mediasoup/ortc.cpp:2426-2472 | when no apt names an RTX codec, the sweep keeps in order exactly the media codecs and the RTX codecs naming one of them, and the flag tells whether such an RTX codec exists |
| Consumer.SweepKeepsFirst | mediasoup/ortc.cpp:2426-2478 | a leading media codec survives the sweep of any list |
| Consumer.GetConsumerRtpParameters | mediasoup/ortc.cpp:2374-2590 | validation, matching, sanitising, the check for media codecs, feedback reduction and encodings together compute the outcome the lemmas are about |
| Consumer.CanConsumeImpliesAccepted | mediasoup/ortc.cpp:2326-2365 | for any consumable codecs, `canConsume` saying yes implies that the negotiation grants the consumer |
| Consumer.GrantedFeedback | mediasoup/ortc.cpp:2400-2577 | for any consumable codecs, a granted codec has exactly those entries of the first accepting capability's feedback that the extensions common to both sides allow: transport-cc with its own, goog-remb with abs-send-time where transport-cc has none, everything else |
| Negotiation.AcceptedIffMedia | mediasoup/ortc.cpp:2400-2478 | the check "no compatible media codecs" passes exactly when the endpoint accepts some media codec, and the kept list is still grouped |
| Negotiation.PassesIffLeads | mediasoup/ortc.cpp:2426-2478 | for grouped codecs and any profile relation, the check passes exactly when the first accepted codec that is media, or RTX naming an accepted media codec, is media |
| Negotiation.ExactAcceptance | mediasoup/ortc.cpp:1837-2478 | through all four stages and for any profile relation: a consumer is granted exactly to endpoints with valid capabilities for which that codec is media |
| Negotiation.AcceptingOneExactly | mediasoup/ortc.cpp:2426-2478 | this equals accepting some media codec exactly when the first useful codec is not RTX |
| Negotiation.AcceptanceTheorem | mediasoup/ortc.cpp:1837-2478 | through all four stages: with a symmetric, transitive profile relation or a distinct mapping, a consumer is granted exactly to endpoints with valid capabilities that accept some media codec |
| Negotiation.AcceptanceOfParsedProfiles | mediasoup/sdp/h264_profile_level_id.cc:282-291 | with the code's comparison of parsed profiles and no further condition: a consumer is granted exactly to endpoints with valid capabilities that accept some media codec |
| Negotiation.EquivalenceIsAlike | mediasoup/ortc.cpp:57-147 | with a symmetric, transitive profile relation, producer codecs mapped to one router codec are accepted alike |
| Negotiation.AgreementTheorem | mediasoup/ortc.cpp:1837-2478 | through all four stages and for any profile relation: `canConsume` equals the outcome of the negotiation exactly unless the first accepted codec is RTX and the first useful one is media |
| Negotiation.AgreementOfParsedProfiles | mediasoup/ortc.cpp:2326-2478 | with the code's comparison: `canConsume` and the negotiation disagree exactly when the first accepted codec is RTX and some media codec is accepted |
| Negotiation.SingleMediaAgreement | mediasoup/ortc.cpp:1837-2478 | for every producer with exactly one media codec, with any RTX codecs, the two always agree |
| Negotiation.EndToEnd | mediasoup/ortc.cpp:1837-2590 | for producers with distinct payload types: in every granted list each RTX codec names a media codec of the list, the first codec is media, and each encoding has an RTX stream exactly when some RTX codec survived |
| Negotiation.GrantedExactly | mediasoup/ortc.cpp:1837-2577 | through all four stages and for any profile relation: granted are exactly the useful consumable codecs, in order, unchanged but for the feedback, which is as above |
| Negotiation.OwnCodecIsGranted | mediasoup/ortc.cpp:1837-2478 | with a symmetric, transitive profile relation, an endpoint that lists one of the producer's media codecs accepts its consumable counterpart and is granted the consumer |
| Negotiation.StreamsTheorem | mediasoup/ortc.cpp:2579-2668 | a consumer's streams have distinct identifiers; a pipe has one encoding per consumable encoding, any other consumer one |
| NegotiationLimits.TwoCodecStages | mediasoup/ortc.cpp:1837-2273 | the first three stages turn a producer with VP8 and VP9 into VP8 100, RTX 101, VP9 102, RTX 103 |
| NegotiationLimits.PartsBehindRefused | mediasoup/ortc.cpp:2326-2478 | when the endpoint refuses the first of two media codecs and accepts the rest, `canConsume` says no, and the consumer is granted exactly if the first RTX codec does not name the second media codec |
| NegotiationLimits.CanConsumeTooStrict | mediasoup/ortc.cpp:1837-2478 | a run of all four stages on which `canConsume` says no and the negotiation grants the consumer |
| NegotiationLimits.UnlikeCodecsRefused | mediasoup/ortc.cpp:1837-2478 | the condition on the profile relation is needed for an arbitrary one: with a relation that is not transitive, which the code's is not, a run of all four stages accepts a media codec and is refused |
| Decimal.ValueOfDigits | deps/netstring/netstring.c:51-57 | digit accumulation inverts decimal printing |
| Decimal.DigitsOfValue | deps/netstring/netstring.c:44-57 | digit strings without a leading zero are exactly the decimal texts |
| Decimal.DigitCount | deps/netstring/netstring.c:76-79 | a number has at most k digits exactly when it is below 10^k |
| Netstring.NetstringRead | deps/netstring/netstring.c:33-72 | the parser loop computes the result the lemmas below are about, error cases included |
| Netstring.NetstringEncodeNew | deps/netstring/netstring.c:84-103 | the allocated buffer is filled with exactly the netstring of the data, and its size is returned |
| Netstring.LogCountsDigits | deps/netstring/netstring.c:76-79 | the least k with 10^k at least len + 1 is the number of decimal digits of len |
| Netstring.EncodeSize | deps/netstring/netstring.c:76-79 | the computed buffer size is the length of the encoding |
| Netstring.ReadEncoded | deps/netstring/netstring.c:33-103 | reading an encoding followed by anything returns the payload exactly for lengths up to 999999999; longer ones are too long |
| Netstring.ReadIsCanonical | deps/netstring/netstring.c:33-79 | a successful read means the buffer starts with the canonical encoding of what was read, so the consumed length is the buffer size |
| Netstring.ProperPrefixTooShort | deps/netstring/netstring.c:41-62 | every proper prefix of an encoding is reported as too short |
| Netstring.RefusedExactly | deps/netstring/netstring.c:41-69 | the parser refuses exactly the buffers of three characters or more that start with no digit, a leading zero, ten digits, or a whole frame without its colon or comma |
| ChannelReader.Reader.OnRead | mediasoup/ChannelAgent.cpp:192-295 | one read: the start notice once, the overflow reset, and otherwise exactly the messages and the rest of the drained buffer |
| ChannelReader.Reader.ParseMessages | mediasoup/ChannelAgent.cpp:216-294 | the parsing loop ends, because the buffer shrinks, with the drained rest and messages |
| ChannelReader.CutMeaning | mediasoup/ChannelAgent.cpp:266-284 | a message is cut off together with exactly its netstring |
| ChannelReader.DrainArrived | mediasoup/ChannelAgent.cpp:216-294 | draining any prefix of a stream of netstrings hands on the complete payloads in order and keeps a proper prefix of the next netstring |
| ChannelReader.RunArrived | mediasoup/ChannelAgent.cpp:192-295 | the same after any sequence of reads within the limit |
| ChannelReader.RunConserves | mediasoup/ChannelAgent.cpp:209-214 | messages and rest never exceed what was read; after an overflow they are strictly less |
| ChannelReader.ReassemblyTheorem | mediasoup/ChannelAgent.cpp:192-295 | for any payloads and any cutting into reads, exactly those payloads are delivered, once each and in order, if and only if no read overflows the buffer |
| ChannelReader.RecoveryTheorem | mediasoup/ChannelAgent.cpp:216-294 | after a read that ends in a malformed netstring or one that is not JSON, the messages before it are delivered and a later stream is delivered exactly as by a fresh reader |
| RequestCorrelator.Correlator.Send | mediasoup/ChannelAgent.cpp:72-181 | a request takes the next id, wrapping after 4294967295, and installs its promise, timer and pending entry |
| RequestCorrelator.Correlator.ProcessMessage | mediasoup/ChannelAgent.cpp:297-351 | a response settles only through a pending entry with its id, and only when accepted or rejected |
| RequestCorrelator.Correlator.TimerWakes | mediasoup/ChannelAgent.cpp:152-167 | a timer settles only through a pending entry with its id, unless cleared |
| RequestCorrelator.CorrelationTheorem | mediasoup/ChannelAgent.cpp:72-181 | in every run, wrapping or not: at most one request is pending and it is the latest; every request is settled at most once, by a response or timeout with its id |
| RequestCorrelator.StaleEventsIgnored | mediasoup/ChannelAgent.cpp:297-310 | in every run a response or timer with another id than the latest touches nothing |
| RequestCorrelator.OwnResponseSettles | mediasoup/ChannelAgent.cpp:312-341 | a decisive response to the pending request settles exactly that promise, with data if accepted and with the error if rejected |
| RequestCorrelator.OwnTimerSettles | mediasoup/ChannelAgent.cpp:152-167 | while a request is pending its own timer sleeps, and settles it with the timeout error if it wakes first |
| RequestCorrelator.OwnExactly | mediasoup/ChannelAgent.cpp:72-351 | in every run all settlements come from the requests' own responses and timers exactly if no decisive response or timer of another request with the same id meets a pending one |
| RequestCorrelator.GuardTheorem | mediasoup/ChannelAgent.cpp:72-351 | if each request is made only when its id has no sleeping timer and no outstanding response, all settlements are the requests' own, wrapping or not |
| RequestCorrelator.GuardIsExact | mediasoup/ChannelAgent.cpp:76-173 | that guard holds exactly if nothing but its own response or timer can settle the next request |
| RequestCorrelator.BeforeTheWrap | mediasoup/ChannelAgent.cpp:72-181 | until the 32-bit counter wraps all settlements are the requests' own |
| RequestCorrelator.WrapConfusesResponses | mediasoup/ChannelAgent.cpp:72-351 | with every timer awake in time: request 1 times out, the counter wraps, and the late response to request 1 settles the next request with id 1, told apart by its serial number |
| RingList.ToggleConnect | mediasoup/promise/list.hpp:60-67 | the four pointer writes, for all aliasing of the two nodes and their predecessors |
| RingList.ToggleTwice | mediasoup/promise/list.hpp:60-67 | applied twice, every pointer of every node is as before, for equal, adjacent and distant nodes alike |
| RingList.Connect | mediasoup/promise/list.hpp:70-72 | two rings become one: the first from list1 on, then the second from list2 on |
| RingList.Disconnect | mediasoup/promise/list.hpp:75-77 | one ring is split in two before list2, both in order; nothing happens for equal nodes |
| RingList.Attach | mediasoup/promise/list.hpp:80-82 | the ring of the node is appended to the ring of the list |
| RingList.Detach | mediasoup/promise/list.hpp:85-87 | leaves the node alone and the rest of its ring in order |
| RingList.MoveFromOther | mediasoup/promise/list.hpp:93-106 | a node of another ring leaves it in order and becomes the last of this one |
| RingList.MoveWithin | mediasoup/promise/list.hpp:93-106 | a node of the same ring becomes the last, the others keep their order |
| RingList.MoveOntoItself | mediasoup/promise/list.hpp:93-106 | moving a node onto itself is harmless only for a ring of one; otherwise two nodes share a next |
| RingList.IsEmpty | mediasoup/promise/list.hpp:109-111 | true exactly for a ring of one |
| PromiseChain.GetHead | mediasoup/Promise.hpp:889-896 | ends on every chain, at its first promise |
| PromiseChain.GetTail | mediasoup/Promise.hpp:897-904 | ends on every chain, at its last promise |
| PromiseChain.JoinDeferObject | mediasoup/Promise.hpp:907-935 | A·self·B and C become exactly the chain A·self·C·B, with prev the inverse of next, whichever promise of C is given |
| PromiseSettlement.JoinMeans | mediasoup/Promise.hpp:907-935 | the position-wise description of a joined chain is the concatenation A·self + C + B |
| PromiseChain.CallNext | mediasoup/Promise.hpp:649-760 | on the heap, with any number of handlers on the way returning promises: the chain ends up with exactly the promises of `Line` in order and the records of `Travel` |
| PromiseChain.SettlePromise | mediasoup/Promise.hpp:602-641 | `resolve` and `reject` take effect once, then call: the chain on the heap becomes exactly what the event makes of it |
| PromiseChain.AddStep | mediasoup/Promise.hpp:763-774 | `then` puts the new promise right behind its promise and calls that one, with the same exactness |
| PromiseSettlement.LinePlaces | mediasoup/Promise.hpp:649-760 | the position that histories follow is where that very promise is on the heap |
| PromiseSettlement.LineWithOne | mediasoup/Promise.hpp:649-687 | with one returned promise, its whole chain ends up right behind the promise that adopts it |
| PromiseSettlement.PropagateDelivers | mediasoup/Promise.hpp:649-760 | a settled promise in front of pending ones: all but the last are finished, the last has the outcome of all steps in order |
| PromiseSettlement.SettlementTheorem | mediasoup/Promise.hpp:602-774 | steps attached before and after the settlement give the same final outcome, wherever the settlement came in between |
| PromiseSettlement.HistoryTheorem | mediasoup/Promise.hpp:602-774 | in every history of `then`, `resolve` and `reject` at any positions, with handlers that return promises: each promise is settled at most once, keeps its outcome until handed on and keeps or drops its handlers; only the last promise holds an outcome not handed on, if returned promises leave none behind |
| PromiseSettlement.SecondSettlementIgnored | mediasoup/Promise.hpp:602-641 | settling a promise that is not pending changes nothing, unless it still holds an outcome of the same kind to hand on |
| PromiseSettlement.ThenIsHeardAtEndOnly | mediasoup/Promise.hpp:763-774 | on a delivered chain a further `then` is heard by that call if and only if it is on the last promise; otherwise the new promise waits behind a finished one |
| PromiseSettlement.NextExactly | mediasoup/Promise.hpp:602-774 | a pending promise keeps its record through an event if and only if the event neither settles it nor makes a call that hands an outcome on to it |
| PromiseSettlement.PendingExactly | mediasoup/Promise.hpp:602-774 | in every history a pending promise stays pending with its handlers if and only if no event does one of the two |
| PromiseSettlement.ReachesPlain | mediasoup/Promise.hpp:711-760 | without returned promises a call hands on to a later promise exactly if it starts at a promise with an outcome and none between is finished |
| PromiseSettlement.ReachesThrough | mediasoup/Promise.hpp:649-760 | past a handler that returns a promise: exactly if, besides, the returned promise holds an outcome and none behind it in its chain is finished |
| PromiseSettlement.WaitsForGood | mediasoup/Promise.hpp:602-774 | a promise that waits behind a finished one stays pending with its handlers in every history that settles neither it nor one between the two, and in which the finished promise, if its own handler still runs and returns a promise, returns one of a chain that holds no outcome |
| PromiseSettlement.AdoptionStableExactly | mediasoup/Promise.hpp:649-760 | after adopting a returned promise only the last promise holds an outcome not handed on, exactly if the returned one was its chain's last or that chain held none, or nothing follows |
| PromiseSettlement.TravelWithOne | mediasoup/Promise.hpp:649-760 | an event with one returned promise is the adoption: the successor finished, the returned chain joined behind it, the returned promise called next |
| PromiseSettlement.PlainEvents | mediasoup/Promise.hpp:602-774 | the events of a history without returned promises are `resolve`, `reject` and `then` as above |
| PromiseSettlement.AdoptionTheorem | mediasoup/Promise.hpp:649-760 | after a handler returned a promise, the rest of the chain gets that promise's outcome through its steps and then its own, whether it was settled before or is settled later |
| PromiseSettlement.AdopterIsFinished | mediasoup/Promise.hpp:663-687 | the promise whose handler returned another one is finished, without value or callbacks, and settling it later changes nothing |
| PromiseSettlement.ValueMeetsResolved | mediasoup/Promise.hpp:649-667 | a value goes past every step without `onResolved` to the first one with it; from there on all is as if that promise had been settled with what that callback returns |
| PromiseSettlement.ReasonMeetsRejected | mediasoup/Promise.hpp:669-687 | the same for a reason and `onRejected` |
| PromiseSettlement.OutcomePasses | mediasoup/Promise.hpp:649-687 | with no callback of its kind on the way an outcome arrives at the end unchanged |
| PromiseSettlement.ThenRunsCallback | mediasoup/Promise.hpp:763-774 | `then` on a last promise that holds an outcome runs the callback of that kind at once, or hands the outcome on |
| CircularBuffer.PodCircularBuffer.Write | mediasoup/pod_circularbuffer.hpp:68-146 | appends the first min(count, free) items and returns their number, in all branches |
| CircularBuffer.PodCircularBuffer.Read | mediasoup/pod_circularbuffer.hpp:151-217 | removes and returns in order the first min(count, size) items, in all branches |
| CircularBuffer.PodCircularBuffer.Clear | mediasoup/pod_circularbuffer.hpp:32-37 | leaves the empty queue |
| CircularBuffer.PodCircularBuffer.SizeIsLength | mediasoup/pod_circularbuffer.hpp:42-52 | `size()` is the queue length; the flags hold exactly for the empty and the full queue |
| CircularBuffer.AppendRun | mediasoup/pod_circularbuffer.hpp:82-145 | writing into free space up to the end of the memory appends to the queue |
| CircularBuffer.TakeRun | mediasoup/pod_circularbuffer.hpp:165-206 | reading up to the end of the memory takes from the front of the queue |
| CircularBuffer.TakeTwo | mediasoup/pod_circularbuffer.hpp:199-215 | so does reading round the end of the memory |
| CircularBuffer.PodCircularBuffer.Execute | mediasoup/pod_circularbuffer.hpp:68-217 | any sequence of calls on the buffer object has exactly the trace of the queue, and keeps its order |
| CircularBuffer.FifoOrder | mediasoup/pod_circularbuffer.hpp:68-217 | over every sequence of calls: first queue plus accepted items equals returned items plus last queue, and the capacity is never exceeded |
| SctpStreams.ScanComplete | mediasoup/Transport.hpp:1054-1064 | the cyclic scan finds a free id exactly when there is one |
| SctpStreams.Transport.GetNextSctpStreamId | mediasoup/Transport.hpp:1030-1068 | returns the first free id cyclically from the cursor and moves the cursor behind it; 0 when none is free |
| SctpStreams.Transport.ConsumeData | mediasoup/Transport.hpp:941-1007 | marks the id and records the live consumer |
| SctpStreams.Transport.CloseConsumer | mediasoup/DataConsumer.hpp:227-246 | the first close releases the id and forgets the consumer, any later one changes nothing |
| SctpStreams.ConsumeKeepsExact | mediasoup/Transport.hpp:1030-1068 | creating a consumer keeps marks and ids exact if and only if an id is free |
| SctpStreams.StreamIdTheorem | mediasoup/Transport.hpp:941-1007 | in every run that always finds a free id: marked slots are exactly the ids of live consumers, live consumers have distinct ids, no id is released twice by one consumer |
| SctpStreams.CloseOnce | mediasoup/DataConsumer.hpp:369-386 | once closed by any event, later closings change nothing |
| SctpStreams.IdsRotate | mediasoup/Transport.hpp:1054-1064 | an id that is given back at once is not the next one handed out while another is free |
| SctpStreams.TransportCloseTheorem | mediasoup/DataConsumer.hpp:227-270 | when the transport goes away every consumer is closed and forgotten; no id is given back then or by a later close |
| MediaSections.MediaSection.Disable | mediasoup/sdp/MediaSection.cpp:83-94 | sets the section inactive and drops its stream keys, nothing else |
| MediaSections.MediaSection.Close | mediasoup/sdp/MediaSection.cpp:96-109 | also sets port 0 and drops extmapAllowMixed |
| MediaSections.MediaSection.SetIceParameters | mediasoup/sdp/MediaSection.cpp:75-81 | replaces the two ICE credentials |
| MediaSections.MediaSection.SetDtlsRole | mediasoup/sdp/MediaSection.cpp:377-387 | answer sections follow the role, offer sections always stay actpass |
| RemoteSdp.Description.RegenerateBundleMids | mediasoup/sdp/RemoteSdp.cpp:327-345 | the loop over the section objects writes the bundle text of their values |
| RemoteSdp.Description.AddMediaSection | mediasoup/sdp/RemoteSdp.cpp:266-283 | appends section, index entry and mirrored object, with the section objects kept separate |
| RemoteSdp.Description.ReplaceMediaSection | mediasoup/sdp/RemoteSdp.cpp:285-310 | the new section takes the slot, the old mid leaves the index, the mirror follows |
| RemoteSdp.Description.Send | mediasoup/sdp/RemoteSdp.cpp:137-181 | replaces the section of a non-empty reuse mid, otherwise appends |
| RemoteSdp.Description.Receive | mediasoup/sdp/RemoteSdp.cpp:183-221 | appends an offer section, also for the SCTP association |
| RemoteSdp.Description.CloseMediaSection | mediasoup/sdp/RemoteSdp.cpp:233-252 | disables the first section or closes any other, and mirrors it |
| RemoteSdp.Description.UpdateIceParameters | mediasoup/sdp/RemoteSdp.cpp:80-98 | every section and its mirror get the new credentials |
| RemoteSdp.Description.UpdateDtlsRole | mediasoup/sdp/RemoteSdp.cpp:100-118 | every section and its mirror get the new role's setup |
| RemoteSdp.Description.GetNextMediaSectionIdx | mediasoup/sdp/RemoteSdp.cpp:120-135 | the first closed section with its mid, or the next free position |
| RemoteSdp.StepKeeps | mediasoup/sdp/RemoteSdp.cpp:80-310 | every properly called operation keeps mirror, bijective index, open first section and bundle text |
| RemoteSdp.StepCredentialed | mediasoup/sdp/RemoteSdp.cpp:80-118 | after every operation all sections carry the current ICE credentials and DTLS setup |
| RemoteSdp.RunTheorem | mediasoup/sdp/RemoteSdp.cpp:80-345 | in every run of proper operations: the SDP object mirrors every section, the index is a bijection between mids and positions, section 0 is never closed |
| RemoteSdp.RunStable | mediasoup/sdp/RemoteSdp.cpp:266-310 | a mid keeps its index as long as its own slot is not reused, as section 8 of RFC 3264 requires |
| RemoteSdp.MLinesNeverDecrease | mediasoup/sdp/RemoteSdp.cpp:266-310 | the number of m-lines never decreases in any run |
| RemoteSdp.BundleMeaning | mediasoup/sdp/RemoteSdp.cpp:327-345 | the regenerated text is the list of open mids in order, joined by single spaces |
| RemoteSdp.BundleTheorem | mediasoup/sdp/RemoteSdp.cpp:327-345 | in every run the BUNDLE text is that list and starts with the first mid |
| RemoteSdp.NextSlotIsProper | mediasoup/sdp/RemoteSdp.cpp:120-165 | sending with what `GetNextMediaSectionIdx` returned, under a new mid, is a proper operation |
| RemoteSdp.AddNeedsFreshMid | mediasoup/sdp/RemoteSdp.cpp:266-283 | adding keeps the index a bijection if and only if the mid is new |
| RemoteSdp.CloseNeedsKnownMid | mediasoup/sdp/RemoteSdp.cpp:233-252 | closing keeps the index a bijection if and only if the mid is known; otherwise section 0 is closed |
| RemoteSdp.CloseTheorem | mediasoup/sdp/RemoteSdp.cpp:233-252 | closing a known mid: port 0 exactly if it is not the first, inactive and without its stream keys, all else as before; the BUNDLE group loses exactly that mid, and the slot may be reused |
| RemoteSdp.AddTheorem | mediasoup/sdp/RemoteSdp.cpp:266-283 | adding puts an open section with the current credentials and setup at the end of the m-lines and of the BUNDLE group |
| RemoteSdp.ReplaceTheorem | mediasoup/sdp/RemoteSdp.cpp:285-310 | reusing a closed slot puts such a section there under its own mid, forgets the old mid, and leaves every other section and index |
| RemoteSdp.UpdateTheorem | mediasoup/sdp/RemoteSdp.cpp:80-118 | an update changes the credentials, or the setup, of every section and nothing else |
| RoomMesh.Room.Join | demo/rooms/Room.cpp:146-228 | the joining peer gets one consumer for each producer of every other joined peer, if it has codecs and a consuming transport |
| RoomMesh.Room.Produce | demo/rooms/Room.cpp:434-542 | every other joined peer that wants it gets exactly one consumer for the new producer |
| RoomMesh.Room.CreateConsumer | demo/rooms/Room.cpp:1092-1181 | adds one consumer under a fresh id, or nothing without codecs or consuming transport |
| RoomMesh.Room.CloseProducer | demo/rooms/Room.cpp:595-623 | the producer is closed and leaves its peer |
| RoomMesh.Room.OnProducerClose | demo/rooms/Room.cpp:1172-1181 | the consumer leaves its peer |
| RoomMesh.StepTidy | demo/rooms/Room.cpp:146-623 | producers of different peers stay distinct, none in a peer is closed, and peers that have not joined hold nothing |
| RoomMesh.StepMeshed | demo/rooms/Room.cpp:146-623 | every event keeps the mesh of the peers that were ready when they joined, and that of the peers that want consumers now exactly unless it is a late transport while others have live producers |
| RoomMesh.MeshTheorem | demo/rooms/Room.cpp:146-623 | under every interleaving, at every moment, each peer that was ready when it joined, and with no late transport each peer that wants consumers now, holds exactly one consumer for each live producer of every other joined peer and none for its own |
| RoomMesh.JoinKeepsMesh | demo/rooms/Room.cpp:146-228 | any join, first or repeated, keeps the mesh exactly if the peer is not ready then or had no consumer for a live producer |
| RoomMesh.RepeatedJoinExactly | demo/rooms/Room.cpp:146-228 | for a peer that had not joined or was ready when it did: exactly if it is not ready now, had not joined, or no other joined peer has a live producer |
| RoomMesh.SecondJoinDuplicates | demo/rooms/Room.cpp:146-153 | where a second join breaks it, every live producer of the others is consumed twice |
| RoomMesh.LateTransportExactly | demo/rooms/Room.cpp:1124-1139 | a consuming transport added after joining keeps the peers that want consumers meshed exactly if no other joined peer has a live producer |
| RoomMesh.ArrivalTheorem | demo/rooms/Room.cpp:146-228 | a peer that connects, gets a consuming transport and joins holds exactly one consumer for each live producer of the joined peers, and no other |
| RoomMesh.ProduceTheorem | demo/rooms/Room.cpp:434-542 | a new producer goes to its peer, and exactly the other joined peers that want consumers get one for it each |
| RoomMesh.NoticeTheorem | demo/rooms/Room.cpp:1172-1181 | the notice of a closed producer takes away that one consumer and nothing else |
| RoomMesh.GoneTheorem | demo/rooms/Room.cpp:102-623 | under every interleaving: after a producer is closed or its peer has left, no peer holds it and whoever joins never has a consumer for it |
| Base64.Encode | demo/Server.cpp:878-905 | the group loop and the tail compute the padded encoding of section 4 of RFC 4648 |
| Base64.Decode | demo/Server.cpp:906-973 | the decoding loop computes the decoding the lemmas below are about, including the rejection |
| Base64.EncodedLength | demo/Server.cpp:878-905 | n bytes give 4 * ceil(n / 3) characters |
| Base64.RoundTrip | demo/Server.cpp:878-973 | any NUL-free string that equals the encoding of b once the skipped characters are removed decodes to b |
| Base64.PlainRoundTrip | demo/Server.cpp:878-973 | the encoding of b itself decodes to b |
| Base64.RejectedExactly | demo/Server.cpp:934-950 | the decoder rejects exactly the strings in which a lone pad character is the second of its group |
| Base64.AlphabetTheorem | demo/Server.hpp:22-30 | the symbols are the alphabet of table 1 of RFC 4648 in order, and the decode table inverts it |
| Base64.EncodedMeans | demo/Server.cpp:878-905 | each character is the base-64 digit of its three bytes read as one number, or padding where no byte reaches |

## Left out

- RouterCapabilities.PlaceMediaCodec: an empty pool counts as the "cannot allocate more" failure the code names; the code itself dereferences the end of the vector there.
- ProducerMapping.MatchRtxCodecs: reading a missing entry inserts a default entry in the source; for lists made by a router the next check always fails then, so the entry is not modelled.
- ProducerMapping.GetProducerRtpParametersMapping: the unordered map's iteration order is not modelled; the result is a map.
- Consumer.GetConsumerRtpParameters: the consumer's header extensions, scalability mode and maximum bitrate are not modelled; header extensions enter only through the choice of the feedback reduction.
- Consumer.CanConsume: of the validation of the endpoint's header extensions only the empty uri is modelled as thrown, not a wrong kind, id, encryption flag or direction; on extensions that fail only those checks the model gives a verdict where the code throws, also in `Negotiation.AgreementTheorem`.
- Consumer.SanitizeRtx: the source erases by walking an iterator to the index; the model erases at the index.
- Rtp.FindMatch: `matchCodecs` with its modify flag changes only a local JSON copy, so the flag is not modelled; the H264 comparison is the parameter `same`.
- ChannelReader.Reader.OnRead: characters stand for bytes; the branch for a payload as long as the whole buffer can never be taken and is not modelled; exceptions other than a JSON parse error are not.
- RequestCorrelator.Correlator.Send: `get<int>` narrows the id injectively, which is not modelled; steps are atomic, as the mutex and the timer thread make them; there is no clock, so a timer may sleep for any number of steps; serial numbers are ghost and exist only to tell requests with one id apart.
- Netstring.NetstringEncodeNew: `ceil(log10(x))` over doubles is taken as the exact least power of ten.
- CircularBuffer.PodCircularBuffer.Write: `memcpy` is a copying method, and the caller's buffer is not the ring's own memory.
- SctpStreams.Transport.GetNextSctpStreamId: needs a positive number of streams, which the source only logs.
- RemoteSdp.Description.ReplaceMediaSection: the branch for an empty reuse mid is never reached from `Send`.
- RoomMesh.Room.Produce: `transport->consume` is taken to succeed, and a produce or close by a peer that has not joined, which the source only logs, is excluded.
- PromiseChain.CallNext: a handler is a total function to a value or a thrown reason; which handlers return promises, and which, is given with the call, each promise in a chain of its own; callbacks that themselves settle promises of the chain are not modelled, nor reference counts and locks.
- Base64.Decode: needs ASCII input, since the table is indexed with a signed character; the null result is modelled as `Invalid`; bitwise or is addition of values whose bits are shown to be disjoint.
- DisableMediaSection on its own, `GetSdp` and the SDP text, and how offer and answer parameters fill a section's other keys.
- Data producers and consumers in rooms, notifications to clients, broadcasters, bridges, recording, and the payload channel.
- The pipe variant `getPipeConsumerRtpParameters` and the validation of parameters beyond what rejects a codec.
- JSON conversion, sockets, coroutines, threads, logging and configuration.
