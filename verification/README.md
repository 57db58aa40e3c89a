# Verified model of the S3-over-RDMA benchmark tool

A Dafny model of the parts of the tool that decide whether bytes arrived and whether an
experiment may say so: the rig probe's GET callback and its two experiments, the raw HTTP
receipt reader and the completion authority built on it, request signing and token
encoding, the fake-S3 server's data path, slot pool and descriptor cache, and the
integrity manifest with its sampler.

Check it with `dafny verify dfyconfig.toml`.

## How the code is modelled

* **Callback protocol.** `RigCallback` is a state machine in which every event performs at
  most one atomic operation on the shared context, except the entry, whose two increments
  the source makes under one lock; so `Exec` ranges over all interleavings of any number of
  overlapping or re-entered callbacks, with exceptions at every step that can throw,
  handlers included. `RigSerial` and `GuardWitness` add what holds when callbacks do not
  nest, and what the guard's witness means; `RigRecords` says what a kept record proves.
* **Experiments.** `SingleGet`, `ConcurrentRound` and `ConcurrentExperiment` are imperative:
  a `Fixture` object with the source's flags and a log of what was done to it, an arena
  `array` that poison is written into, loops over slots and rounds. Whatever the SDK, the
  peer, the allocator or the clock decides is a parameter (`Env`), including where an
  exception is thrown; memory after a GET is arbitrary. Each method states exactly what it
  appends to the log and exactly when it reads PASS or FAIL, in the terms of
  `ExperimentSpec`; `ExperimentSafety` then proves what that log guarantees for every `Env`.
* **Receipts.** `MessageHead`, `Receipt`, `Segmentation` and `SurplusOctets` model the parser
  and the receive loops over a script of recv results; `Authority` adds the verdict, and
  `FakeServer` the answer it meets.
* **Signing.** `Canonical` and `SigV4` are the signer and the map it signs; `WireVerifier`
  recomputes the canonical request from the bytes of the request alone.
* **Server.** `DataPath` is the sequential transfer as a function over a log of stores;
  `GetHandler` is the ping-pong handler on two staging arrays with a schedule that interleaves
  the overlapped read and the RDMA write byte by byte; `SlotPool` and `FdCache` are state
  machines whose events are lock sections.
* **Manifest.** `Manifest` and `Closure` are loops proved against functions on lines;
  `ManifestText` prints manifests; `Sampler` is arithmetic.

The loops that carry a result of this model are methods proved equal to a function on their
inputs, or against the property they decide; edge trims, lower-casing and tests of single
characters are plain functions. The theorems are about those functions, machines and logs.

Octets are Dafny `char`s below 256 where the code handles text and `bv8` in the rig's arena.
Integers are unbounded except where the width matters: `size_t` arithmetic in the rig's
geometry, the 64-bit decimal parsers, the decoder's 32-bit register, the sampler's 64-bit
mixer and the poison generator's 32-bit state are explicit.

## Findings

* `acquire_slot` promises a waiter a slot once one is released or a builder gives up. If slot
  creation throws, the woken waiter only looks for a free slot and sleeps again, although it
  could now build one: `SlotPool.FailedGrowthStrands` is a run with one slot and two threads.
  A throw strands a waiter exactly when the slot being built was the only one and somebody
  already waits for it (`SlotPool.FailureStrandsIff`).
* The sampler's header says two threads do not sample the same occurrences of a key. That
  holds exactly when there are no more threads than `every` (`Sampler.NeverTogetherIff`).
* With overlapping callbacks `unknown` can end up clear while a submission is unresolved
  (`RigSerial.LatchAloneIsNotEnough`); the counters still hold the landing back, and without
  nesting the latch is exact (`RigSerial.LatchIsExact`).
* The fixture's terminal state is meant to be decided once. The handler of the reference pass
  also catches the report that follows a successful release, and `retain_now` asks only for its
  own flag: the run then ends released and retained, and records as retained what was freed.
  Both flags end set exactly when a reference GET reached the release, the deregistration
  returned 0, the report threw and the handler's message could be built
  (`ConcurrentExperiment.Experiment`, with the run in `ExperimentSafety.ReportThrowsAfterRelease`).
  Only the flags and the record are wrong: what happens to the arena is still decided once
  (`ExperimentSafety.ExperimentIsSafe`, `ExperimentSafety.TwiceIsFreed`). The single GET has no
  such handler, and its flags are exclusive (`SingleGet.Experiment`).
* The concurrent experiment keeps a FAIL whose report throws; the single GET loses it to `main`'s
  handler, which reads ENV_ERROR (`SingleGet.Experiment`).
* The receipt depends on how the peer's bytes were cut exactly when octets follow a declared
  length that fits the cap (`SurplusOctets.SurplusIsExact`).
* A verifier recomputes the signed request exactly when the session token is whitespace-
  canonical: the signer alone leaves it as it is (`WireVerifier.WireVerifies`).
* The server recovers a verbatim descriptor exactly when, NUL-trimmed, it contains `:` or is
  empty (`Base64Codec.ServerRecovers`).
* With direct I/O an unaligned offset leaves room for less than a whole chunk. When the chunk
  size is a multiple of 4096, a healthy GET then fails, before any write, exactly when the
  first padded chunk does not fit (`DataPath.HealthyGetIffFits`, `DataPath.AlignedChunksFit`).
* The server accepts any chunk size in KiB (`server/main.cpp:80-91`). When it is not a multiple
  of 4096 a healthy GET can also fail in the middle, after data has reached the client: with
  5 KiB chunks, 10 KiB from offset 0 do (`DataPath.OddChunkFailsLate`). The exact condition is
  that some later padded chunk does not fit (`DataPath.HealthyGetIffFits`).
* In verbatim mode the fake server's own success never qualifies, because its response has a
  body (`FakeServer.FakeServerQualifies`).

## Model

| member | source | states |
|---|---|---|
| `RigCallback.InvAlways` | probe/rig_probe_main.cpp:395-553 | in every interleaving the counters equal what the callbacks did: `submitted` counts submissions that stand, `completed` those that were counted, and each callback's flags fit its program point |
| `RigCallback.CompletedAtMostOnce` | probe/rig_probe_main.cpp:485-530 | under every interleaving `completed` is 0 or 1 and never exceeds `submitted` |
| `RigCallback.EqualCountersResolve` | probe/rig_probe_main.cpp:415-530 | equal counters mean no socket accepted a byte of any request, or exactly one submission stands and has a qualified receipt |
| `RigCallback.GateIsSafe` | probe/rig_probe_main.cpp:895-902 | once all callbacks returned, both the single-GET gate and the stricter concurrent test let a landing through only when nothing possibly effective is unresolved |
| `RigCallback.GuardEmitsOnce` | probe/rig_probe_main.cpp:413-421 | in guard mode at most one request message is emitted and only the first callback can have written, whatever overlaps |
| `RigSerial.SerialAlways` | probe/rig_probe_main.cpp:395-553 | with non-nested callbacks at most one is inside and its phase determines the latch and the counters |
| `RigSerial.LatchIsExact` | probe/rig_probe_main.cpp:415-530 | with non-nested callbacks, between them `unknown` holds exactly when `submitted != completed`, and `submitted` never exceeds 2 |
| `RigSerial.LatchAloneIsNotEnough` | probe/rig_probe_main.cpp:415-530 | a concrete overlapping run ends with `unknown` clear and an unqualified request on the wire, and the joint gate still holds it |
| `GuardWitness.Evaluate` | common/guard_witness.hpp:49-75 | the checks accept exactly the records of an injected first emission followed by guarded, non-overlapping, same-shape re-entries that start after it ended |
| `GuardWitness.GuardRunIsWitnessed` | probe/rig_probe_main.cpp:400-530 | every non-nested guard run with a strictly advancing clock, equal shapes, a qualified token-bearing first entry and one recorded re-entry is witnessed |
| `Fixture.Fixture.RegisterMemory` | probe/rig_probe_main.cpp:791-795 | the return code is logged and `registered` means exactly that it was 0 |
| `Fixture.Fixture.Release` | probe/rig_probe_main.cpp:799-811 | a decided fixture is left alone; otherwise it deregisters if registered, frees exactly on 0 or when never registered, and retains on any other code |
| `Fixture.Fixture.Retain` | probe/rig_probe_main.cpp:822-827 | sets its flag once and gives up whatever is left; a released fixture has nothing left, so nothing is leaked after a release |
| `Fixture.Fixture.Destroy` | probe/rig_probe_main.cpp:781-783 | retains exactly what was not released; a fixture with both flags set is left as it is |
| `Fixture.NothingOutstanding` | probe/rig_probe_main.cpp:895-920 | in every lawful life, whenever a landing is read or release attempted, each earlier GET is harmless: whatever interleaving of its callbacks led to its context, nothing possibly effective is unresolved |
| `RigRecords.QualifiedRecordIsWhole` | probe/rig_probe_main.cpp:395-553 | for every interleaving: a settled GET with one invocation whose first record qualified had one callback, which wrote its request, got a qualified receipt for it and was counted |
| `Geometry.CheckedAdd` | probe/rig_probe_main.cpp:114-118 | a sum, or nothing exactly when it exceeds `size_t` |
| `Geometry.CheckedMul` | probe/rig_probe_main.cpp:119-123 | a product, or nothing exactly when it exceeds `size_t` |
| `Geometry.Validate` | probe/rig_probe_main.cpp:273-294 | the checked arithmetic accepts exactly the geometries acceptable in unbounded arithmetic, with the exact cell, arena and expected sizes |
| `Geometry.CellsTile` | probe/rig_probe_main.cpp:673-683 | cells lie inside the arena, every offset is in exactly one, payloads lie inside their cells |
| `Geometry.PoisonPattern` | probe/rig_probe_main.cpp:638-646 | the loop yields byte i of the 32-bit generator's sequence at index i |
| `Arena.WriteSpan` | probe/rig_probe_main.cpp:650-652 | the arena is the old one with the bytes spliced in |
| `Arena.PoisonCell` | probe/rig_probe_main.cpp:684-684 | exactly the cell's span becomes its poison |
| `Arena.IntactOutside` | probe/rig_probe_main.cpp:688-696 | true exactly when every byte of the cell outside the landing is still poison |
| `Arena.OtherCellsUnchanged` | probe/rig_probe_main.cpp:676-684 | poisoning one cell leaves every other cell intact |
| `OverlapSweep.Sort` | probe/rig_probe_main.cpp:1096-1096 | a rearrangement in order of time, ends before starts at one instant |
| `OverlapSweep.Sweep` | probe/rig_probe_main.cpp:1097-1098 | the largest prefix sum, at least 0 |
| `OverlapSweep.MaxOverlap` | probe/rig_probe_main.cpp:1088-1098 | sort and sweep give exactly the largest number of half-open intervals covering one instant, ties and empty intervals included |
| `OverlapSweep.Hull` | probe/rig_probe_main.cpp:1091-1092 | earliest entry and latest exit over the attempts of a context |
| `OverlapSweep.RoundMax` | probe/rig_probe_main.cpp:1087-1098 | exactly the largest number of contexts in flight at one instant; at least 2 exactly when two distinct GETs overlapped |
| `ConcurrentRound.SlotOk` | probe/rig_probe_main.cpp:1010-1017 | S from one qualified callback and everything else of the cell still poison; digest of exactly the landing |
| `ConcurrentRound.ReferenceIssue` | probe/rig_probe_main.cpp:1024-1038 | the landing may be read exactly when nothing threw, the GET settled and the probe did not fail; the arena then is what the GET left and the log has this GET; otherwise the exact log, and both flags set exactly when a succeeded release was followed by a report that threw |
| `ConcurrentRound.ReferenceGet` | probe/rig_probe_main.cpp:1024-1051 | continues exactly when the reference is verified, with the digest of its landing; a stop never reads PASS or FAIL; the log grows by exactly the GET, the look and the decision the case calls for; both flags end set exactly when a succeeded release was followed by a report that threw |
| `ConcurrentRound.Caught` | probe/rig_probe_main.cpp:1049-1051 | the handler builds its message and then retains whatever it finds: the flag is set on a released fixture too, and only an undecided one is leaked |
| `ConcurrentRound.PoisonRound` | probe/rig_probe_main.cpp:1064-1073 | continues exactly when every cell could be poisoned and told from its reference, and then the whole arena is poison |
| `ConcurrentRound.JoinWorkers` | probe/rig_probe_main.cpp:1076-1086 | `any_unknown` is clear exactly when every GET of the created workers settled; the log has exactly these GETs, in slot order; the arena is what they left |
| `ConcurrentRound.JudgeUnknown` | probe/rig_probe_main.cpp:1113-1119 | FAIL exactly when a whole-evidence GET returned a wrong count and two GETs overlapped in this round |
| `ConcurrentRound.NativePass` | probe/rig_probe_main.cpp:1131-1143 | marks exactly the slots, not failed by the probe, whose native return, callback count or receipt is wrong |
| `ConcurrentRound.LandingPass` | probe/rig_probe_main.cpp:1144-1167 | up to the first slot whose read or report throws: whether one did, whether a slot reached was failed by the probe, and whether a slot read as wrong had not been marked before; a wrong slot counts although its own report throws; the log has one look for each slot looked at |
| `ConcurrentRound.JudgeLanding` | probe/rig_probe_main.cpp:1127-1167 | counts a failure exactly when a native return is wrong or a slot was read as wrong, whether or not its report throws; reports exactly whether the pass was cut short and whether the probe failed in a slot reached |
| `ConcurrentRound.JudgeSettled` | probe/rig_probe_main.cpp:1124-1173 | a settled round is bad exactly when such a failure exists, clean exactly when there is none, all slots were reached and the probe did not fail; exact log |
| `ConcurrentRound.JudgeRound` | probe/rig_probe_main.cpp:1082-1173 | overlap, bad, clean and the FAIL of a round with an unsettled GET, each as an if-and-only-if; exact log |
| `ConcurrentRound.RunRound` | probe/rig_probe_main.cpp:1061-1173 | clean exactly when nothing disturbed the round and every slot is good; a failure under overlap exactly when the round shows one; exact log on every exit |
| `ConcurrentExperiment.ReferencePass` | probe/rig_probe_main.cpp:1019-1051 | continues exactly when every reference is verified, with the digests of the landings; exact log; both flags end set exactly when the first reference that is not verified was released and its report threw |
| `ConcurrentExperiment.AllDistinct` | probe/rig_probe_main.cpp:1052-1056 | true exactly when no two references are equal |
| `ConcurrentExperiment.RunRounds` | probe/rig_probe_main.cpp:1058-1174 | completes exactly when every round is good; the maximum reaches 2 exactly when some round overlapped; fails exactly when the first round that is not good fails under its own overlap; exact log |
| `ConcurrentExperiment.CapacityPass` | probe/rig_probe_main.cpp:977-985 | goes on exactly when every slot has room for its payload; otherwise releases |
| `ConcurrentExperiment.Conclude` | probe/rig_probe_main.cpp:1175-1204 | PASS exactly when all rounds completed with overlap, release succeeded and the output is whole; FAIL exactly on a failing round under overlap or a failed deregistration |
| `ConcurrentExperiment.Experiment` | probe/rig_probe_main.cpp:956-1205 | PASS if and only if everything it stands for holds; FAIL if and only if, after a good set-up, the first round that is not good shows a backend failure under overlap, or deregistration fails after good rounds; the log is exactly the one the specification gives; the fixture ends released exactly when the log frees it, and both released and retained exactly when the report after a release in the reference pass threw and was caught |
| `ExperimentSafety.ExperimentIsLawful` | probe/rig_probe_main.cpp:776-831 | for every environment the experiment's log is lawful, and the fixture is decided once, at the end |
| `ExperimentSafety.IssuedInOrder` | probe/rig_probe_main.cpp:1019-1174 | the GETs in the log are a prefix, in program order, of the references and rounds; a run whose rounds are all good issues every one of them |
| `ExperimentSafety.ExperimentIsSafe` | probe/rig_probe_main.cpp:956-1205 | for every environment: every landing is read, and release attempted, only when each GET issued before is harmless under every interleaving of its callbacks; the arena is freed only if registration failed or deregistration returned 0 before, and then nothing was leaked; the logged codes are the SDK's |
| `ExperimentSafety.TwiceIsFreed` | probe/rig_probe_main.cpp:1022-1051 | a fixture that ends with both flags set was freed and nothing of it leaked, and the reading is neither PASS nor FAIL |
| `ExperimentSafety.ReportThrowsAfterRelease` | probe/rig_probe_main.cpp:1037-1051 | a run with one slot whose reference GET came back without a callback ends with both flags set; its log is register, GET, look, deregister, free |
| `ExperimentSafety.PassedGetsAreWhole` | probe/rig_probe_main.cpp:1010-1204 | after a PASS all GETs were issued, and each had one callback, which wrote its request, got a qualified receipt and was counted |
| `ExperimentSafety.PassMeans` | probe/rig_probe_main.cpp:1010-1204 | after a PASS, in every round every slot returned S from one qualified callback, its digest is its own reference and neither another's nor the poison's, and every arena byte outside the payloads is still poison |
| `SingleGet.JudgeGuard` | probe/rig_probe_main.cpp:924-946 | PASS exactly when delivered, re-entered, witnessed, at most one message, no successful return, and the landing is not poison; FAIL exactly when the exercised guard broke; else INCONCLUSIVE |
| `SingleGet.JudgePlain` | probe/rig_probe_main.cpp:947-953 | PASS exactly when delivered by one callback that returned the expected length; FAIL exactly when an expected digest was given and it is no PASS; else INCONCLUSIVE |
| `SingleGet.Prepare` | probe/rig_probe_main.cpp:848-888 | reaches the GET exactly when registration, capacity and poison are in order, with the log holding the registration and the GET; otherwise ENV_ERROR or unwinding, with the exact log |
| `SingleGet.ReadLanding` | probe/rig_probe_main.cpp:904-914 | the digest of exactly the expected landing, and whether every other byte of the cell is still poison |
| `SingleGet.Judge` | probe/rig_probe_main.cpp:904-953 | releases before the verdict; PASS and FAIL exactly when they are due and no report after the release throws |
| `SingleGet.Observe` | probe/rig_probe_main.cpp:895-953 | reads only after the gate; PASS and FAIL exactly when the gate passed, the landing could be read, they are due and no later report throws; exact log |
| `SingleGet.Experiment` | probe/rig_probe_main.cpp:834-954 | PASS if and only if, and FAIL if and only if, the run was observable, the mode calls for it and no report after the release throws; the log is exactly the one the specification gives; the flags at the end say what the log says and are never both set |
| `SingleGet.SingleIsSafe` | probe/rig_probe_main.cpp:834-954 | for every environment: decided once; the GET is in the log exactly when it was issued; the landing is read, and release attempted, only when it is harmless; the arena is freed only if registration failed or was undone |
| `SingleGet.GuardFailMeans` | probe/rig_probe_main.cpp:916-941 | for every interleaving of the callbacks, a FAIL of the guard experiment means a failed deregistration, a successful return or damage outside the landing: never a second message |
| `MessageHead.ReadFields` | common/raw_http.hpp:205-222 | the cursor loop equals the recursive field grammar |
| `MessageHead.ReadHead` | common/raw_http.hpp:184-223 | the head parser equals the grammar, error cases included |
| `MessageHead.HeadReprints` | common/raw_http.hpp:184-223 | for a head ending at its first blank line the loop never runs out of lines, and if it is not malformed its status line and stored lines reproduce its bytes |
| `Request.BuildRequest` | common/raw_http.hpp:160-181 | accepts exactly good targets, hosts and headers, writes exactly the request text, and reports whether a token is carried |
| `Request.RequestReadsBack` | common/raw_http.hpp:160-223 | the strict grammar reads every accepted request's fields back as Host, the caller's fields in order and Connection, values up to edge blanks |
| `Decimal.ParseCapped` | common/s3_protocol.hpp:188-201 | digit accumulation under a cap succeeds exactly when the denoted number does not exceed it |
| `Receipt.ClassifyFraming` | common/raw_http.hpp:235-253 | one pass equals the framing defined over all Content-Length and Transfer-Encoding fields |
| `Receipt.ReceiveLoop` | common/raw_http.hpp:348-403 | head loop, caps, framing, body loop and conclusion equal the recursive receipt |
| `Receipt.BodyLoop` | common/raw_http.hpp:377-392 | the body loop equals its recursive definition |
| `Segmentation.CutsDoNotMatter` | common/raw_http.hpp:348-403 | without surplus octets, every way of cutting the stream before an orderly close gives the one-shot receipt in every field |
| `SurplusOctets.SurplusIsExact` | common/raw_http.hpp:377-403 | two cuts of one stream, one completing and one not, exist if and only if octets follow a declared length that fits the cap |
| `Authority.ParseReply` | common/s3_protocol.hpp:171-184 | the digit loop equals the grammar: absent or declined, a code from 100 to 599, malformed |
| `Authority.ParseBytesTransferred` | common/s3_protocol.hpp:188-201 | the capped digit loop yields the mathematical value or -1 |
| `Authority.AcceptanceMeans` | common/completion_authority.hpp:49-82 | an accepted receipt is a whole, untruncated message whose single count field spells the expected length, which fits the callback; the candidate holds and the natural return is that length in both modes |
| `Authority.VerdictIgnoresCuts` | common/completion_authority.hpp:73-82 | the verdict is the same for all cuts of the peer's bytes |
| `FakeServer.FakeServerQualifies` | server/s3_server.cpp:369-379 | however the bytes of the server's success are cut into receives, the receipt read from them qualifies exactly in Base64 mode with the reported, expected and requested lengths equal |
| `Base64Codec.EncodeLoop` | common/base64.hpp:25-41 | the loop equals group-wise encoding |
| `Base64Codec.DecodeLoop` | common/base64.hpp:43-66 | decoding with the wrapping 32-bit accumulator equals decoding with an unbounded one |
| `Base64Codec.RoundTrip` | common/base64.hpp:25-66 | decode undoes encode for every octet string |
| `Base64Codec.EncodingHasNoColon` | server/s3_server.cpp:240-243 | an encoding never contains the separator the server looks for |
| `Base64Codec.EncodeToken` | common/s3_protocol.hpp:130-134 | trailing NULs go in verbatim mode only |
| `Base64Codec.ServerRecovers` | server/s3_server.cpp:240-243 | Base64 mode gives the server every byte; verbatim mode gives it the trimmed descriptor exactly when that contains `:` or is empty |
| `Canonical.CanonicalLoop` | common/sigv4.hpp:98-111 | the pending-space loop yields the words joined by single spaces |
| `Canonical.CanonicalIsStable` | common/sigv4.hpp:98-111 | canonicalising twice changes nothing |
| `Canonical.UriEncodeLoop` | common/sigv4.hpp:114-129 | the loop equals character-wise percent-encoding |
| `Canonical.UriRoundTrip` | common/sigv4.hpp:114-129 | percent-encoding is invertible for every octet string |
| `Canonical.EncodedPathIsGood` | common/raw_http.hpp:160-181 | every path that starts with `/` encodes to a target the request writer accepts |
| `SigV4.BuildCanonicalRequest` | common/sigv4.hpp:162-188 | refuses exactly a caller's managed header, else writes the canonical request of the sorted map |
| `SigV4.SignedNamesSorted` | common/sigv4.hpp:162-184 | signed names are strictly sorted, hence unique |
| `SigV4.SignerMeetsWire` | common/s3_protocol.hpp:138-155 | for every signed name, what arrives under it is what was signed, the session token up to blanks |
| `SigV4.VerifierAgrees` | common/sigv4.hpp:156-188 | recomputing from received fields gives the signed canonical request if and only if the session token is whitespace-canonical |
| `WireVerifier.WireVerifies` | common/s3_protocol.hpp:122-155 | a verifier that reads verb, path, query, signed names, values and payload hash from the request's bytes recomputes the signed canonical request if and only if the session token is whitespace-canonical |
| `DataPath.PlanChunk` | server/s3_server.cpp:67-81 | a plan never exceeds the buffer, starts at the offset, aligns its read, and covers its piece exactly when padding and piece fit the chunk |
| `DataPath.ReadFull` | server/s3_server.cpp:44-57 | -1, or everything up to count or the end of file, whatever short reads and interrupts occur |
| `DataPath.GetDelivers` | server/s3_server.cpp:258-332 | success never reports more than the request; reporting all of it means the client's memory holds exactly the file slice and nothing else changed |
| `DataPath.TransferReportsAll` | server/s3_server.cpp:274-332 | a successful transfer reports every byte if and only if every write landed its whole piece, the short last one included |
| `DataPath.SuccessServes` | server/s3_server.cpp:258-332 | a successful GET reports at most what was asked, all of it exactly when every write landed whole, and then the client holds exactly the slice and nothing else changed |
| `DataPath.HealthyGetIffFits` | server/s3_server.cpp:258-332 | with a healthy disk and NIC a non-empty GET succeeds if and only if every padded chunk fits, and fails before any write if and only if the first does not |
| `DataPath.AlignedChunksFit` | server/s3_server.cpp:67-81 | for a chunk size that is a multiple of the alignment the first chunk decides |
| `DataPath.OddChunkFailsLate` | server/s3_server.cpp:258-332 | with 5 KiB chunks and direct I/O, a healthy 10 KiB GET at offset 0 fails after its first write |
| `GetHandler.PreadFull` | server/s3_server.cpp:44-57 | the loop's result and the buffer's contents, and nothing written past the count |
| `GetHandler.RdmaWrite` | server/s3_server.cpp:301-304 | exactly the delivered prefix of the staged piece reaches the client's memory |
| `GetHandler.Overlapped` | server/s3_server.cpp:285-298 | for every schedule of the reading and the writing thread the result is that of running them in sequence |
| `GetHandler.PingPong` | server/s3_server.cpp:258-332 | the two-buffer loop refines the sequential transfer and releases the slot once |
| `GetHandler.HandleGet` | server/s3_server.cpp:214-332 | for every disk, NIC and schedule: status, bytes, client memory and the number of RDMA writes are those of the sequential GET; 200 or 206 means the request was served: exact count exactly when every write landed whole, and then exact slice and nothing else written; with a healthy disk and NIC a request is answered exactly when every padded chunk fits, and gets 500 before any write exactly when the first does not; refusals write nothing and take no slot; otherwise one slot is taken and released once |
| `SlotPool.PoolIsSafe` | server/s3_server.cpp:137-175 | in every run, throwing growth included: free, held and half-built slots add up to the total, which is bounded; no slot has two holders; no wake-up is lost |
| `SlotPool.NobodyIsStranded` | server/s3_server.cpp:137-175 | while growth does not throw, no thread sleeps with neither a holder, a builder nor a wake-up on its way |
| `SlotPool.FailureStrandsIff` | server/s3_server.cpp:146-166 | in any run, a throwing growth leads, through the wake-ups already under way, to a stranded waiter if and only if the slot being built is the only one and some thread sleeps or was woken |
| `SlotPool.FailedGrowthStrands` | server/s3_server.cpp:149-164 | a run with one slot and two threads strands a waiter after a throwing growth |
| `FdCache.CacheIsConsistent` | server/s3_server.cpp:181-208 | under any interleaving each path is opened and kept once, all successful lookups of a path agree, and every open descriptor is cached under exactly one path |
| `Manifest.ParseU64` | common/verify/manifest.cpp:36-47 | the checked loop accepts exactly non-empty digit strings below 2^64, with their value |
| `Separated.SplitLoop` | common/verify/manifest.cpp:49-61 | the pieces between separators, empty ones included |
| `Manifest.ReadRecord` | common/verify/manifest.cpp:83-148 | field checks and the prefix loop equal the record grammar, with the reason of the first violation |
| `Manifest.RecordIsGood` | common/verify/manifest.cpp:83-148 | a record has a key, a positive 64-bit size, well-formed digests and prefix lengths within its size |
| `Manifest.ParseManifest` | common/verify/manifest.cpp:65-165 | the line loop equals the fold over the lines the stream gives, duplicate keys and stream errors included; before a stream error an unterminated last line is neither read nor counted |
| `Manifest.FirstBadLine` | common/verify/manifest.cpp:65-165 | without an I/O error: success exactly when all lines are acceptable, holding exactly their well-formed records; failure reports the first physical line whose prefix is not acceptable |
| `ManifestText.ManifestReadsBack` | common/verify/manifest.cpp:49-165 | any list of rows with distinct keys the format can carry, printed in any order, parses to exactly its entries |
| `ManifestText.RowReadsBackIff` | common/verify/manifest.cpp:65-165 | a printed row parses to its entry if and only if its key is non-empty, without tab or newline, and its first non-space character, if any, is not `#` |
| `ManifestText.ParsedKeysAreGood` | common/verify/manifest.cpp:65-165 | every key of an accepted manifest is such a key |
| `Closure.ValidateClosure` | common/verify/manifest.cpp:167-228 | for any manifest: accepted exactly when there is a span and every span resolves to a well-formed digest at its confirmed size |
| `Closure.ParsedReferencesAreDigests` | common/verify/manifest.cpp:206-223 | on a parsed manifest the digest-format checks never reject |
| `Closure.Preflight` | common/verify/manifest.cpp:65-228 | parse and closure together pass exactly when the stream is whole, all lines are acceptable, there is a span and every span resolves |
| `Sampler.ExactlyOnePerWindow` | common/verify/sampler.cpp:37-55 | never at rate 0, always at 1, and any `every` consecutive occurrences hold exactly one sample |
| `Sampler.PhasesSpread` | common/verify/sampler.cpp:45-54 | with no more threads than `every`, two threads' phases are at least the stride apart in both directions around the circle |
| `Sampler.NeverTogetherIff` | common/verify/sampler.hpp:35-41 | no two threads ever sample the same occurrence exactly when there are no more threads than `every` |
| `Sampler.LoadsAreBalanced` | common/verify/sampler.cpp:45-54 | for any number of threads no residue carries two threads more than another |
| `Sampler.RoundRobinStarvesNone` | common/verify/sampler.hpp:17-22 | under round robin over any number of objects every window of every * objects GETs verifies each object exactly once |

## Left out

- Sockets, name resolution, deadlines and the send loop of the raw HTTP client: an exchange is one event whose outcome the environment chooses.
- cuObject, CUDA, cuFile and RDMA calls: nondeterministic steps with stated return contracts.
- SHA-256, HMAC and the derivation of the signature from the canonical request: the digest is a function parameter, the Authorization value an arbitrary string.
- Diagnostics, JSON records, exit codes and the counters that only feed them (`responses`, `partial_messages`, `tokenless_messages`).
- The text syntax of the Range header: an absent, invalid or valid range is an input of the GET.
- `exp_exit`, `exp_attr`, `exp_reg`, the loader harness, the scope probe and the Python tools: process plumbing, or easier claims of the same kind.
- Command-line parsing, benchmark timing, client wrappers and server start-up.
- Exceptions that escape `handle_get`, such as a failing thread creation.
- Wrap-around of 64-bit offsets and lengths on the server's data path: offsets are unbounded.
- Memory changing between two reads of one settled round: the arena is one image per round, which is what the gate is for.
- Exceptions that only turn one reading that is neither PASS nor FAIL into another: a report that throws after the fixture was decided, where the model may keep INCONCLUSIVE and `main` reads ENV_ERROR. Where such a report costs a PASS or a FAIL, or touches the fixture's flags, it is a point of `Env`.
- Exceptions before registration, in the options, the visibility report or the construction of the fixture.
- WireVerifier.WireVerifies: is about a GET with an empty query, as the tool signs it, and takes the credential scope and the signature to be without blanks and commas, since the verifier splits the Authorization value at commas.
- The fields the HTTP library adds to the server's answer: any good fields in any order, as long as they declare the body's three octets and no transfer coding.
- Base64Codec.DecodeLoop: takes the accumulator as a two's-complement 32-bit register; C++17 leaves the overflowing shift of a signed value undefined.
- How well the sampler's mixer spreads keys: the theorems hold for any hash.
