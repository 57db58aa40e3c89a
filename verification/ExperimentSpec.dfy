/** What the concurrent experiment over W slots should do: its environment, when a slot,
    a reference or a round is good, what the fixture's log must be, and which verdict
    is due (probe/rig_probe_main.cpp). */
module ExperimentSpec {
  import opened Geometry
  import opened Arena
  import opened Fixture
  import OverlapSweep
  import RigCallback

  datatype Plan = Plan(slots: nat, payload: nat, guard: nat)

  function Size(p: Plan): nat { p.slots * (p.payload + 2 * p.guard) }

  /** Where an exception may be thrown. */
  datatype Point =
    | Registering | AfterRegister | Capacity(k: nat)
    | Reference(k: nat) | ReferenceReport(k: nat) | ReferenceLook(k: nat)
    | ReferenceFinish(k: nat)  // the report of an exit that has already released or retained
    | HandlerMessage           // the message of the reference pass's own handler
    | Comparing
    | RoundPoison(it: nat, k: nat) | Spawn(it: nat) | RoundReport(it: nat)
    | SlotRead(it: nat, k: nat) | SlotReport(it: nat, k: nat) | ProbeReport(it: nat) | Finishing

  /** The environment's answers: return codes, what each GET yields, the arena as it
      stands once the GETs of a step have returned, and how many workers were created
      before a failing creation. */
  datatype Env = Env(
    registerRc: int, deregisterRc: int, capacity: nat -> int,
    reference: nat -> Result, referenceMemory: (nat, nat) -> Byte,
    result: (nat, nat) -> Result, memory: (nat, nat) -> Byte, spawned: nat -> nat,
    digest: seq<Byte> -> string, throws: Point -> bool, outputFailed: bool)

  /** The arena once the GET of reference `k`, or the GETs of round `it`, have returned. */
  function ReferenceImage(p: Plan, env: Env, k: nat): (mem: seq<Byte>)
    ensures |mem| == Size(p)
  {
    seq(Size(p), i requires 0 <= i < Size(p) => env.referenceMemory(k, i))
  }

  function RoundImage(p: Plan, env: Env, it: nat): (mem: seq<Byte>)
    ensures |mem| == Size(p)
  {
    seq(Size(p), i requires 0 <= i < Size(p) => env.memory(it, i))
  }

  // --- one slot -------------------------------------------------------------------------------

  predicate Settled(r: Result) { !RigCallback.Unsettled(r.ctx, r.sdk.present) }

  /** The SDK returned S from exactly one callback, whose receipt qualified. */
  predicate NativeOk(p: Plan, r: Result) {
    && r.sdk.present && r.sdk.value == p.payload && r.ctx.invocations == 1
    && r.ctx.attempts != [] && r.ctx.attempts[0].qualified
  }

  function Landing(p: Plan, mem: seq<Byte>, k: nat): seq<Byte>
    requires |mem| == Size(p) && k < p.slots
  {
    CellFits(k, p.slots, p.guard, p.payload);
    var c := MakeCell(k, p.guard, p.payload);
    mem[c.payload..c.payload + p.payload]
  }

  predicate SlotIntact(p: Plan, mem: seq<Byte>, k: nat, landed: nat, nonce: bv32)
    requires |mem| == Size(p) && k < p.slots
  {
    CellFits(k, p.slots, p.guard, p.payload);
    Intact(mem, MakeCell(k, p.guard, p.payload), landed, nonce)
  }

  /** The poison of a payload, as digested. */
  function PoisonDigest(p: Plan, env: Env, nonce: bv32): string {
    env.digest(Poison(p.payload + 2 * p.guard, nonce)[p.guard..p.guard + p.payload])
  }

  /** The 32-bit nonce of a round. */
  function Nonce(it: nat): bv32 { ((2 + it) % 0x1_0000_0000) as bv32 }

  /** The time stamps of a context's attempts. */
  function Stamps(attempts: seq<RigCallback.Attempt>): seq<OverlapSweep.Interval> {
    seq(|attempts|, i requires 0 <= i < |attempts| => OverlapSweep.Interval(attempts[i].tBegin, attempts[i].tEnd))
  }

  function Contexts(p: Plan, env: Env, it: nat): seq<seq<OverlapSweep.Interval>> {
    seq(p.slots, k requires 0 <= k < p.slots => Stamps(env.result(it, k).ctx.attempts))
  }

  /** The clock does not run backwards within a callback. */
  ghost predicate Forward(p: Plan, env: Env, it: nat) {
    forall k :: 0 <= k < p.slots ==> OverlapSweep.AllForward(Stamps(env.result(it, k).ctx.attempts))
  }

  ghost predicate Steady(p: Plan, env: Env) { forall it :: Forward(p, env, it) }

  /** Two GETs of the round were in flight at one instant. */
  ghost predicate RoundOverlapped(p: Plan, env: Env, it: nat) { OverlapSweep.Overlapped(Contexts(p, env, it)) }

  // --- references -------------------------------------------------------------------------------

  /** The reference of slot `k` is verified: its payload arrived, alone, and is not its poison. */
  predicate ReferenceGood(p: Plan, env: Env, k: nat)
    requires k < p.slots
  {
    var r, mem := env.reference(k), ReferenceImage(p, env, k);
    && !env.throws(Reference(k)) && !env.throws(ReferenceReport(k)) && !env.throws(ReferenceLook(k))
    && Settled(r) && !r.ctx.localFailure
    && NativeOk(p, r) && SlotIntact(p, mem, k, p.payload, 1)
    && env.digest(Landing(p, mem, k)) != PoisonDigest(p, env, 1)
  }

  function Refs(p: Plan, env: Env): seq<string> {
    seq(p.slots, k requires 0 <= k < p.slots => env.digest(Landing(p, ReferenceImage(p, env, k), k)))
  }

  ghost predicate ReferencesGood(p: Plan, env: Env)
  {
    ReferencesGoodUpTo(p, env, p.slots)
  }

  ghost predicate ReferencesGoodUpTo(p: Plan, env: Env, n: nat)
    requires n <= p.slots
  {
    forall k :: 0 <= k < n ==> ReferenceGood(p, env, k)
  }

  /** The GET of reference `k` ends the run through a release. */
  predicate ReferenceReleases(p: Plan, env: Env, k: nat)
    requires k < p.slots
  {
    var r := env.reference(k);
    && !env.throws(Reference(k)) && !env.throws(ReferenceReport(k)) && Settled(r)
    && (r.ctx.localFailure || (!env.throws(ReferenceLook(k)) && !ReferenceGood(p, env, k)))
  }

  /** The release succeeded, its report threw, and the handler retained what was gone. */
  predicate ReleasedThenRetained(p: Plan, env: Env, k: nat)
    requires k < p.slots
  {
    && ReferenceReleases(p, env, k) && env.deregisterRc == 0
    && env.throws(ReferenceFinish(k)) && !env.throws(HandlerMessage)
  }

  ghost predicate SomeReleasedThenRetained(p: Plan, env: Env) {
    exists k :: 0 <= k < p.slots && ReferencesGoodUpTo(p, env, k) && ReleasedThenRetained(p, env, k)
  }

  predicate Distinct(refs: seq<string>) { forall a, b :: 0 <= a < b < |refs| ==> refs[a] != refs[b] }

  // --- rounds -----------------------------------------------------------------------------------

  /** The slot returned S from one qualified callback, its payload is its own
      reference, and nothing else of its cell changed. */
  predicate SlotGood(p: Plan, env: Env, it: nat, k: nat, reference: string)
    requires k < p.slots
  {
    && NativeOk(p, env.result(it, k)) && SlotIntact(p, RoundImage(p, env, it), k, p.payload, Nonce(it))
    && env.digest(Landing(p, RoundImage(p, env, it), k)) == reference
  }

  /** Nothing interfered with slot `k` of the round: its poison could be told from its
      reference, its GET settled, and the probe itself did not fail. */
  predicate Undisturbed(p: Plan, env: Env, it: nat, k: nat, reference: string) {
    && !env.throws(RoundPoison(it, k)) && !env.throws(SlotRead(it, k)) && !env.throws(SlotReport(it, k))
    && PoisonDigest(p, env, Nonce(it)) != reference
    && Settled(env.result(it, k)) && !env.result(it, k).ctx.localFailure
  }

  predicate RoundGood(p: Plan, env: Env, it: nat, refs: seq<string>)
    requires |refs| == p.slots
  {
    && !env.throws(Spawn(it)) && !env.throws(RoundReport(it))
    && forall k :: 0 <= k < p.slots ==> Undisturbed(p, env, it, k, refs[k]) && SlotGood(p, env, it, k, refs[k])
  }

  /** Every cell could be poisoned, and told from its reference. */
  predicate Poisonable(p: Plan, env: Env, it: nat, refs: seq<string>)
    requires |refs| == p.slots
  {
    forall k :: 0 <= k < p.slots ==> !env.throws(RoundPoison(it, k)) && PoisonDigest(p, env, Nonce(it)) != refs[k]
  }

  predicate AllSettled(p: Plan, env: Env, it: nat) { forall k :: 0 <= k < p.slots ==> Settled(env.result(it, k)) }

  /** The GET itself reported a short or negative count, and its evidence is whole. */
  predicate ShortReturn(p: Plan, r: Result) {
    !r.ctx.evidenceLost && !r.ctx.localFailure && r.sdk.present && r.sdk.value != p.payload
  }

  ghost predicate SomeShort(p: Plan, env: Env, it: nat) {
    exists k :: 0 <= k < p.slots && ShortReturn(p, env.result(it, k))
  }

  predicate Local(env: Env, it: nat, k: nat) { env.result(it, k).ctx.localFailure }

  /** Pass 2 ends in slot `k`: its read throws, or its report does, after the slot was judged. */
  predicate Thrown(env: Env, it: nat, k: nat) {
    env.throws(SlotReport(it, k)) || (!Local(env, it, k) && env.throws(SlotRead(it, k)))
  }

  /** Pass 2 comes as far as slot `k`. */
  predicate Reached(env: Env, it: nat, k: nat) { forall j :: 0 <= j < k ==> !Thrown(env, it, j) }

  /** The native return, the callback count or the receipt of a slot is wrong. */
  predicate NativeBad(p: Plan, env: Env, it: nat, k: nat) { !Local(env, it, k) && !NativeOk(p, env.result(it, k)) }

  /** The slot was looked at, and its payload or its guards are wrong too. */
  predicate SeenBad(p: Plan, env: Env, it: nat, k: nat, reference: string)
    requires k < p.slots
  {
    !Local(env, it, k) && Reached(env, it, k) && !env.throws(SlotRead(it, k)) && !SlotGood(p, env, it, k, reference)
  }

  /** A failure the probe saw that is not its own. */
  ghost predicate SomeBad(p: Plan, env: Env, it: nat, refs: seq<string>)
    requires |refs| == p.slots
  {
    exists k :: 0 <= k < p.slots && (NativeBad(p, env, it, k) || SeenBad(p, env, it, k, refs[k]))
  }

  ghost predicate LocalSeen(p: Plan, env: Env, it: nat) {
    exists k :: 0 <= k < p.slots && Reached(env, it, k) && Local(env, it, k)
  }

  /** The round came to its judgement. */
  predicate Judged(p: Plan, env: Env, it: nat, refs: seq<string>)
    requires |refs| == p.slots
  {
    Poisonable(p, env, it, refs) && !env.throws(Spawn(it)) && !env.throws(RoundReport(it))
  }

  /** A backend failure while two GETs of the round were in flight together: a wrong slot,
      or in a round with an unsettled GET, an observed short return. */
  ghost predicate RoundFails(p: Plan, env: Env, it: nat, refs: seq<string>)
    requires |refs| == p.slots
  {
    && Judged(p, env, it, refs) && RoundOverlapped(p, env, it)
    && if AllSettled(p, env, it) then SomeBad(p, env, it, refs) else SomeShort(p, env, it)
  }

  lemma GoodRoundParts(p: Plan, env: Env, it: nat, refs: seq<string>)
    requires |refs| == p.slots
    ensures RoundGood(p, env, it, refs) <==>
            && Judged(p, env, it, refs) && AllSettled(p, env, it) && Reached(env, it, p.slots)
            && !SomeBad(p, env, it, refs) && !LocalSeen(p, env, it)
  {
    if RoundGood(p, env, it, refs) {
      forall k | 0 <= k < p.slots
        ensures !NativeBad(p, env, it, k) && !SeenBad(p, env, it, k, refs[k]) && !Local(env, it, k)
        ensures !env.throws(RoundPoison(it, k)) && !Thrown(env, it, k) && Settled(env.result(it, k))
      {
        assert Undisturbed(p, env, it, k, refs[k]) && SlotGood(p, env, it, k, refs[k]);
      }
    } else if Judged(p, env, it, refs) && AllSettled(p, env, it) && Reached(env, it, p.slots) {
      var k :| 0 <= k < p.slots && !(Undisturbed(p, env, it, k, refs[k]) && SlotGood(p, env, it, k, refs[k]));
      assert Reached(env, it, k) && !Thrown(env, it, k);
    }
  }

  ghost predicate RoundsGood(p: Plan, env: Env, refs: seq<string>, n: int)
    requires |refs| == p.slots
  {
    forall it :: 0 <= it < n ==> RoundGood(p, env, it, refs)
  }

  ghost predicate SomeOverlap(p: Plan, env: Env, n: int) {
    exists it :: 0 <= it < n && RoundOverlapped(p, env, it)
  }

  lemma GoodRoundsNext(p: Plan, env: Env, refs: seq<string>, it: nat)
    requires |refs| == p.slots
    ensures RoundsGood(p, env, refs, it + 1) <==> RoundsGood(p, env, refs, it) && RoundGood(p, env, it, refs)
  {}

  lemma OverlapNext(p: Plan, env: Env, it: nat)
    ensures SomeOverlap(p, env, it + 1) <==> SomeOverlap(p, env, it) || RoundOverlapped(p, env, it)
  {}

  // --- verdicts -----------------------------------------------------------------------------------

  /** Registered, with room for every payload. */
  predicate Installed(p: Plan, env: Env) {
    env.registerRc == 0 && !env.throws(Registering) && !env.throws(AfterRegister) && CapacityOk(p, env)
  }

  /** Everything before the first round went well. */
  ghost predicate SetUp(p: Plan, env: Env)
  {
    Installed(p, env) && ReferencesGood(p, env) && Distinct(Refs(p, env))
  }

  /** The fixture ends both released and retained. */
  ghost predicate DecidedTwice(p: Plan, env: Env) { Installed(p, env) && SomeReleasedThenRetained(p, env) }

  predicate CapacityOk(p: Plan, env: Env) {
    forall k :: 0 <= k < p.slots ==> !env.throws(Capacity(k)) && env.capacity(k) >= p.payload
  }

  /** Everything a PASS stands for. */
  ghost predicate Passes(p: Plan, env: Env, iterations: int)
  {
    && SetUp(p, env) && RoundsGood(p, env, Refs(p, env), iterations) && SomeOverlap(p, env, iterations)
    && env.deregisterRc == 0 && !env.outputFailed && !env.throws(Finishing)
  }

  /** The first round that is not good shows a backend failure under overlap. */
  ghost predicate FailsTogether(p: Plan, env: Env, refs: seq<string>, n: int)
    requires |refs| == p.slots
  {
    exists it :: 0 <= it < n && RoundsGood(p, env, refs, it) && RoundFails(p, env, it, refs)
  }

  /** Everything a FAIL stands for: a backend failure under overlap, or a deregistration
      that failed after good rounds. */
  ghost predicate Fails(p: Plan, env: Env, iterations: int)
  {
    && SetUp(p, env)
    && (FailsTogether(p, env, Refs(p, env), iterations) ||
        (RoundsGood(p, env, Refs(p, env), iterations) && env.deregisterRc != 0))
  }

  // --- the fixture's log --------------------------------------------------------------------------

  function GetOp(r: Result): Op { Get(r.ctx, r.sdk.present) }

  /** A release of the registered fixture. */
  function ReleaseLog(env: Env): seq<Op> { Released(env.deregisterRc) }

  /** The handler of the reference pass gives an undecided fixture up, unless its own
      message cannot be built. */
  function CaughtLog(env: Env): seq<Op> { if env.throws(HandlerMessage) then [] else [Leak] }

  ghost function ReferenceLog(p: Plan, env: Env, k: nat): seq<Op>
    requires k < p.slots
  {
    var r := env.reference(k);
    if env.throws(Reference(k)) then CaughtLog(env)
    else if env.throws(ReferenceReport(k)) then [GetOp(r)] + CaughtLog(env)
    else if !Settled(r) then [GetOp(r), Leak]
    else if r.ctx.localFailure then [GetOp(r)] + ReleaseLog(env)
    else if env.throws(ReferenceLook(k)) then [GetOp(r), Look] + CaughtLog(env)
    else if ReferenceGood(p, env, k) then [GetOp(r), Look]
    else [GetOp(r), Look] + ReleaseLog(env)
  }

  /** The reference pass from slot `k` on. */
  ghost function ReferencesLog(p: Plan, env: Env, k: nat): seq<Op>
    requires k <= p.slots
    decreases p.slots - k
  {
    if k == p.slots then []
    else ReferenceLog(p, env, k) + if ReferenceGood(p, env, k) then ReferencesLog(p, env, k + 1) else []
  }

  /** The first `n` GETs of a round. */
  function RoundGets(env: Env, it: nat, n: nat): seq<Op> {
    if n == 0 then [] else RoundGets(env, it, n - 1) + [GetOp(env.result(it, n - 1))]
  }

  /** The looks of pass 2 from slot `k` on. */
  function LooksLog(p: Plan, env: Env, it: nat, k: nat): seq<Op>
    requires k <= p.slots
    decreases p.slots - k
  {
    if k == p.slots then []
    else (if Local(env, it, k) then [] else [Look]) +
         if Thrown(env, it, k) then [] else LooksLog(p, env, it, k + 1)
  }

  /** What follows the passes: a wrong or a good round leaves the fixture undecided. */
  ghost function VerdictLog(p: Plan, env: Env, it: nat, refs: seq<string>): seq<Op>
    requires |refs| == p.slots
  {
    if SomeBad(p, env, it, refs) then []
    else if !Reached(env, it, p.slots) then [Leak]
    else if LocalSeen(p, env, it) && !env.throws(ProbeReport(it)) then ReleaseLog(env)
    else []
  }

  function Created(p: Plan, env: Env, it: nat): nat { if env.spawned(it) < p.slots then env.spawned(it) else p.slots }

  ghost function RoundLog(p: Plan, env: Env, it: nat, refs: seq<string>): seq<Op>
    requires |refs| == p.slots
  {
    if !Poisonable(p, env, it, refs) then [Leak]
    else if env.throws(Spawn(it)) then RoundGets(env, it, Created(p, env, it)) + [Leak]
    else RoundGets(env, it, p.slots) + JudgementLog(p, env, it, refs)
  }

  ghost function JudgementLog(p: Plan, env: Env, it: nat, refs: seq<string>): seq<Op>
    requires |refs| == p.slots
  {
    if env.throws(RoundReport(it)) then []
    else if !AllSettled(p, env, it) then [Leak]
    else LooksLog(p, env, it, 0) + VerdictLog(p, env, it, refs)
  }

  /** The rounds from `it` on, as long as they are good. */
  ghost function RoundsLog(p: Plan, env: Env, refs: seq<string>, it: nat, iterations: int): seq<Op>
    requires |refs| == p.slots
    decreases iterations - it
  {
    if it >= iterations then []
    else RoundLog(p, env, it, refs) + if RoundGood(p, env, it, refs) then RoundsLog(p, env, refs, it + 1, iterations) else []
  }

  /** The capacity pass from slot `k` on leaves a trace only when it ends the run with a release. */
  function CapacityLog(p: Plan, env: Env, k: nat): seq<Op>
    requires k <= p.slots
    decreases p.slots - k
  {
    if k == p.slots || env.throws(Capacity(k)) then []
    else if env.capacity(k) < p.payload then ReleaseLog(env)
    else CapacityLog(p, env, k + 1)
  }

  ghost function AfterSetUpLog(p: Plan, env: Env, iterations: int): seq<Op>
  {
    var refs := Refs(p, env);
    if !Distinct(refs) then (if env.throws(Comparing) then [] else ReleaseLog(env))
    else RoundsLog(p, env, refs, 0, iterations) + if RoundsGood(p, env, refs, iterations) then ReleaseLog(env) else []
  }

  ghost function RegisteredLog(p: Plan, env: Env, iterations: int): seq<Op>
  {
    if env.throws(AfterRegister) then []
    else if env.registerRc != 0 then [Free]
    else if !CapacityOk(p, env) then CapacityLog(p, env, 0)
    else ReferencesLog(p, env, 0) + if ReferencesGood(p, env) then AfterSetUpLog(p, env, iterations) else []
  }

  /** The whole life of the fixture. */
  ghost function ExperimentLog(p: Plan, env: Env, iterations: int): seq<Op>
  {
    Closed(if env.throws(Registering) then [] else [Register(env.registerRc)] + RegisteredLog(p, env, iterations))
  }
}
