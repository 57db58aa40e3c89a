/** One reference GET and one concurrent round of the experiment, as they run
    (probe/rig_probe_main.cpp). */
module ConcurrentRound {
  import opened Geometry
  import opened Arena
  import opened Fixture
  import opened ExperimentSpec
  import opened Sequences
  import OverlapSweep
  import RigCallback

  method SlotOk(p: Plan, env: Env, a: array<Byte>, k: nat, r: Result, nonce: bv32) returns (ok: bool, d: string)
    requires a.Length == Size(p) && k < p.slots
    ensures ok <==> NativeOk(p, r) && SlotIntact(p, a[..], k, p.payload, nonce)
    ensures d == env.digest(Landing(p, a[..], k))
  {
    CellFits(k, p.slots, p.guard, p.payload);
    var c := MakeCell(k, p.guard, p.payload);
    d := env.digest(a[c.payload..c.payload + p.payload]);
    assert a[c.payload..c.payload + p.payload] == Landing(p, a[..], k);
    var outside := IntactOutside(a, c, p.payload, nonce);
    ok := r.sdk.present && r.sdk.value == p.payload && r.ctx.invocations == 1 &&
      r.ctx.attempts != [] && r.ctx.attempts[0].qualified && outside;
  }

  // --- the fixture between steps -------------------------------------------------------------------

  /** Registered and undecided. */
  ghost predicate Ready(p: Plan, fx: Fixture)
    reads fx
  {
    fx.Open() && fx.registered && fx.arena.Length == Size(p)
  }

  /** release_or_retain: the verdict does not depend on which. */
  method ReleaseOrRetain(p: Plan, env: Env, fx: Fixture)
    requires Ready(p, fx)
    modifies fx
    ensures fx.Proper() && fx.log == old(fx.log) + ReleaseLog(env)
    ensures fx.released == (env.deregisterRc == 0) && fx.retained == !fx.released
  {
    var ok := fx.Release(env.deregisterRc);
  }

  // --- one reference GET -------------------------------------------------------------------------------

  datatype End = Go | Stop(verdict: Verdict)

  /** The handler around the reference pass: it builds its message, then retains whatever
      it finds, a released fixture included. */
  method Caught(env: Env, fx: Fixture) returns (end: End)
    requires fx.Valid()
    modifies fx
    ensures fx.Valid() && fx.released == old(fx.released)
    ensures fx.retained == (old(fx.retained) || !env.throws(HandlerMessage))
    ensures fx.log == old(fx.log) + if old(fx.released || fx.retained) then [] else CaughtLog(env)
    ensures end.Stop? && end.verdict in {EnvError, Unwound}
  {
    if env.throws(HandlerMessage) { return Stop(Unwound); }
    fx.Retain();
    return Stop(EnvError);
  }

  /** The report of an exit of the reference pass, once the fixture is decided. */
  method Reported(env: Env, fx: Fixture, k: nat, v: Verdict) returns (end: End)
    requires fx.Valid() && (fx.released || fx.retained)
    modifies fx
    ensures fx.Valid() && fx.released == old(fx.released) && fx.log == old(fx.log)
    ensures fx.retained == (old(fx.retained) || (env.throws(ReferenceFinish(k)) && !env.throws(HandlerMessage)))
    ensures end.Stop? && end.verdict in {v, EnvError, Unwound}
  {
    if env.throws(ReferenceFinish(k)) { end := Caught(env, fx); } else { end := Stop(v); }
  }

  /** Poison, GET and gate of a reference; `Go` if its landing may be read. */
  method ReferenceIssue(p: Plan, env: Env, fx: Fixture, k: nat) returns (end: End)
    requires k < p.slots && Ready(p, fx)
    modifies fx, fx.arena
    ensures end.Go? <==>
            && !env.throws(Reference(k)) && !env.throws(ReferenceReport(k))
            && Settled(env.reference(k)) && !env.reference(k).ctx.localFailure
    ensures end.Go? ==>
              Ready(p, fx) && fx.arena[..] == ReferenceImage(p, env, k) && fx.log == old(fx.log) + [GetOp(env.reference(k))]
    ensures end.Stop? ==>
              fx.Valid() && end.verdict in {Inconclusive, EnvError, Unwound} && fx.log == old(fx.log) + ReferenceLog(p, env, k)
    ensures end.Stop? ==> (fx.released && fx.retained <==> ReleasedThenRetained(p, env, k))
  {
    if env.throws(Reference(k)) { end := Caught(env, fx); return; }
    CellFits(k, p.slots, p.guard, p.payload);
    PoisonCell(fx.arena, MakeCell(k, p.guard, p.payload), 1);
    var r := env.reference(k);
    Deliver(fx.arena, ReferenceImage(p, env, k));
    fx.NoteGet(r.ctx, r.sdk.present);
    if env.throws(ReferenceReport(k)) { end := Caught(env, fx); return; }
    if RigCallback.Unsettled(r.ctx, r.sdk.present) {
      fx.Retain();
      end := Reported(env, fx, k, Inconclusive);
      return;
    }
    if r.ctx.localFailure {
      ReleaseOrRetain(p, env, fx);
      end := Reported(env, fx, k, EnvError);
      return;
    }
    end := Go;
  }

  method ReferenceGet(p: Plan, env: Env, fx: Fixture, k: nat) returns (end: End, d: string)
    requires k < p.slots && Ready(p, fx)
    modifies fx, fx.arena
    ensures end.Go? <==> ReferenceGood(p, env, k)
    ensures end.Go? ==> Ready(p, fx) && d == env.digest(Landing(p, ReferenceImage(p, env, k), k))
    ensures end.Stop? ==> fx.Valid() && end.verdict in {Inconclusive, EnvError, Unwound}
    ensures end.Stop? ==> (fx.released && fx.retained <==> ReleasedThenRetained(p, env, k))
    ensures fx.log == old(fx.log) + ReferenceLog(p, env, k)
  {
    d := "";
    end := ReferenceIssue(p, env, fx, k);
    if end.Stop? { return; }
    fx.NoteLook();
    if env.throws(ReferenceLook(k)) { end := Caught(env, fx); return; }
    var ok;
    ok, d := SlotOk(p, env, fx.arena, k, env.reference(k), 1);
    if !ok || d == PoisonDigest(p, env, 1) {
      ReleaseOrRetain(p, env, fx);
      end := Reported(env, fx, k, EnvError);
    }
  }

  // --- one round -----------------------------------------------------------------------------------------

  datatype RoundEnd = Clean | Bad | Exit(verdict: Verdict)

  /** Poison every cell; a payload whose poison is its reference ends the run. */
  method PoisonRound(p: Plan, env: Env, fx: Fixture, it: nat, refs: seq<string>) returns (end: End)
    requires |refs| == p.slots && Ready(p, fx)
    modifies fx, fx.arena
    ensures end.Go? <==> Poisonable(p, env, it, refs)
    ensures end.Go? ==> Ready(p, fx) && fx.log == old(fx.log)
    ensures end.Go? ==> forall k :: 0 <= k < p.slots ==> SlotIntact(p, fx.arena[..], k, 0, Nonce(it))
    ensures end.Stop? ==> fx.Proper() && end.verdict in {Inconclusive, EnvError} && fx.log == old(fx.log) + [Leak]
  {
    for k := 0 to p.slots
      invariant Ready(p, fx) && fx.log == old(fx.log)
      invariant forall j :: 0 <= j < k ==> !env.throws(RoundPoison(it, j)) && PoisonDigest(p, env, Nonce(it)) != refs[j]
      invariant forall j :: 0 <= j < k ==> SlotIntact(p, fx.arena[..], j, 0, Nonce(it))
    {
      if PoisonDigest(p, env, Nonce(it)) == refs[k] { fx.Retain(); return Stop(Inconclusive); }
      if env.throws(RoundPoison(it, k)) { fx.Retain(); return Stop(EnvError); }
      ghost var before := fx.arena[..];
      CellFits(k, p.slots, p.guard, p.payload);
      PoisonCell(fx.arena, MakeCell(k, p.guard, p.payload), Nonce(it));
      PoisonedSoFar(p, before, fx.arena[..], k, Nonce(it));
    }
    end := Go;
  }

  lemma PoisonedSoFar(p: Plan, before: seq<Byte>, after: seq<Byte>, k: nat, nonce: bv32)
    requires |before| == |after| == Size(p) && k < p.slots
    requires forall j :: 0 <= j < k ==> SlotIntact(p, before, j, 0, nonce)
    requires var c := MakeCell(k, p.guard, p.payload);
             c.base + c.size <= |before| && after == Spliced(before, c.base, Poison(c.size, nonce))
    ensures forall j :: 0 <= j <= k ==> SlotIntact(p, after, j, 0, nonce)
  {
    PoisonedIsIntact(before, MakeCell(k, p.guard, p.payload), nonce);
    forall j | 0 <= j < k ensures SlotIntact(p, after, j, 0, nonce) {
      assert SlotIntact(p, before, j, 0, nonce);
      CellFits(j, p.slots, p.guard, p.payload);
      OtherCellsUnchanged(before, j, k, p.guard, p.payload, nonce);
    }
  }

  /** The first `n` workers have run and joined. */
  method JoinWorkers(p: Plan, env: Env, fx: Fixture, it: nat, n: nat) returns (anyUnknown: bool)
    requires Ready(p, fx) && n <= p.slots
    modifies fx, fx.arena
    ensures !anyUnknown <==> forall k :: 0 <= k < n ==> Settled(env.result(it, k))
    ensures Ready(p, fx) && fx.arena[..] == RoundImage(p, env, it)
    ensures fx.log == old(fx.log) + RoundGets(env, it, n)
  {
    Deliver(fx.arena, RoundImage(p, env, it));
    anyUnknown := false;
    for k := 0 to n
      invariant fx.Open() && fx.registered && fx.arena[..] == RoundImage(p, env, it)
      invariant !anyUnknown <==> forall j :: 0 <= j < k ==> Settled(env.result(it, j))
      invariant fx.log == old(fx.log) + RoundGets(env, it, k)
    {
      var r := env.result(it, k);
      fx.NoteGet(r.ctx, r.sdk.present);
      anyUnknown := anyUnknown || RigCallback.Unsettled(r.ctx, r.sdk.present);
    }
  }

  /** A round with an unsettled GET: only an observed short return counts, and only
      under witnessed overlap. */
  method JudgeUnknown(p: Plan, env: Env, it: nat, roundMax: int) returns (v: Verdict)
    ensures v in {Fail, Inconclusive}
    ensures v == Fail <==> roundMax >= 2 && SomeShort(p, env, it)
  {
    var observed := false;
    for k := 0 to p.slots
      invariant observed <==> exists j :: 0 <= j < k && ShortReturn(p, env.result(it, j))
    {
      var r := env.result(it, k);
      if r.ctx.evidenceLost || r.ctx.localFailure { continue; }
      observed := observed || (r.sdk.present && r.sdk.value != p.payload);
    }
    v := if observed && roundMax >= 2 then Fail else Inconclusive;
  }

  /** Pass 1: native returns, before any landing is looked at. */
  method NativePass(p: Plan, env: Env, it: nat) returns (nativeFail: seq<bool>, failures: nat)
    ensures |nativeFail| == p.slots && forall k :: 0 <= k < p.slots ==> nativeFail[k] == NativeBad(p, env, it, k)
    ensures failures == 0 <==> forall k :: 0 <= k < p.slots ==> !nativeFail[k]
  {
    nativeFail, failures := [], 0;
    for k := 0 to p.slots
      invariant |nativeFail| == k && forall j :: 0 <= j < k ==> nativeFail[j] == NativeBad(p, env, it, j)
      invariant failures == 0 <==> forall j :: 0 <= j < k ==> !nativeFail[j]
    {
      var r := env.result(it, k);
      var bad := !r.ctx.localFailure && !NativeOk(p, r);
      nativeFail := nativeFail + [bad];
      assert nativeFail[k] == bad;
      if bad { failures := failures + 1; }
    }
  }

  /** Look at the landing of one slot. */
  method LookAt(p: Plan, env: Env, fx: Fixture, it: nat, k: nat, reference: string) returns (good: bool)
    requires k < p.slots && Ready(p, fx) && fx.arena[..] == RoundImage(p, env, it)
    modifies fx`log
    ensures Ready(p, fx) && fx.log == old(fx.log) + [Look]
    ensures good <==> SlotGood(p, env, it, k, reference)
  {
    fx.NoteLook();
    var ok, d := SlotOk(p, env, fx.arena, k, env.result(it, k), Nonce(it));
    good := ok && d == reference;
  }

  /** Among the first `n` slots, one that pass 2 saw wrong and pass 1 did not. */
  ghost predicate FreshBad(p: Plan, env: Env, it: nat, refs: seq<string>, nativeFail: seq<bool>, n: nat)
    requires |refs| == |nativeFail| == p.slots && n <= p.slots
  {
    exists k :: 0 <= k < n && SeenBad(p, env, it, k, refs[k]) && !nativeFail[k]
  }

  ghost predicate LocalBefore(env: Env, it: nat, n: nat) { exists k :: 0 <= k < n && Reached(env, it, k) && Local(env, it, k) }

  /** A throw ends the pass: nothing behind its slot is seen. */
  lemma PassEnds(p: Plan, env: Env, it: nat, refs: seq<string>, nativeFail: seq<bool>, k: nat)
    requires |refs| == |nativeFail| == p.slots && k < p.slots && Thrown(env, it, k)
    ensures !Reached(env, it, p.slots)
    ensures FreshBad(p, env, it, refs, nativeFail, p.slots) <==> FreshBad(p, env, it, refs, nativeFail, k + 1)
    ensures LocalBefore(env, it, p.slots) <==> LocalBefore(env, it, k + 1)
  {
    forall j | k < j < p.slots ensures !SeenBad(p, env, it, j, refs[j]) && !Reached(env, it, j) {}
  }

  lemma PassGoesOn(p: Plan, env: Env, it: nat, refs: seq<string>, nativeFail: seq<bool>, k: nat)
    requires |refs| == |nativeFail| == p.slots && k < p.slots && Reached(env, it, k)
    ensures !Thrown(env, it, k) ==> Reached(env, it, k + 1)
    ensures FreshBad(p, env, it, refs, nativeFail, k + 1) <==>
            FreshBad(p, env, it, refs, nativeFail, k) || (SeenBad(p, env, it, k, refs[k]) && !nativeFail[k])
    ensures LocalBefore(env, it, k + 1) <==> LocalBefore(env, it, k) || Local(env, it, k)
  {}

  /** Where pass 2 stands before slot `k`; `due` is what the log is to become. */
  ghost predicate Looking(p: Plan, env: Env, fx: Fixture, it: nat, refs: seq<string>, nativeFail: seq<bool>,
                          k: nat, failures: nat, local: bool, due: seq<Op>)
    requires |refs| == |nativeFail| == p.slots && k <= p.slots
    reads fx, fx.arena
  {
    && Ready(p, fx) && fx.arena[..] == RoundImage(p, env, it)
    && due == fx.log + LooksLog(p, env, it, k) && Reached(env, it, k)
    && (local <==> LocalBefore(env, it, k)) && (failures > 0 <==> FreshBad(p, env, it, refs, nativeFail, k))
  }

  /** What pass 2 comes to. */
  ghost predicate Looked(p: Plan, env: Env, fx: Fixture, it: nat, refs: seq<string>, nativeFail: seq<bool>,
                         failures: nat, thrown: bool, local: bool, due: seq<Op>)
    requires |refs| == |nativeFail| == p.slots
    reads fx
  {
    && Ready(p, fx) && due == fx.log && (thrown <==> !Reached(env, it, p.slots))
    && (local <==> LocalBefore(env, it, p.slots)) && (failures > 0 <==> FreshBad(p, env, it, refs, nativeFail, p.slots))
  }

  /** One slot of pass 2: a wrong slot that pass 1 did not count, a probe failure, a throw.
      The slot is counted before it is reported. */
  method LandingTurn(p: Plan, env: Env, fx: Fixture, it: nat, k: nat, reference: string, nativeFail: bool)
    returns (bad: bool, local: bool, thrown: bool)
    requires k < p.slots && Ready(p, fx) && fx.arena[..] == RoundImage(p, env, it)
    modifies fx`log
    ensures Ready(p, fx) && fx.log == old(fx.log) + (if Local(env, it, k) then [] else [Look])
    ensures local == Local(env, it, k) && thrown == Thrown(env, it, k)
    ensures bad <==> !local && !env.throws(SlotRead(it, k)) && !SlotGood(p, env, it, k, reference) && !nativeFail
  {
    if env.result(it, k).ctx.localFailure { return false, true, env.throws(SlotReport(it, k)); }
    var good := LookAt(p, env, fx, it, k, reference);
    if env.throws(SlotRead(it, k)) { return false, false, true; }
    return !good && !nativeFail, false, env.throws(SlotReport(it, k));
  }

  /** The log after a turn, on its way to `due`. */
  lemma LooksNext(p: Plan, env: Env, it: nat, k: nat, before: seq<Op>, log: seq<Op>, due: seq<Op>)
    requires k < p.slots && due == before + LooksLog(p, env, it, k)
    requires log == before + (if Local(env, it, k) then [] else [Look])
    ensures due == if Thrown(env, it, k) then log else log + LooksLog(p, env, it, k + 1)
  {
    var rest := if Thrown(env, it, k) then [] else LooksLog(p, env, it, k + 1);
    Associate(before, if Local(env, it, k) then [] else [Look], rest);
  }

  lemma CountersNext(p: Plan, env: Env, it: nat, refs: seq<string>, nativeFail: seq<bool>,
                     k: nat, failures: nat, local: bool, failures': nat, local': bool)
    requires |refs| == |nativeFail| == p.slots && k < p.slots && Reached(env, it, k)
    requires (local <==> LocalBefore(env, it, k)) && (failures > 0 <==> FreshBad(p, env, it, refs, nativeFail, k))
    requires local' == (local || Local(env, it, k))
    requires failures' == failures + (if SeenBad(p, env, it, k, refs[k]) && !nativeFail[k] then 1 else 0)
    ensures var n := if Thrown(env, it, k) then p.slots else k + 1;
            && (local' <==> LocalBefore(env, it, n)) && (failures' > 0 <==> FreshBad(p, env, it, refs, nativeFail, n))
            && (Reached(env, it, n) <==> !Thrown(env, it, k))
  {
    PassGoesOn(p, env, it, refs, nativeFail, k);
    if Thrown(env, it, k) { PassEnds(p, env, it, refs, nativeFail, k); }
  }

  lemma PassDone(p: Plan, env: Env, fx: Fixture, it: nat, refs: seq<string>, nativeFail: seq<bool>,
                 failures: nat, local: bool, due: seq<Op>)
    requires |refs| == |nativeFail| == p.slots
    requires Looking(p, env, fx, it, refs, nativeFail, p.slots, failures, local, due)
    ensures Looked(p, env, fx, it, refs, nativeFail, failures, false, local, due)
  {
    assert fx.log + [] == fx.log;
  }

  /** Pass 2, up to the first slot whose read or report throws: whether one did, whether the probe
      failed in a slot reached, and how many slots beyond pass 1 are wrong. */
  method LandingPass(p: Plan, env: Env, fx: Fixture, it: nat, refs: seq<string>, nativeFail: seq<bool>)
    returns (failures: nat, observerFailed: bool, localInRound: bool)
    requires |refs| == |nativeFail| == p.slots
    requires Ready(p, fx) && fx.arena[..] == RoundImage(p, env, it)
    modifies fx`log
    ensures Looked(p, env, fx, it, refs, nativeFail, failures, observerFailed, localInRound,
                   old(fx.log) + LooksLog(p, env, it, 0))
  {
    failures, observerFailed, localInRound := 0, false, false;
    ghost var due := old(fx.log) + LooksLog(p, env, it, 0);
    for k := 0 to p.slots
      invariant Looking(p, env, fx, it, refs, nativeFail, k, failures, localInRound, due)
    {
      ghost var before, f, l := fx.log, failures, localInRound;
      var bad, local;
      bad, local, observerFailed := LandingTurn(p, env, fx, it, k, refs[k], nativeFail[k]);
      LooksNext(p, env, it, k, before, fx.log, due);
      failures, localInRound := failures + (if bad then 1 else 0), localInRound || local;
      CountersNext(p, env, it, refs, nativeFail, k, f, l, failures, localInRound);
      if observerFailed { return; }
    }
    PassDone(p, env, fx, it, refs, nativeFail, failures, localInRound, due);
    observerFailed := false;
  }

  /** Both passes over a settled round. */
  method JudgeLanding(p: Plan, env: Env, fx: Fixture, it: nat, refs: seq<string>)
    returns (failures: nat, observerFailed: bool, localInRound: bool)
    requires |refs| == p.slots && Ready(p, fx) && fx.arena[..] == RoundImage(p, env, it)
    modifies fx`log
    ensures Ready(p, fx) && fx.log == old(fx.log) + LooksLog(p, env, it, 0)
    ensures failures > 0 <==> SomeBad(p, env, it, refs)
    ensures observerFailed <==> !Reached(env, it, p.slots)
    ensures localInRound <==> LocalSeen(p, env, it)
  {
    var nativeFail, native := NativePass(p, env, it);
    var landing;
    landing, observerFailed, localInRound := LandingPass(p, env, fx, it, refs, nativeFail);
    failures := native + landing;
  }

  /** A settled round is judged: the log, and how it ends. */
  method JudgeSettled(p: Plan, env: Env, fx: Fixture, it: nat, refs: seq<string>) returns (end: RoundEnd)
    requires |refs| == p.slots && Ready(p, fx) && fx.arena[..] == RoundImage(p, env, it)
    modifies fx
    ensures end.Bad? <==> SomeBad(p, env, it, refs)
    ensures end.Clean? <==> !SomeBad(p, env, it, refs) && Reached(env, it, p.slots) && !LocalSeen(p, env, it)
    ensures end.Exit? ==> fx.Proper() && end.verdict in {EnvError, Unwound}
    ensures !end.Exit? ==> Ready(p, fx)
    ensures fx.log == old(fx.log) + (LooksLog(p, env, it, 0) + VerdictLog(p, env, it, refs))
  {
    var failures, observerFailed, localInRound := JudgeLanding(p, env, fx, it, refs);
    if failures > 0 { return Bad; }
    if observerFailed { fx.Retain(); return Exit(EnvError); }
    if localInRound {
      if env.throws(ProbeReport(it)) { return Exit(Unwound); }
      ReleaseOrRetain(p, env, fx);
      return Exit(EnvError);
    }
    end := Clean;
  }

  /** All workers created, joined and judged. */
  method JudgeRound(p: Plan, env: Env, fx: Fixture, it: nat, refs: seq<string>) returns (end: RoundEnd, roundMax: int)
    requires Forward(p, env, it) && |refs| == p.slots && Ready(p, fx)
    modifies fx, fx.arena
    ensures roundMax >= 2 <==> RoundOverlapped(p, env, it)
    ensures end.Bad? <==> !env.throws(RoundReport(it)) && AllSettled(p, env, it) && SomeBad(p, env, it, refs)
    ensures end.Clean? <==>
            && !env.throws(RoundReport(it)) && AllSettled(p, env, it)
            && !SomeBad(p, env, it, refs) && Reached(env, it, p.slots) && !LocalSeen(p, env, it)
    ensures end == Exit(Fail) <==>
            !env.throws(RoundReport(it)) && !AllSettled(p, env, it) && RoundOverlapped(p, env, it) && SomeShort(p, env, it)
    ensures end.Exit? ==> fx.Proper() && end.verdict != Pass
    ensures !end.Exit? ==> Ready(p, fx)
    ensures fx.log == old(fx.log) + (RoundGets(env, it, p.slots) + JudgementLog(p, env, it, refs))
  {
    var anyUnknown := JoinWorkers(p, env, fx, it, p.slots);
    Associate(old(fx.log), RoundGets(env, it, p.slots), JudgementLog(p, env, it, refs));
    roundMax := OverlapSweep.RoundMax(Contexts(p, env, it));
    if env.throws(RoundReport(it)) { return Exit(Unwound), roundMax; }
    if anyUnknown {
      fx.Retain();
      var v := JudgeUnknown(p, env, it, roundMax);
      return Exit(v), roundMax;
    }
    end := JudgeSettled(p, env, fx, it, refs);
  }

  /** One round, from fresh poison to its judgement. */
  method RunRound(p: Plan, env: Env, fx: Fixture, it: nat, refs: seq<string>) returns (end: RoundEnd, roundMax: int)
    requires Forward(p, env, it) && |refs| == p.slots && Ready(p, fx)
    modifies fx, fx.arena
    ensures end.Clean? <==> RoundGood(p, env, it, refs)
    ensures end == Exit(Fail) || (end.Bad? && roundMax >= 2) <==> RoundFails(p, env, it, refs)
    ensures !end.Exit? ==> Ready(p, fx) && (roundMax >= 2 <==> RoundOverlapped(p, env, it))
    ensures end.Exit? ==> fx.Proper() && end.verdict != Pass
    ensures fx.log == old(fx.log) + RoundLog(p, env, it, refs)
  {
    GoodRoundParts(p, env, it, refs);
    var poisoned := PoisonRound(p, env, fx, it, refs);
    if poisoned.Stop? { return Exit(poisoned.verdict), 0; }
    if env.throws(Spawn(it)) {
      var _ := JoinWorkers(p, env, fx, it, Created(p, env, it));
      fx.Retain();
      return Exit(EnvError), 0;
    }
    end, roundMax := JudgeRound(p, env, fx, it, refs);
  }
}
