/** The concurrent experiment as it runs: capacity, reference pass, rounds and terminal
    reading (probe/rig_probe_main.cpp). */
module ConcurrentExperiment {
  import opened Options
  import opened Geometry
  import opened Fixture
  import opened ExperimentSpec
  import opened ConcurrentRound
  import opened Sequences

  /** Where the reference pass stands before slot `k`; `due` is what the log is to become. */
  ghost predicate Referring(p: Plan, env: Env, fx: Fixture, k: nat, refs: seq<string>, due: seq<Op>)
    requires k <= p.slots
    reads fx
  {
    && Ready(p, fx) && due == fx.log + ReferencesLog(p, env, k) && ReferencesGoodUpTo(p, env, k)
    && |refs| == k && forall j :: 0 <= j < k ==> refs[j] == Refs(p, env)[j]
  }

  /** One turn of the reference pass. */
  method NextReference(p: Plan, env: Env, fx: Fixture, k: nat, refs: seq<string>, ghost due: seq<Op>)
    returns (end: End, refs': seq<string>)
    requires k < p.slots && Referring(p, env, fx, k, refs, due)
    modifies fx, fx.arena
    ensures end.Go? ==> Referring(p, env, fx, k + 1, refs', due)
    ensures end.Stop? ==>
              fx.Valid() && end.verdict in {Inconclusive, EnvError, Unwound} && due == fx.log && !ReferencesGood(p, env)
    ensures end.Stop? ==> (fx.released && fx.retained <==> SomeReleasedThenRetained(p, env))
  {
    FirstReference(p, env, k);
    Associate(fx.log, ReferenceLog(p, env, k), if ReferenceGood(p, env, k) then ReferencesLog(p, env, k + 1) else []);
    var d;
    end, d := ReferenceGet(p, env, fx, k);
    refs' := refs + [d];
  }

  /** Only the first reference that is not good can have released the fixture. */
  lemma FirstReference(p: Plan, env: Env, k: nat)
    requires k < p.slots && ReferencesGoodUpTo(p, env, k)
    ensures !ReferenceGood(p, env, k) ==> (SomeReleasedThenRetained(p, env) <==> ReleasedThenRetained(p, env, k))
  {
    if !ReferenceGood(p, env, k) {
      forall j | 0 <= j < p.slots && ReferencesGoodUpTo(p, env, j) && ReleasedThenRetained(p, env, j) ensures j == k {
        assert !ReferenceGood(p, env, j);
      }
    }
  }

  lemma GoodReferencesAreKept(p: Plan, env: Env)
    requires ReferencesGood(p, env)
    ensures !SomeReleasedThenRetained(p, env)
  {
    forall j | 0 <= j < p.slots ensures !ReleasedThenRetained(p, env, j) { assert ReferenceGood(p, env, j); }
  }

  lemma ReferencesDone(p: Plan, env: Env, fx: Fixture, refs: seq<string>, due: seq<Op>)
    requires Referring(p, env, fx, p.slots, refs, due)
    ensures Ready(p, fx) && ReferencesGood(p, env) && refs == Refs(p, env) && due == fx.log
  {}

  method ReferencePass(p: Plan, env: Env, fx: Fixture) returns (end: End, refs: seq<string>)
    requires Ready(p, fx)
    modifies fx, fx.arena
    ensures end.Go? <==> ReferencesGood(p, env)
    ensures end.Go? ==> Ready(p, fx) && refs == Refs(p, env)
    ensures end.Stop? ==> fx.Valid() && end.verdict in {Inconclusive, EnvError, Unwound}
    ensures fx.released && fx.retained <==> SomeReleasedThenRetained(p, env)
    ensures fx.log == old(fx.log) + ReferencesLog(p, env, 0)
  {
    refs := [];
    ghost var due := old(fx.log) + ReferencesLog(p, env, 0);
    for k := 0 to p.slots
      invariant Referring(p, env, fx, k, refs, due)
    {
      end, refs := NextReference(p, env, fx, k, refs, due);
      if end.Stop? { return; }
    }
    ReferencesDone(p, env, fx, refs, due);
    GoodReferencesAreKept(p, env);
    end := Go;
  }

  method AllDistinct(refs: seq<string>) returns (ok: bool)
    ensures ok <==> Distinct(refs)
  {
    for a := 0 to |refs|
      invariant forall i, j :: 0 <= i < a && i < j < |refs| ==> refs[i] != refs[j]
    {
      for b := a + 1 to |refs|
        invariant forall j :: a < j < b ==> refs[a] != refs[j]
      {
        if refs[a] == refs[b] { return false; }
      }
    }
    return true;
  }

  datatype Rounds = Completed(maxOverlap: int) | Broken(overlap: int) | Left(verdict: Verdict)

  /** What the rounds amount to, and that the first one that is not good decides. */
  ghost predicate RoundsEnd(p: Plan, env: Env, refs: seq<string>, iterations: int, r: Rounds)
    requires |refs| == p.slots
  {
    && (r.Completed? <==> RoundsGood(p, env, refs, iterations))
    && (r.Completed? ==> (r.maxOverlap >= 2 <==> SomeOverlap(p, env, iterations)))
    && (r == Left(Fail) || (r.Broken? && r.overlap >= 2) <==> FailsTogether(p, env, refs, iterations))
    && r != Left(Pass)
  }

  /** Broken and completed rounds leave the fixture to the terminal reading. */
  ghost predicate LeftTo(p: Plan, fx: Fixture, r: Rounds)
    reads fx
  {
    if r.Left? then fx.Proper() else Ready(p, fx)
  }

  /** The rounds came to `r`, and the log to what was due. */
  ghost predicate Finished(p: Plan, env: Env, fx: Fixture, refs: seq<string>, iterations: int, r: Rounds, due: seq<Op>)
    requires |refs| == p.slots
    reads fx
  {
    RoundsEnd(p, env, refs, iterations, r) && LeftTo(p, fx, r) && due == fx.log
  }

  /** Where the loop stands before round `it`; `due` is what the log is to become. */
  ghost predicate Midway(p: Plan, env: Env, fx: Fixture, refs: seq<string>, it: nat, iterations: int, maxOverlap: int, due: seq<Op>)
    requires |refs| == p.slots
    reads fx
  {
    && Ready(p, fx) && RoundsGood(p, env, refs, it) && (it <= iterations || it == 0)
    && (maxOverlap >= 2 <==> SomeOverlap(p, env, it)) && due == fx.log + RoundsLog(p, env, refs, it, iterations)
  }

  /** One turn of the loop over rounds. */
  method NextRound(p: Plan, env: Env, fx: Fixture, refs: seq<string>, it: nat, iterations: int, before: int, ghost due: seq<Op>)
    returns (stop: Option<Rounds>, maxOverlap: int)
    requires Steady(p, env) && |refs| == p.slots && it < iterations
    requires Midway(p, env, fx, refs, it, iterations, before, due)
    modifies fx, fx.arena
    ensures stop.None? ==> Midway(p, env, fx, refs, it + 1, iterations, maxOverlap, due)
    ensures stop.Some? ==> Finished(p, env, fx, refs, iterations, stop.value, due)
  {
    Associate(fx.log, RoundLog(p, env, it, refs),
              if RoundGood(p, env, it, refs) then RoundsLog(p, env, refs, it + 1, iterations) else []);
    var end, roundMax := RunRound(p, env, fx, it, refs);
    maxOverlap := if before < roundMax then roundMax else before;
    OverlapNext(p, env, it);
    GoodRoundsNext(p, env, refs, it);
    if !end.Clean? { FirstNotGood(p, env, refs, it, iterations); }
    stop := match end
      case Exit(v) => Some(Left(v))
      case Bad => Some(Broken(roundMax))
      case Clean => None;
  }

  lemma RoundsBegin(p: Plan, env: Env, fx: Fixture, refs: seq<string>, iterations: int, due: seq<Op>)
    requires |refs| == p.slots && Ready(p, fx) && due == fx.log + RoundsLog(p, env, refs, 0, iterations)
    ensures Midway(p, env, fx, refs, 0, iterations, 0, due)
  {}

  lemma RoundsDone(p: Plan, env: Env, fx: Fixture, refs: seq<string>, it: nat, iterations: int, maxOverlap: int, due: seq<Op>)
    requires |refs| == p.slots && iterations <= it && Midway(p, env, fx, refs, it, iterations, maxOverlap, due)
    ensures Finished(p, env, fx, refs, iterations, Completed(maxOverlap), due)
  {
    NoneFails(p, env, refs, iterations, it, maxOverlap);
    assert fx.log + [] == fx.log;
  }

  method RunRounds(p: Plan, env: Env, fx: Fixture, refs: seq<string>, iterations: int) returns (r: Rounds)
    requires Steady(p, env) && |refs| == p.slots && Ready(p, fx)
    modifies fx, fx.arena
    ensures Finished(p, env, fx, refs, iterations, r, old(fx.log) + RoundsLog(p, env, refs, 0, iterations))
  {
    hide *;
    var maxOverlap := 0;
    var it := 0;
    ghost var due := old(fx.log) + RoundsLog(p, env, refs, 0, iterations);
    RoundsBegin(p, env, fx, refs, iterations, due);
    var stop: Option<Rounds> := None;
    while it < iterations && stop.None?
      invariant 0 <= it
      invariant match stop
                case None => Midway(p, env, fx, refs, it, iterations, maxOverlap, due)
                case Some(end) => Finished(p, env, fx, refs, iterations, end, due)
      decreases iterations - it
    {
      stop, maxOverlap := NextRound(p, env, fx, refs, it, iterations, maxOverlap, due);
      it := it + 1;
    }
    if stop.None? { RoundsDone(p, env, fx, refs, it, iterations, maxOverlap, due); }
    r := if stop.None? then Completed(maxOverlap) else stop.value;
  }

  /** Only the first round that is not good can fail the experiment. */
  lemma FirstNotGood(p: Plan, env: Env, refs: seq<string>, it: nat, iterations: int)
    requires |refs| == p.slots && it < iterations
    requires RoundsGood(p, env, refs, it) && !RoundGood(p, env, it, refs)
    ensures !RoundsGood(p, env, refs, iterations)
    ensures FailsTogether(p, env, refs, iterations) <==> RoundFails(p, env, it, refs)
  {
    forall j | 0 <= j < iterations && RoundsGood(p, env, refs, j) && RoundFails(p, env, j, refs) ensures j == it {
      if j < it { GoodDoesNotFail(p, env, j, refs); }
    }
  }

  lemma NoneFails(p: Plan, env: Env, refs: seq<string>, iterations: int, it: nat, maxOverlap: int)
    requires |refs| == p.slots && iterations <= it && (it == 0 || it == iterations)
    requires RoundsGood(p, env, refs, it) && (maxOverlap >= 2 <==> SomeOverlap(p, env, it))
    ensures RoundsEnd(p, env, refs, iterations, Completed(maxOverlap))
  {
    forall j | 0 <= j < iterations ensures !RoundFails(p, env, j, refs) { GoodDoesNotFail(p, env, j, refs); }
  }

  lemma GoodDoesNotFail(p: Plan, env: Env, it: nat, refs: seq<string>)
    requires |refs| == p.slots && RoundGood(p, env, it, refs)
    ensures !RoundFails(p, env, it, refs)
  {
    GoodRoundParts(p, env, it, refs);
  }

  /** callback_max at every slot. */
  method CapacityPass(p: Plan, env: Env, fx: Fixture) returns (end: End)
    requires Ready(p, fx)
    modifies fx
    ensures end.Go? <==> CapacityOk(p, env)
    ensures end.Go? ==> Ready(p, fx) && fx.log == old(fx.log)
    ensures end.Stop? ==> fx.Proper() && end.verdict in {EnvError, Unwound} && fx.log == old(fx.log) + CapacityLog(p, env, 0)
  {
    for k := 0 to p.slots
      invariant Ready(p, fx) && fx.log == old(fx.log) && CapacityLog(p, env, 0) == CapacityLog(p, env, k)
      invariant forall j :: 0 <= j < k ==> !env.throws(Capacity(j)) && env.capacity(j) >= p.payload
    {
      if env.throws(Capacity(k)) { return Stop(Unwound); }
      if env.capacity(k) < p.payload { ReleaseOrRetain(p, env, fx); return Stop(EnvError); }
    }
    end := Go;
  }

  /** From the rounds' outcome to the terminal reading. */
  method Conclude(p: Plan, env: Env, fx: Fixture, r: Rounds) returns (v: Verdict)
    requires !r.Left? && Ready(p, fx)
    modifies fx
    ensures fx.Proper()
    ensures v == Pass <==>
            r.Completed? && r.maxOverlap >= 2 && env.deregisterRc == 0 && !env.outputFailed && !env.throws(Finishing)
    ensures v == Fail <==> (if r.Completed? then env.deregisterRc != 0 else r.overlap >= 2)
    ensures fx.log == old(fx.log) + (if r.Completed? then ReleaseLog(env) else [Leak])
  {
    var keep := r.Broken?;
    v := match r
      case Broken(overlap) => if overlap >= 2 then Fail else Inconclusive
      case Completed(m) => if m < 2 then Inconclusive else Pass;
    if !keep {
      var ok := fx.Release(env.deregisterRc);
      if !ok { keep, v := true, Fail; }
    }
    if keep { fx.Retain(); }
    if v == Pass && (env.outputFailed || env.throws(Finishing)) { v := Inconclusive; }
  }

  /** The log as it stands, or with the leak that ~Fixture would add. */
  ghost predicate Matches(log: seq<Op>, due: seq<Op>) { Closed(log) == Closed(due) }

  /** The rounds and the reading, on verified and distinct references. */
  method RoundsAndReading(p: Plan, env: Env, fx: Fixture, refs: seq<string>, iterations: int) returns (v: Verdict)
    requires Steady(p, env) && Ready(p, fx) && refs == Refs(p, env) && Distinct(refs)
    modifies fx, fx.arena
    ensures fx.Proper()
    ensures v == Pass <==>
            && RoundsGood(p, env, refs, iterations) && SomeOverlap(p, env, iterations)
            && env.deregisterRc == 0 && !env.outputFailed && !env.throws(Finishing)
    ensures v == Fail <==>
            FailsTogether(p, env, refs, iterations) || (RoundsGood(p, env, refs, iterations) && env.deregisterRc != 0)
    ensures Matches(fx.log, old(fx.log) + AfterSetUpLog(p, env, iterations))
  {
    var r := RunRounds(p, env, fx, refs, iterations);
    AfterRounds(p, env, iterations, old(fx.log));
    if r.Left? { return r.verdict; }
    NotYetOver(p, fx);
    v := Conclude(p, env, fx, r);
  }

  /** What the rounds leave of the log, and what a completed run adds. */
  lemma AfterRounds(p: Plan, env: Env, iterations: int, before: seq<Op>)
    requires Distinct(Refs(p, env))
    ensures var refs := Refs(p, env);
            before + AfterSetUpLog(p, env, iterations) ==
            before + RoundsLog(p, env, refs, 0, iterations) + if RoundsGood(p, env, refs, iterations) then ReleaseLog(env) else []
  {
    var refs := Refs(p, env);
    Associate(before, RoundsLog(p, env, refs, 0, iterations),
              if RoundsGood(p, env, refs, iterations) then ReleaseLog(env) else []);
  }

  /** A retained fixture's log is the one ~Fixture would have left. */
  lemma NotYetOver(p: Plan, fx: Fixture)
    requires Ready(p, fx)
    ensures Matches(fx.log + [Leak], fx.log + []) && fx.log + [] == fx.log
  {}

  /** The references, and what they allow. */
  method ReferencesAndRounds(p: Plan, env: Env, fx: Fixture, iterations: int) returns (v: Verdict)
    requires Steady(p, env) && Ready(p, fx)
    modifies fx, fx.arena
    ensures fx.Valid() && (fx.released && fx.retained <==> SomeReleasedThenRetained(p, env))
    ensures v == Pass <==>
            && ReferencesGood(p, env) && Distinct(Refs(p, env))
            && RoundsGood(p, env, Refs(p, env), iterations) && SomeOverlap(p, env, iterations)
            && env.deregisterRc == 0 && !env.outputFailed && !env.throws(Finishing)
    ensures v == Fail <==>
            && ReferencesGood(p, env) && Distinct(Refs(p, env))
            && (FailsTogether(p, env, Refs(p, env), iterations) ||
                (RoundsGood(p, env, Refs(p, env), iterations) && env.deregisterRc != 0))
    ensures Matches(fx.log, old(fx.log) + (ReferencesLog(p, env, 0) +
                            if ReferencesGood(p, env) then AfterSetUpLog(p, env, iterations) else []))
  {
    var end, refs := ReferencePass(p, env, fx);
    Associate(old(fx.log), ReferencesLog(p, env, 0), if ReferencesGood(p, env) then AfterSetUpLog(p, env, iterations) else []);
    if end.Stop? { return end.verdict; }
    var distinct := AllDistinct(refs);
    GoodReferencesAreKept(p, env);
    if !distinct {
      if env.throws(Comparing) { return Unwound; }
      ReleaseOrRetain(p, env, fx);
      return Inconclusive;
    }
    v := RoundsAndReading(p, env, fx, refs, iterations);
  }

  method WithFixture(p: Plan, env: Env, fx: Fixture, iterations: int) returns (v: Verdict)
    requires Steady(p, env) && fx.Open() && fx.log == [] && fx.arena.Length == Size(p)
    modifies fx, fx.arena
    ensures fx.Valid() && (fx.released && fx.retained <==> DecidedTwice(p, env))
    ensures v == Pass <==> Passes(p, env, iterations)
    ensures v == Fail <==> Fails(p, env, iterations)
    ensures Closed(fx.log) == ExperimentLog(p, env, iterations)
  {
    if env.throws(Registering) { return Unwound; }
    fx.RegisterMemory(env.registerRc);
    assert fx.log == [Register(env.registerRc)];
    if env.throws(AfterRegister) { return Unwound; }
    if env.registerRc != 0 {
      var _ := fx.Release(0);
      return EnvError;
    }
    var end := CapacityPass(p, env, fx);
    if end.Stop? { return end.verdict; }
    v := ReferencesAndRounds(p, env, fx, iterations);
  }

  /** exp_concurrent.  `objects` is the number of --objects given; `released` and
      `retained` are the fixture's flags at the end of its life. */
  method Experiment(o: Shape, slots: nat, objects: nat, trustworthy: bool, iterations: int, env: Env)
    returns (v: Verdict, log: seq<Op>, released: bool, retained: bool)
    requires Sized(o) && slots <= SIZE_MAX && Steady(Plan(slots, o.slotBytes, o.guard), env)
    ensures var p, admitted := Plan(slots, o.slotBytes, o.guard),
                               Acceptable(o, slots) && (objects == 0 || objects == slots) && trustworthy;
            && (v == Pass <==> admitted && Passes(p, env, iterations))
            && (v == Fail <==> admitted && Fails(p, env, iterations))
            && log == (if admitted then ExperimentLog(p, env, iterations) else [])
            && (released <==> Free in log) && (released || retained <==> admitted)
            && (released && retained <==> admitted && DecidedTwice(p, env))
  {
    var p := Plan(slots, o.slotBytes, o.guard);
    var g := Validate(o, slots, true);
    if g.None? || (objects != 0 && objects != slots) || !trustworthy { return EnvError, [], false, false; }
    var fx := new Fixture(g.value.arena);
    v := WithFixture(p, env, fx, iterations);
    fx.Destroy();
    log, released, retained := fx.log, fx.released, fx.retained;
  }
}
