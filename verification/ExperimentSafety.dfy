/** What the log of the concurrent experiment guarantees, whatever the environment does
    (probe/rig_probe_main.cpp). */
module ExperimentSafety {
  import opened Geometry
  import opened Arena
  import opened Fixture
  import opened ExperimentSpec
  import opened Sequences
  import RigCallback
  import RigRecords

  // --- the log is lawful ---------------------------------------------------------------------------

  predicate Undecided(log: seq<Op>) { Lawful(log) && !Over(log) && MayBeWritten(log) }

  /** Undecided, and every GET so far passed the gate. */
  predicate Live(log: seq<Op>) { Undecided(log) && AllPassed(log) }

  lemma ThenGet(log: seq<Op>, r: Result)
    requires Undecided(log)
    ensures Undecided(log + [GetOp(r)])
    ensures AllPassed(log) && Settled(r) ==> AllPassed(log + [GetOp(r)])
  {
    LawfulNext(log, GetOp(r));
  }

  lemma ThenLook(log: seq<Op>)
    requires Live(log)
    ensures Live(log + [Look])
  {
    LawfulNext(log, Look);
  }

  lemma ThenLeak(log: seq<Op>)
    requires Lawful(log) && !Over(log)
    ensures Lawful(log + [Leak]) && Over(log + [Leak])
  {
    LawfulNext(log, Leak);
    LeakIsIn(log);
  }

  lemma LeakIsIn(log: seq<Op>)
    ensures Leak in log + [Leak]
  {
    assert (log + [Leak])[|log|] == Leak;
  }

  lemma ThenRelease(log: seq<Op>, env: Env)
    requires Live(log)
    ensures Lawful(log + ReleaseLog(env))
  {
    ReleaseIsLawful(log, env.deregisterRc);
  }

  lemma ReferenceGrows(p: Plan, env: Env, k: nat, log: seq<Op>)
    requires k < p.slots && Live(log)
    ensures Lawful(log + ReferenceLog(p, env, k))
    ensures ReferenceGood(p, env, k) ==> Live(log + ReferenceLog(p, env, k))
  {
    var r := env.reference(k);
    ThenCaught(log, env);
    IssuedGrows(log, r, env);
    if Settled(r) { SettledGrows(log, r, env); }
  }

  lemma ThenCaught(log: seq<Op>, env: Env)
    requires Lawful(log) && !Over(log)
    ensures Lawful(log + CaughtLog(env))
  {
    ThenLeak(log);
    assert log + [] == log;
  }

  lemma IssuedGrows(log: seq<Op>, r: Result, env: Env)
    requires Live(log)
    ensures Lawful(log + [GetOp(r), Leak]) && Lawful(log + ([GetOp(r)] + CaughtLog(env)))
  {
    ThenGet(log, r);
    ThenLeak(log + [GetOp(r)]);
    ThenCaught(log + [GetOp(r)], env);
    assert log + [GetOp(r), Leak] == log + [GetOp(r)] + [Leak];
    Associate(log, [GetOp(r)], CaughtLog(env));
  }

  lemma SettledGrows(log: seq<Op>, r: Result, env: Env)
    requires Live(log) && Settled(r)
    ensures var g := GetOp(r);
            && Lawful(log + ([g] + ReleaseLog(env))) && Lawful(log + ([g, Look] + ReleaseLog(env)))
            && Lawful(log + ([g, Look] + CaughtLog(env))) && Live(log + [g, Look])
  {
    var g := GetOp(r);
    ThenGet(log, r);
    ThenRelease(log + [g], env);
    Associate(log, [g], ReleaseLog(env));
    ThenLook(log + [g]);
    assert log + [g] + [Look] == log + [g, Look];
    LookedGrows(log + [g, Look], env);
    Associate(log, [g, Look], CaughtLog(env));
    Associate(log, [g, Look], ReleaseLog(env));
  }

  lemma LookedGrows(log: seq<Op>, env: Env)
    requires Live(log)
    ensures Lawful(log + CaughtLog(env)) && Lawful(log + ReleaseLog(env))
  {
    ThenCaught(log, env);
    ThenRelease(log, env);
  }

  lemma {:induction false} ReferencesGrow(p: Plan, env: Env, k: nat, log: seq<Op>)
    requires k <= p.slots && Live(log) && ReferencesGoodUpTo(p, env, k)
    ensures Lawful(log + ReferencesLog(p, env, k))
    ensures ReferencesGood(p, env) ==> Live(log + ReferencesLog(p, env, k))
    decreases p.slots - k
  {
    if k == p.slots {
      assert log + [] == log;
    } else {
      ReferenceGrows(p, env, k, log);
      var next := log + ReferenceLog(p, env, k);
      if ReferenceGood(p, env, k) {
        ReferencesGrow(p, env, k + 1, next);
        Associate(log, ReferenceLog(p, env, k), ReferencesLog(p, env, k + 1));
      } else {
        assert ReferenceLog(p, env, k) + [] == ReferenceLog(p, env, k);
      }
    }
  }

  lemma {:induction false} RoundGetsGrow(env: Env, it: nat, n: nat, log: seq<Op>)
    requires Undecided(log)
    ensures Undecided(log + RoundGets(env, it, n))
    ensures AllPassed(log) && (forall k :: 0 <= k < n ==> Settled(env.result(it, k))) ==> AllPassed(log + RoundGets(env, it, n))
  {
    if n == 0 {
      assert log + [] == log;
    } else {
      RoundGetsGrow(env, it, n - 1, log);
      ThenGet(log + RoundGets(env, it, n - 1), env.result(it, n - 1));
      Associate(log, RoundGets(env, it, n - 1), [GetOp(env.result(it, n - 1))]);
    }
  }

  lemma {:induction false} LooksGrow(p: Plan, env: Env, it: nat, k: nat, log: seq<Op>)
    requires k <= p.slots && Live(log)
    ensures Live(log + LooksLog(p, env, it, k))
    decreases p.slots - k
  {
    if k == p.slots {
      assert log + [] == log;
    } else {
      var look, rest := if Local(env, it, k) then [] else [Look],
                        if Thrown(env, it, k) then [] else LooksLog(p, env, it, k + 1);
      ThenLook(log);
      assert log + [] == log;
      assert Live(log + look);
      if Thrown(env, it, k) { assert look + [] == look; } else { LooksGrow(p, env, it, k + 1, log + look); }
      Associate(log, look, rest);
    }
  }

  lemma JudgementGrows(p: Plan, env: Env, it: nat, refs: seq<string>, log: seq<Op>)
    requires |refs| == p.slots && Undecided(log) && (AllSettled(p, env, it) ==> AllPassed(log))
    ensures Lawful(log + JudgementLog(p, env, it, refs))
    ensures RoundGood(p, env, it, refs) ==> Live(log + JudgementLog(p, env, it, refs))
  {
    GoodRoundParts(p, env, it, refs);
    assert log + [] == log;
    ThenLeak(log);
    if AllSettled(p, env, it) {
      var looks := LooksLog(p, env, it, 0);
      LooksGrow(p, env, it, 0, log);
      ThenLeak(log + looks);
      ThenRelease(log + looks, env);
      assert log + looks + [] == log + looks;
      Associate(log, looks, VerdictLog(p, env, it, refs));
    }
  }

  lemma RoundGrows(p: Plan, env: Env, it: nat, refs: seq<string>, log: seq<Op>)
    requires |refs| == p.slots && Live(log)
    ensures Lawful(log + RoundLog(p, env, it, refs))
    ensures RoundGood(p, env, it, refs) ==> Live(log + RoundLog(p, env, it, refs))
  {
    ThenLeak(log);
    if env.throws(Spawn(it)) {
      var gets := RoundGets(env, it, Created(p, env, it));
      RoundGetsGrow(env, it, Created(p, env, it), log);
      ThenLeak(log + gets);
      Associate(log, gets, [Leak]);
    } else {
      var gets := RoundGets(env, it, p.slots);
      RoundGetsGrow(env, it, p.slots, log);
      JudgementGrows(p, env, it, refs, log + gets);
      Associate(log, gets, JudgementLog(p, env, it, refs));
    }
    GoodRoundParts(p, env, it, refs);
  }

  lemma {:induction false} RoundsGrow(p: Plan, env: Env, refs: seq<string>, it: nat, iterations: int, log: seq<Op>)
    requires |refs| == p.slots && Live(log) && RoundsGood(p, env, refs, it)
    ensures Lawful(log + RoundsLog(p, env, refs, it, iterations))
    ensures RoundsGood(p, env, refs, iterations) ==> Live(log + RoundsLog(p, env, refs, it, iterations))
    decreases iterations - it
  {
    if it >= iterations {
      assert log + [] == log;
    } else {
      RoundGrows(p, env, it, refs, log);
      var next := log + RoundLog(p, env, it, refs);
      if RoundGood(p, env, it, refs) {
        RoundsGrow(p, env, refs, it + 1, iterations, next);
        Associate(log, RoundLog(p, env, it, refs), RoundsLog(p, env, refs, it + 1, iterations));
      } else {
        assert RoundLog(p, env, it, refs) + [] == RoundLog(p, env, it, refs);
      }
    }
  }

  lemma AfterSetUpGrows(p: Plan, env: Env, iterations: int, log: seq<Op>)
    requires Live(log)
    ensures Lawful(log + AfterSetUpLog(p, env, iterations))
  {
    var refs := Refs(p, env);
    assert log + [] == log;
    ThenRelease(log, env);
    RoundsGrow(p, env, refs, 0, iterations, log);
    var rounds := RoundsLog(p, env, refs, 0, iterations);
    if RoundsGood(p, env, refs, iterations) {
      ThenRelease(log + rounds, env);
      Associate(log, rounds, ReleaseLog(env));
    } else {
      assert rounds + [] == rounds;
    }
  }

  lemma {:induction false} CapacityGrows(p: Plan, env: Env, k: nat, log: seq<Op>)
    requires k <= p.slots && Live(log)
    ensures Lawful(log + CapacityLog(p, env, k))
    decreases p.slots - k
  {
    assert log + [] == log;
    ThenRelease(log, env);
    if k < p.slots { CapacityGrows(p, env, k + 1, log); }
  }

  lemma RegisteredGrows(p: Plan, env: Env, iterations: int)
    ensures Lawful([Register(env.registerRc)] + RegisteredLog(p, env, iterations))
  {
    var log := [Register(env.registerRc)];
    RegisteredAlone(env.registerRc);
    assert log + [] == log;
    if env.registerRc != 0 { LawfulNext(log, Free); } else { ReferencesAndRoundsGrow(p, env, iterations, log); }
  }

  lemma RegisteredAlone(rc: int)
    ensures var log := [Register(rc)]; Lawful(log) && !Over(log) && AllPassed(log) && (MayBeWritten(log) <==> rc == 0)
  {
    var log := [Register(rc)];
    LawfulNext([], Register(rc));
    assert [] + log == log && log[0] == Register(rc);
  }

  lemma ReferencesAndRoundsGrow(p: Plan, env: Env, iterations: int, log: seq<Op>)
    requires Live(log)
    ensures Lawful(log + CapacityLog(p, env, 0))
    ensures Lawful(log + (ReferencesLog(p, env, 0) + if ReferencesGood(p, env) then AfterSetUpLog(p, env, iterations) else []))
  {
    var refs := ReferencesLog(p, env, 0);
    CapacityGrows(p, env, 0, log);
    ReferencesGrow(p, env, 0, log);
    assert refs + [] == refs;
    if ReferencesGood(p, env) {
      AfterSetUpGrows(p, env, iterations, log + refs);
      Associate(log, refs, AfterSetUpLog(p, env, iterations));
    }
  }

  lemma ExperimentIsLawful(p: Plan, env: Env, iterations: int)
    ensures DecidedOnce(ExperimentLog(p, env, iterations))
  {
    RegisteredGrows(p, env, iterations);
    var log := if env.throws(Registering) then [] else [Register(env.registerRc)] + RegisteredLog(p, env, iterations);
    if !Over(log) { ThenLeak(log); }
    OverAtTheEnd(Closed(log));
  }

  // --- the GETs are the program's ---------------------------------------------------------------------

  /** The GETs of a log, in order. */
  function Gets(log: seq<Op>): seq<Op> {
    if log == [] then []
    else Gets(log[..|log| - 1]) + if log[|log| - 1].Get? then [log[|log| - 1]] else []
  }

  lemma {:induction false} GetsConcat(a: seq<Op>, b: seq<Op>)
    ensures Gets(a + b) == Gets(a) + Gets(b)
    decreases |b|
  {
    if b == [] {
      assert a + b == a;
    } else {
      var n := |b| - 1;
      assert (a + b)[..|a| + n] == a + b[..n] && (a + b)[|a| + n] == b[n];
      GetsConcat(a, b[..n]);
    }
  }

  lemma GetsOne(op: Op)
    ensures Gets([op]) == if op.Get? then [op] else []
  {
    assert [op][..0] == [];
  }

  predicate NoGets(ops: seq<Op>) { forall i :: 0 <= i < |ops| ==> !ops[i].Get? }

  lemma {:induction false} NoneToGet(ops: seq<Op>)
    requires NoGets(ops)
    ensures Gets(ops) == []
  {
    if ops != [] { NoneToGet(ops[..|ops| - 1]); }
  }

  /** The references from slot `k` on. */
  function ReferenceProgram(p: Plan, env: Env, k: nat): seq<Op>
    requires k <= p.slots
    decreases p.slots - k
  {
    if k == p.slots then [] else [GetOp(env.reference(k))] + ReferenceProgram(p, env, k + 1)
  }

  /** The rounds from `it` on, slot by slot. */
  function RoundsProgram(p: Plan, env: Env, it: nat, iterations: int): seq<Op>
    decreases iterations - it
  {
    if it >= iterations then [] else RoundGets(env, it, p.slots) + RoundsProgram(p, env, it + 1, iterations)
  }

  /** Every GET of a complete run, in program order. */
  function Program(p: Plan, env: Env, iterations: int): seq<Op> {
    ReferenceProgram(p, env, 0) + RoundsProgram(p, env, 0, iterations)
  }

  lemma PrefixUnder(c: seq<Op>, a: seq<Op>, b: seq<Op>)
    requires a <= b
    ensures c + a <= c + b
  {}

  lemma ReleaseHasNoGets(env: Env)
    ensures Gets(ReleaseLog(env)) == []
  {
    NoneToGet(ReleaseLog(env));
  }

  lemma GetComesFirst(p: Plan, env: Env, k: nat)
    requires k < p.slots && !env.throws(Reference(k))
    ensures var log := ReferenceLog(p, env, k); log == [GetOp(env.reference(k))] + log[1..] && NoGets(log[1..])
  {}

  lemma ReferenceGets(p: Plan, env: Env, k: nat)
    requires k < p.slots
    ensures var g := GetOp(env.reference(k));
            Gets(ReferenceLog(p, env, k)) == [g] || (Gets(ReferenceLog(p, env, k)) == [] && !ReferenceGood(p, env, k))
  {
    var g := GetOp(env.reference(k));
    var log := ReferenceLog(p, env, k);
    if env.throws(Reference(k)) {
      NoneToGet(log);
    } else {
      GetComesFirst(p, env, k);
      GetsConcat([g], log[1..]);
      GetsOne(g);
      NoneToGet(log[1..]);
    }
  }

  lemma {:induction false} ReferencesIssue(p: Plan, env: Env, k: nat)
    requires k <= p.slots && ReferencesGoodUpTo(p, env, k)
    ensures Gets(ReferencesLog(p, env, k)) <= ReferenceProgram(p, env, k)
    ensures ReferencesGood(p, env) ==> Gets(ReferencesLog(p, env, k)) == ReferenceProgram(p, env, k)
    decreases p.slots - k
  {
    if k < p.slots {
      ReferenceGets(p, env, k);
      if ReferenceGood(p, env, k) {
        ReferencesIssue(p, env, k + 1);
        GetsConcat(ReferenceLog(p, env, k), ReferencesLog(p, env, k + 1));
      } else {
        GetsConcat(ReferenceLog(p, env, k), []);
      }
    }
  }

  lemma GetOpIsGet(r: Result)
    ensures GetOp(r).Get?
  {}

  lemma {:induction false} RoundGetsAreGets(env: Env, it: nat, n: nat)
    ensures Gets(RoundGets(env, it, n)) == RoundGets(env, it, n)
  {
    if n > 0 {
      hide Gets, GetOp;
      var op := GetOp(env.result(it, n - 1));
      assert op.Get? by { GetOpIsGet(env.result(it, n - 1)); }
      RoundGetsAreGets(env, it, n - 1);
      GetsConcat(RoundGets(env, it, n - 1), [op]);
      GetsOne(op);
    }
  }

  lemma {:induction false} FewerGets(env: Env, it: nat, m: nat, n: nat)
    requires m <= n
    ensures RoundGets(env, it, m) <= RoundGets(env, it, n)
    decreases n
  {
    if m < n { FewerGets(env, it, m, n - 1); }
  }

  lemma {:induction false} LooksHaveNoGets(p: Plan, env: Env, it: nat, k: nat)
    requires k <= p.slots
    ensures NoGets(LooksLog(p, env, it, k))
    decreases p.slots - k
  {
    if k < p.slots { LooksHaveNoGets(p, env, it, k + 1); }
  }

  lemma JudgementHasNoGets(p: Plan, env: Env, it: nat, refs: seq<string>)
    requires |refs| == p.slots
    ensures Gets(JudgementLog(p, env, it, refs)) == []
  {
    LooksHaveNoGets(p, env, it, 0);
    NoneToGet(JudgementLog(p, env, it, refs));
  }

  lemma RoundIssues(p: Plan, env: Env, it: nat, refs: seq<string>)
    requires |refs| == p.slots
    ensures Gets(RoundLog(p, env, it, refs)) <= RoundGets(env, it, p.slots)
    ensures RoundGood(p, env, it, refs) ==> Gets(RoundLog(p, env, it, refs)) == RoundGets(env, it, p.slots)
  {
    GoodRoundParts(p, env, it, refs);
    GetsOne(Leak);
    if Poisonable(p, env, it, refs) {
      var n := if env.throws(Spawn(it)) then Created(p, env, it) else p.slots;
      var rest := if env.throws(Spawn(it)) then [Leak] else JudgementLog(p, env, it, refs);
      GetsConcat(RoundGets(env, it, n), rest);
      RoundGetsAreGets(env, it, n);
      FewerGets(env, it, n, p.slots);
      JudgementHasNoGets(p, env, it, refs);
    }
  }

  lemma {:induction false} RoundsIssue(p: Plan, env: Env, refs: seq<string>, it: nat, iterations: int)
    requires |refs| == p.slots && RoundsGood(p, env, refs, it)
    ensures Gets(RoundsLog(p, env, refs, it, iterations)) <= RoundsProgram(p, env, it, iterations)
    ensures RoundsGood(p, env, refs, iterations) ==>
              Gets(RoundsLog(p, env, refs, it, iterations)) == RoundsProgram(p, env, it, iterations)
    decreases iterations - it
  {
    if it < iterations {
      RoundIssues(p, env, it, refs);
      if RoundGood(p, env, it, refs) {
        RoundsIssue(p, env, refs, it + 1, iterations);
        GetsConcat(RoundLog(p, env, it, refs), RoundsLog(p, env, refs, it + 1, iterations));
      } else {
        GetsConcat(RoundLog(p, env, it, refs), []);
        assert RoundGets(env, it, p.slots) <= RoundsProgram(p, env, it, iterations);
      }
    }
  }

  lemma AfterSetUpIssues(p: Plan, env: Env, iterations: int)
    ensures Gets(AfterSetUpLog(p, env, iterations)) <= RoundsProgram(p, env, 0, iterations)
    ensures Distinct(Refs(p, env)) && RoundsGood(p, env, Refs(p, env), iterations) ==>
              Gets(AfterSetUpLog(p, env, iterations)) == RoundsProgram(p, env, 0, iterations)
  {
    var refs := Refs(p, env);
    ReleaseHasNoGets(env);
    RoundsIssue(p, env, refs, 0, iterations);
    GetsConcat(RoundsLog(p, env, refs, 0, iterations), if RoundsGood(p, env, refs, iterations) then ReleaseLog(env) else []);
  }

  lemma {:induction false} CapacityHasNoGets(p: Plan, env: Env, k: nat)
    requires k <= p.slots
    ensures Gets(CapacityLog(p, env, k)) == []
    decreases p.slots - k
  {
    ReleaseHasNoGets(env);
    if k < p.slots { CapacityHasNoGets(p, env, k + 1); }
  }

  lemma RegisteredIssues(p: Plan, env: Env, iterations: int)
    ensures Gets(RegisteredLog(p, env, iterations)) <= Program(p, env, iterations)
    ensures SetUp(p, env) && RoundsGood(p, env, Refs(p, env), iterations) ==>
              Gets(RegisteredLog(p, env, iterations)) == Program(p, env, iterations)
  {
    GetsOne(Free);
    CapacityHasNoGets(p, env, 0);
    SetUpIssues(p, env, iterations);
  }

  lemma SetUpIssues(p: Plan, env: Env, iterations: int)
    ensures var refs, after := ReferencesLog(p, env, 0), AfterSetUpLog(p, env, iterations);
            && Gets(refs + []) <= Program(p, env, iterations)
            && (ReferencesGood(p, env) ==> Gets(refs + after) <= Program(p, env, iterations))
            && (ReferencesGood(p, env) && Distinct(Refs(p, env)) && RoundsGood(p, env, Refs(p, env), iterations) ==>
                  Gets(refs + after) == Program(p, env, iterations))
  {
    ReferencesIssue(p, env, 0);
    AfterSetUpIssues(p, env, iterations);
    var refs, after := ReferencesLog(p, env, 0), AfterSetUpLog(p, env, iterations);
    var first, rest := ReferenceProgram(p, env, 0), RoundsProgram(p, env, 0, iterations);
    GetsConcat(refs, after);
    GetsConcat(refs, []);
    PrefixUnder(first, Gets(after), rest);
    PrefixOfFirst(Gets(refs), first, rest);
  }

  lemma PrefixOfFirst(a: seq<Op>, b: seq<Op>, c: seq<Op>)
    requires a <= b
    ensures a <= b + c && a + [] <= b + c
  {}

  /** The GETs in the log are a prefix of the program's, in order; a run whose rounds are
      all good, and so every PASS, issues all of them. */
  lemma IssuedInOrder(p: Plan, env: Env, iterations: int)
    ensures Gets(ExperimentLog(p, env, iterations)) <= Program(p, env, iterations)
    ensures SetUp(p, env) && RoundsGood(p, env, Refs(p, env), iterations) ==>
              Gets(ExperimentLog(p, env, iterations)) == Program(p, env, iterations)
  {
    hide RegisteredLog, Program, RoundsGood, ReferencesGood, CapacityOk;
    var reg := Register(env.registerRc);
    var log := if env.throws(Registering) then [] else [reg] + RegisteredLog(p, env, iterations);
    RegisteredIssues(p, env, iterations);
    GetsConcat([reg], RegisteredLog(p, env, iterations));
    GetsOne(reg);
    ClosingGetsNothing(log);
  }

  lemma ClosingGetsNothing(log: seq<Op>)
    ensures Gets(Closed(log)) == Gets(log)
  {
    GetsConcat(log, [Leak]);
    GetsOne(Leak);
  }

  // --- what the log guarantees --------------------------------------------------------------------------

  /** The registration calls in the log returned what the SDK answered. */
  predicate Answered(env: Env, log: seq<Op>) {
    forall i :: 0 <= i < |log| ==>
      (log[i].Register? ==> log[i].rc == env.registerRc) && (log[i].Deregister? ==> log[i].rc == env.deregisterRc)
  }

  lemma ReferenceAnswered(p: Plan, env: Env, k: nat)
    requires k < p.slots
    ensures Answered(env, ReferenceLog(p, env, k))
  {}

  lemma {:induction false} ReferencesAnswered(p: Plan, env: Env, k: nat)
    requires k <= p.slots
    ensures Answered(env, ReferencesLog(p, env, k))
    decreases p.slots - k
  {
    if k < p.slots {
      ReferencesAnswered(p, env, k + 1);
      ReferenceAnswered(p, env, k);
      AnsweredBoth(env, ReferenceLog(p, env, k), ReferencesLog(p, env, k + 1));
      AnsweredBoth(env, ReferenceLog(p, env, k), []);
    }
  }

  lemma {:induction false} RoundGetsAnswered(env: Env, it: nat, n: nat)
    ensures Answered(env, RoundGets(env, it, n))
  {
    if n > 0 { RoundGetsAnswered(env, it, n - 1); }
  }

  lemma {:induction false} LooksAnswered(p: Plan, env: Env, it: nat, k: nat)
    requires k <= p.slots
    ensures Answered(env, LooksLog(p, env, it, k))
    decreases p.slots - k
  {
    if k < p.slots { LooksAnswered(p, env, it, k + 1); }
  }

  lemma RoundAnswered(p: Plan, env: Env, it: nat, refs: seq<string>)
    requires |refs| == p.slots
    ensures Answered(env, RoundLog(p, env, it, refs))
  {
    RoundGetsAnswered(env, it, p.slots);
    RoundGetsAnswered(env, it, Created(p, env, it));
    LooksAnswered(p, env, it, 0);
    assert Answered(env, VerdictLog(p, env, it, refs));
    assert Answered(env, JudgementLog(p, env, it, refs));
  }

  lemma {:induction false} RoundsAnswered(p: Plan, env: Env, refs: seq<string>, it: nat, iterations: int)
    requires |refs| == p.slots
    ensures Answered(env, RoundsLog(p, env, refs, it, iterations))
    decreases iterations - it
  {
    if it < iterations {
      RoundAnswered(p, env, it, refs);
      RoundsAnswered(p, env, refs, it + 1, iterations);
    }
  }

  lemma {:induction false} CapacityAnswered(p: Plan, env: Env, k: nat)
    requires k <= p.slots
    ensures Answered(env, CapacityLog(p, env, k))
    decreases p.slots - k
  {
    if k < p.slots { CapacityAnswered(p, env, k + 1); }
  }

  lemma RegisteredAnswered(p: Plan, env: Env, iterations: int)
    ensures Answered(env, RegisteredLog(p, env, iterations))
  {
    CapacityAnswered(p, env, 0);
    ReferencesAnswered(p, env, 0);
    AfterSetUpAnswered(p, env, iterations);
    AnsweredBoth(env, ReferencesLog(p, env, 0), AfterSetUpLog(p, env, iterations));
    AnsweredBoth(env, ReferencesLog(p, env, 0), []);
  }

  lemma AnsweredBoth(env: Env, a: seq<Op>, b: seq<Op>)
    requires Answered(env, a) && Answered(env, b)
    ensures Answered(env, a + b)
  {}

  lemma AfterSetUpAnswered(p: Plan, env: Env, iterations: int)
    ensures Answered(env, AfterSetUpLog(p, env, iterations))
  {
    var rounds := RoundsLog(p, env, Refs(p, env), 0, iterations);
    RoundsAnswered(p, env, Refs(p, env), 0, iterations);
    AnsweredBoth(env, rounds, ReleaseLog(env));
    AnsweredBoth(env, rounds, []);
  }

  lemma ExperimentAnswered(p: Plan, env: Env, iterations: int)
    ensures Answered(env, ExperimentLog(p, env, iterations))
  {
    RegisteredAnswered(p, env, iterations);
  }

  /** For every environment: the fixture is decided exactly once; every landing is read,
      and every release attempted, only when each GET issued before is harmless; the
      arena is freed only if registration failed or deregistration succeeded before. */
  lemma ExperimentIsSafe(p: Plan, env: Env, iterations: int)
    ensures var log := ExperimentLog(p, env, iterations);
            && DecidedOnce(log) && Answered(env, log)
            && (forall j, i :: 0 <= j < i < |log| && Effect(log[i]) && log[j].Get? ==> Harmless(log[j].ctx))
            && (Free in log ==> Leak !in log && log[0] == Register(env.registerRc) &&
                                (env.registerRc != 0 || (env.deregisterRc == 0 && Deregister(0) in log)))
  {
    var log := ExperimentLog(p, env, iterations);
    ExperimentIsLawful(p, env, iterations);
    ExperimentAnswered(p, env, iterations);
    forall j, i | 0 <= j < i < |log| && Effect(log[i]) && log[j].Get? ensures Harmless(log[j].ctx) {
      NothingOutstanding(log, j, i);
    }
    if Free in log { FreedMeans(p, env, iterations); }
  }

  lemma FreedMeans(p: Plan, env: Env, iterations: int)
    requires Free in ExperimentLog(p, env, iterations)
    ensures var log := ExperimentLog(p, env, iterations);
            Leak !in log && log[0] == Register(env.registerRc) &&
            (env.registerRc != 0 || (env.deregisterRc == 0 && Deregister(0) in log))
  {
    var log := ExperimentLog(p, env, iterations);
    ExperimentIsLawful(p, env, iterations);
    ExperimentAnswered(p, env, iterations);
    var i :| 0 <= i < |log| && log[i] == Free;
    FreedOnlyWhenUnregistered(log, i);
    assert !env.throws(Registering);
    assert log[0] == Register(env.registerRc);
    if env.registerRc == 0 {
      var k :| 0 <= k < i && log[..i][k] == Deregister(0);
      assert log[k] == Deregister(0);
    }
  }

  // --- released, and retained after it -------------------------------------------------------------------

  lemma {:induction false} ReferencesFree(p: Plan, env: Env, j: nat, k: nat)
    requires j <= k < p.slots && ReferencesGoodUpTo(p, env, k)
    requires Free in ReferenceLog(p, env, k)
    ensures Free in ReferencesLog(p, env, j)
    decreases k - j
  {
    hide ReferenceLog, ReferenceGood;
    var rest := if ReferenceGood(p, env, j) then ReferencesLog(p, env, j + 1) else [];
    if j < k { ReferencesFree(p, env, j + 1, k); }
    InEither(Free, ReferenceLog(p, env, j), rest);
  }

  lemma InEither(op: Op, a: seq<Op>, b: seq<Op>)
    requires op in a || op in b
    ensures op in a + b
  {}

  /** The reference GET that releases, and what it leaves in the log. */
  lemma ReleasingFrees(p: Plan, env: Env, k: nat)
    requires k < p.slots && ReferenceReleases(p, env, k) && env.deregisterRc == 0
    ensures !ReferenceGood(p, env, k) && Free in ReferenceLog(p, env, k)
    ensures var get := GetOp(env.reference(k));
            ReferenceLog(p, env, k) == if env.reference(k).ctx.localFailure then [get, Deregister(0), Free]
                                       else [get, Look, Deregister(0), Free]
  {
    var get := GetOp(env.reference(k));
    assert ReleaseLog(env)[1] == Free;
    InEither(Free, [get], ReleaseLog(env));
    InEither(Free, [get, Look], ReleaseLog(env));
  }

  /** A fixture that ends with both flags set was freed, and nothing of it was leaked; the
      reading is neither PASS nor FAIL. */
  lemma TwiceIsFreed(p: Plan, env: Env, iterations: int)
    requires DecidedTwice(p, env)
    ensures var log := ExperimentLog(p, env, iterations); Free in log && Leak !in log
    ensures !Passes(p, env, iterations) && !Fails(p, env, iterations)
  {
    var k :| 0 <= k < p.slots && ReferencesGoodUpTo(p, env, k) && ReleasedThenRetained(p, env, k);
    ReleasingFrees(p, env, k);
    ReferencesFree(p, env, 0, k);
    FreedMeans(p, env, iterations);
  }

  /** One slot whose reference GET came back empty-handed: the fixture is deregistered and
      freed, and then the report of that exit throws. */
  function ThrowingReport(): Env {
    Env(0, 0, k => 1, k => Result(RigCallback.Exec(false, []).ctx, Sdk(true, -1)), (k, i) => 0,
        (it, k) => Result(RigCallback.Exec(false, []).ctx, Sdk(true, -1)), (it, i) => 0, it => 0,
        bytes => "", at => at == ReferenceFinish(0), false)
  }

  lemma ReportThrowsAfterRelease(iterations: int)
    ensures DecidedTwice(Plan(1, 1, 1), ThrowingReport())
    ensures var get := GetOp(ThrowingReport().reference(0));
            ExperimentLog(Plan(1, 1, 1), ThrowingReport(), iterations) == [Register(0), get, Look, Deregister(0), Free]
  {
    var p, env := Plan(1, 1, 1), ThrowingReport();
    NothingCameBack(p, env);
    assert ReferencesGoodUpTo(p, env, 0);
    ReleasingFrees(p, env, 0);
    OnlyReference(p, env, iterations);
  }

  lemma NothingCameBack(p: Plan, env: Env)
    requires p == Plan(1, 1, 1) && env == ThrowingReport()
    ensures ReleasedThenRetained(p, env, 0) && !env.reference(0).ctx.localFailure
  {
    assert !NativeOk(p, env.reference(0));
  }

  /** With one slot, the run that releases in the reference pass has its log. */
  lemma OnlyReference(p: Plan, env: Env, iterations: int)
    requires p.slots == 1 && Installed(p, env) && ReferenceReleases(p, env, 0) && env.deregisterRc == 0
    ensures ExperimentLog(p, env, iterations) == [Register(0)] + ReferenceLog(p, env, 0)
  {
    var first := ReferenceLog(p, env, 0);
    ReleasingFrees(p, env, 0);
    assert ReferencesLog(p, env, 0) == first + [] && first + [] == first;
    assert RegisteredLog(p, env, iterations) == first + [];
    InEither(Free, [Register(0)], first);
  }

  // --- what a PASS means ---------------------------------------------------------------------------------

  /** The offset lies in some payload. */
  ghost predicate InSomePayload(p: Plan, at: nat) {
    exists k :: 0 <= k < p.slots && InPayload(at, k, p.guard, p.payload)
  }

  /** The byte is what the poison of its cell put there. */
  ghost predicate StillPoison(p: Plan, mem: seq<Byte>, at: nat, nonce: bv32)
    requires at < |mem|
  {
    exists k :: 0 <= k < p.slots && InCell(at, k, p.guard, p.payload) &&
                mem[at] == PoisonByte(nonce, at - MakeCell(k, p.guard, p.payload).base)
  }

  /** A PASS means, for every round: every slot returned S from one qualified callback;
      its payload has its own reference digest, which is neither the round's poison
      nor the reference of another slot; every other byte of the arena is still poison. */
  lemma PassMeans(p: Plan, env: Env, iterations: int, it: nat)
    requires p.guard > 0 && Passes(p, env, iterations) && it < iterations
    ensures forall k :: 0 <= k < p.slots ==>
              var d := env.digest(Landing(p, RoundImage(p, env, it), k));
              && NativeOk(p, env.result(it, k)) && Settled(env.result(it, k))
              && d == Refs(p, env)[k] && d != PoisonDigest(p, env, Nonce(it))
              && forall j :: 0 <= j < p.slots && j != k ==> d != Refs(p, env)[j]
    ensures forall at :: 0 <= at < Size(p) && !InSomePayload(p, at) ==> StillPoison(p, RoundImage(p, env, it), at, Nonce(it))
  {
    var refs := Refs(p, env);
    assert RoundGood(p, env, it, refs);
    forall k | 0 <= k < p.slots
      ensures var d := env.digest(Landing(p, RoundImage(p, env, it), k));
              && NativeOk(p, env.result(it, k)) && Settled(env.result(it, k))
              && d == refs[k] && d != PoisonDigest(p, env, Nonce(it))
    {
      assert Undisturbed(p, env, it, k, refs[k]) && SlotGood(p, env, it, k, refs[k]);
    }
    forall at | 0 <= at < Size(p) && !InSomePayload(p, at) ensures StillPoison(p, RoundImage(p, env, it), at, Nonce(it)) {
      OutsideIsPoison(p, env, it, refs, at);
    }
  }

  lemma OutsideIsPoison(p: Plan, env: Env, it: nat, refs: seq<string>, at: nat)
    requires p.guard > 0 && |refs| == p.slots && RoundGood(p, env, it, refs)
    requires at < Size(p) && !InSomePayload(p, at)
    ensures StillPoison(p, RoundImage(p, env, it), at, Nonce(it))
  {
    var k := CellOf(at, p.slots, p.guard, p.payload);
    var c := MakeCell(k, p.guard, p.payload);
    assert SlotGood(p, env, it, k, refs[k]);
    CellFits(k, p.slots, p.guard, p.payload);
    assert Intact(RoundImage(p, env, it), c, p.payload, Nonce(it));
    assert !InPayload(at, k, p.guard, p.payload);
    var i := at - c.base;
    assert RoundImage(p, env, it)[c.base + i] == PoisonByte(Nonce(it), i);
  }

  /** Whatever its callbacks did to end in this context, the GET had one, which put its
      request on the wire, got a qualified receipt for it, and was counted. */
  ghost predicate Whole(ctx: RigCallback.Context) {
    forall guard, events | RigCallback.Returned(RigCallback.Exec(guard, events)) ::
      RigCallback.Exec(guard, events).ctx == ctx ==> RigRecords.SoleAndWhole(RigCallback.Exec(guard, events))
  }

  lemma NativeOkIsWhole(p: Plan, r: Result)
    requires NativeOk(p, r) && Settled(r)
    ensures Whole(r.ctx)
  {
    forall guard, events | RigCallback.Returned(RigCallback.Exec(guard, events)) && RigCallback.Exec(guard, events).ctx == r.ctx
      ensures RigRecords.SoleAndWhole(RigCallback.Exec(guard, events))
    {
      RigRecords.QualifiedRecordIsWhole(guard, events, r.sdk.present);
    }
  }

  /** After a PASS every GET the program lists was issued, and each of them was made whole
      by its only callback. */
  lemma PassedGetsAreWhole(p: Plan, env: Env, iterations: int)
    requires Passes(p, env, iterations)
    ensures Gets(ExperimentLog(p, env, iterations)) == Program(p, env, iterations)
    ensures forall k :: 0 <= k < p.slots ==> Whole(env.reference(k).ctx)
    ensures forall it, k :: 0 <= it < iterations && 0 <= k < p.slots ==> Whole(env.result(it, k).ctx)
  {
    IssuedInOrder(p, env, iterations);
    forall k | 0 <= k < p.slots ensures Whole(env.reference(k).ctx) {
      assert ReferenceGood(p, env, k);
      NativeOkIsWhole(p, env.reference(k));
    }
    forall it, k | 0 <= it < iterations && 0 <= k < p.slots ensures Whole(env.result(it, k).ctx) {
      var refs := Refs(p, env);
      assert RoundGood(p, env, it, refs);
      assert Undisturbed(p, env, it, k, refs[k]) && SlotGood(p, env, it, k, refs[k]);
      NativeOkIsWhole(p, env.result(it, k));
    }
  }
}
