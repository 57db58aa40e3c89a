/** The single-slot GET shared by the diagnostic and the guard experiment
    (probe/rig_probe_main.cpp). */
module SingleGet {
  import opened Options
  import opened Geometry
  import opened Arena
  import opened Fixture
  import opened Sequences
  import RigCallback
  import GuardWitness

  /** Where an exception may be thrown. */
  datatype Point =
    | Registering | AfterRegister | Poisoning | AfterGet | Reading | AfterReading
    | Concluding  // any report after the release: nothing but `main` catches it

  /** The environment's answers. */
  datatype Env = Env(
    trustworthy: bool, registerRc: int, deregisterRc: int, capacity: int, nonce: bv32,
    result: Result, memory: nat -> Byte, digest: seq<Byte> -> string, throws: Point -> bool, outputFailed: bool)

  /** What the caller asked for beside the geometry. */
  datatype Ask = Ask(guard: bool, expectSha: string, declaredUnknown: bool)

  function TheCell(o: Shape): Cell { MakeCell(0, o.guard, o.slotBytes) }

  function Requested(o: Shape): int { Last(o) - First(o) + 1 }

  function Expected(o: Shape): int { if o.expected.Some? then o.expected.value else Requested(o) }

  /** The arena once the GET has returned. */
  function Image(o: Shape, env: Env): (mem: seq<Byte>)
    ensures |mem| == TheCell(o).size
  {
    seq(TheCell(o).size, i requires 0 <= i < TheCell(o).size => env.memory(i))
  }

  function LandingDigest(o: Shape, env: Env): string
    requires 0 <= Expected(o) <= o.slotBytes
  {
    env.digest(Image(o, env)[o.guard..o.guard + Expected(o)])
  }

  function PoisonDigest(o: Shape, env: Env): string
    requires 0 <= Expected(o) <= o.slotBytes
  {
    env.digest(Poison(TheCell(o).size, env.nonce)[o.guard..o.guard + Expected(o)])
  }

  predicate Untouched(o: Shape, env: Env)
    requires 0 <= Expected(o)
  {
    Intact(Image(o, env), TheCell(o), Expected(o), env.nonce)
  }

  // --- how far a run comes ------------------------------------------------------------------------

  /** The poison cannot be told from the expected payload. */
  predicate Collides(o: Shape, ask: Ask, env: Env)
    requires Acceptable(o, 1)
  {
    Expected(o) > 0 && ask.expectSha != "" && PoisonDigest(o, env) == ask.expectSha
  }

  /** The GET is issued. */
  predicate Issued(o: Shape, ask: Ask, env: Env)
    requires Acceptable(o, 1)
  {
    && !env.throws(Registering) && !env.throws(AfterRegister) && env.registerRc == 0
    && env.capacity >= Requested(o) && !env.throws(Poisoning) && !Collides(o, ask, env)
  }

  predicate GatePassed(ask: Ask, env: Env) {
    !env.throws(AfterGet) && !ask.declaredUnknown && !RigCallback.Held(env.result.ctx, env.result.sdk.present)
  }

  /** The landing is read, and what it shows can be judged. */
  predicate Observed(o: Shape, ask: Ask, env: Env)
    requires Acceptable(o, 1)
  {
    Issued(o, ask, env) && GatePassed(ask, env) && !env.throws(Reading) && !env.throws(AfterReading)
  }

  /** The reading that is due is also given. */
  predicate Concluded(o: Shape, ask: Ask, env: Env)
    requires Acceptable(o, 1)
  {
    Observed(o, ask, env) && !env.throws(Concluding)
  }

  // --- the due verdict -------------------------------------------------------------------------------

  /** The payload is the expected one and nothing else of the cell changed. */
  predicate Delivered(o: Shape, ask: Ask, env: Env)
    requires Acceptable(o, 1)
  {
    ask.expectSha != "" && LandingDigest(o, env) == ask.expectSha && Untouched(o, env)
  }

  predicate Succeeded(env: Env) { env.result.sdk.present && env.result.sdk.value >= 0 }

  /** What a PASS of the diagnostic stands for. */
  predicate PlainPass(o: Shape, ask: Ask, env: Env)
    requires Acceptable(o, 1)
  {
    && Delivered(o, ask, env)
    && env.result.ctx.invocations == 1 && env.result.sdk.present && env.result.sdk.value == Expected(o)
  }

  /** What a PASS of the guard experiment stands for. */
  predicate GuardPass(o: Shape, ask: Ask, env: Env)
    requires Acceptable(o, 1)
  {
    var ctx := env.result.ctx;
    && Delivered(o, ask, env)
    && ctx.invocations >= 2 && ctx.httpAttempts <= 1 && !Succeeded(env)
    && GuardWitness.Witnessed(ctx.attempts)
    && !(Expected(o) > 0 && LandingDigest(o, env) == PoisonDigest(o, env))
  }

  /** With an expected digest, whatever does not pass the diagnostic fails it. */
  predicate PlainFail(o: Shape, ask: Ask, env: Env)
    requires Acceptable(o, 1)
  {
    ask.expectSha != "" && !PlainPass(o, ask, env)
  }

  /** The guard was exercised, and broke. */
  predicate GuardFail(o: Shape, env: Env)
    requires Acceptable(o, 1)
  {
    var ctx := env.result.ctx;
    && ctx.attempts != [] && ctx.attempts[0].injected && ctx.invocations >= 2
    && (ctx.httpAttempts > 1 || Succeeded(env) || !Untouched(o, env))
  }

  /** What is due once the landing can be judged, the completeness of the output apart. */
  predicate DuePass(o: Shape, ask: Ask, env: Env)
    requires Acceptable(o, 1)
  {
    && env.deregisterRc == 0 && !env.result.ctx.evidenceLost
    && if ask.guard then GuardPass(o, ask, env) else PlainPass(o, ask, env)
  }

  predicate DueFail(o: Shape, ask: Ask, env: Env)
    requires Acceptable(o, 1)
  {
    env.deregisterRc != 0 ||
    (!env.result.ctx.evidenceLost && if ask.guard then GuardFail(o, env) else PlainFail(o, ask, env))
  }

  predicate Passes(o: Shape, ask: Ask, env: Env) {
    Acceptable(o, 1) && env.trustworthy && Concluded(o, ask, env) && DuePass(o, ask, env) && !env.outputFailed
  }

  predicate Fails(o: Shape, ask: Ask, env: Env) {
    Acceptable(o, 1) && env.trustworthy && Concluded(o, ask, env) && DueFail(o, ask, env)
  }

  // --- the fixture's log ------------------------------------------------------------------------------

  function TheGet(env: Env): Op { Get(env.result.ctx, env.result.sdk.present) }

  function AfterGetLog(ask: Ask, env: Env): seq<Op> {
    if !GatePassed(ask, env) then []
    else if env.throws(Reading) || env.throws(AfterReading) then [Look]
    else [Look] + Released(env.deregisterRc)
  }

  function RegisteredLog(o: Shape, ask: Ask, env: Env): seq<Op>
    requires Acceptable(o, 1)
  {
    if env.throws(AfterRegister) then []
    else if env.registerRc != 0 then [Free]
    else if env.capacity < Requested(o) || env.throws(Poisoning) then Released(env.deregisterRc)
    else if Collides(o, ask, env) then []
    else [TheGet(env)] + AfterGetLog(ask, env)
  }

  /** The whole life of the fixture. */
  function SingleLog(o: Shape, ask: Ask, env: Env): seq<Op>
    requires Acceptable(o, 1)
  {
    Closed(if env.throws(Registering) then [] else [Register(env.registerRc)] + RegisteredLog(o, ask, env))
  }

  // --- as it runs -----------------------------------------------------------------------------------------

  method JudgeGuard(o: Shape, ask: Ask, env: Env, digest: string, outside: bool) returns (v: Verdict)
    requires Acceptable(o, 1) && digest == LandingDigest(o, env) && outside == Untouched(o, env)
    ensures v == Pass <==> GuardPass(o, ask, env)
    ensures v == Fail <==> GuardFail(o, env)
    ensures v in {Pass, Fail, Inconclusive}
  {
    var ctx := env.result.ctx;
    var landingPoison := Expected(o) > 0 && digest == PoisonDigest(o, env);
    var injected := ctx.attempts != [] && ctx.attempts[0].injected;
    if !injected { return Inconclusive; }
    if ctx.invocations < 2 { return Inconclusive; }
    var ok, _ := GuardWitness.Evaluate(ctx.attempts);
    if ctx.httpAttempts > 1 { return Fail; }
    if env.result.sdk.present && env.result.sdk.value >= 0 { return Fail; }
    if !outside { return Fail; }
    if !ok || landingPoison || ask.expectSha == "" || digest != ask.expectSha { return Inconclusive; }
    return Pass;
  }

  method JudgePlain(o: Shape, ask: Ask, env: Env, digest: string, outside: bool) returns (v: Verdict)
    requires Acceptable(o, 1) && digest == LandingDigest(o, env) && outside == Untouched(o, env)
    ensures v == Pass <==> PlainPass(o, ask, env)
    ensures v == Fail <==> PlainFail(o, ask, env)
    ensures v in {Pass, Fail, Inconclusive}
  {
    if ask.expectSha == "" { return Inconclusive; }
    var oneCallback := env.result.ctx.invocations == 1;
    var rcOk := env.result.sdk.present && env.result.sdk.value == Expected(o);
    return if oneCallback && rcOk && digest == ask.expectSha && outside then Pass else Fail;
  }

  /** Up to and including the GET; `Some` is an early reading. */
  method Prepare(o: Shape, ask: Ask, env: Env, fx: Fixture) returns (r: Option<Verdict>)
    requires Acceptable(o, 1) && TheCell(o).size == fx.arena.Length && fx.Open() && fx.log == []
    modifies fx, fx.arena
    ensures r.None? <==> Issued(o, ask, env)
    ensures r.None? ==>
              fx.Open() && fx.registered && fx.arena[..] == Image(o, env) && fx.log == [Register(0), TheGet(env)]
    ensures r.Some? ==>
              fx.Proper() && r.value in {EnvError, Unwound} && Closed(fx.log) == SingleLog(o, ask, env)
  {
    if env.throws(Registering) { return Some(Unwound); }
    fx.RegisterMemory(env.registerRc);
    assert fx.log == [Register(env.registerRc)];
    if env.throws(AfterRegister) { return Some(Unwound); }
    if env.registerRc != 0 {
      var _ := fx.Release(0);
      return Some(EnvError);
    }
    if env.capacity < Requested(o) || env.throws(Poisoning) {
      var _ := fx.Release(env.deregisterRc);
      return Some(EnvError);
    }
    PoisonCell(fx.arena, TheCell(o), env.nonce);
    if Expected(o) > 0 && ask.expectSha != "" && PoisonDigest(o, env) == ask.expectSha { return Some(EnvError); }
    Deliver(fx.arena, Image(o, env));
    fx.NoteGet(env.result.ctx, env.result.sdk.present);
    r := None;
  }

  /** The digest of the landing, and whether everything else is untouched. */
  method ReadLanding(o: Shape, env: Env, a: array<Byte>) returns (digest: string, outside: bool)
    requires Acceptable(o, 1) && a[..] == Image(o, env)
    ensures digest == LandingDigest(o, env) && outside == Untouched(o, env)
  {
    var c := TheCell(o);
    assert a.Length == |a[..]| == c.size;
    digest := env.digest(a[c.payload..c.payload + Expected(o)]);
    assert a[c.payload..c.payload + Expected(o)] == Image(o, env)[o.guard..o.guard + Expected(o)];
    outside := IntactOutside(a, c, Expected(o), env.nonce);
  }

  /** The landing is read, the fixture released, and the reading chosen. */
  method Judge(o: Shape, ask: Ask, env: Env, fx: Fixture) returns (v: Verdict)
    requires Acceptable(o, 1) && fx.Open() && fx.registered && fx.arena[..] == Image(o, env)
    modifies fx
    ensures fx.Proper() && fx.log == old(fx.log) + (if env.throws(AfterReading) then [] else Released(env.deregisterRc))
    ensures v == Pass <==> !env.throws(AfterReading) && !env.throws(Concluding) && DuePass(o, ask, env)
    ensures v == Fail <==> !env.throws(AfterReading) && !env.throws(Concluding) && DueFail(o, ask, env)
  {
    var digest, outside := ReadLanding(o, env, fx.arena);
    if env.throws(AfterReading) { return Unwound; }
    var ok := fx.Release(env.deregisterRc);
    if env.throws(Concluding) { return Unwound; }
    if !ok { return Fail; }
    if env.result.ctx.evidenceLost { return Inconclusive; }
    if ask.guard { v := JudgeGuard(o, ask, env, digest, outside); } else { v := JudgePlain(o, ask, env, digest, outside); }
  }

  /** From the gate to the reading. */
  method Observe(o: Shape, ask: Ask, env: Env, fx: Fixture) returns (v: Verdict)
    requires Acceptable(o, 1) && Issued(o, ask, env) && fx.Open() && fx.registered && fx.arena[..] == Image(o, env)
    requires fx.log == [Register(0), TheGet(env)]
    modifies fx
    ensures fx.Proper() && Closed(fx.log) == SingleLog(o, ask, env)
    ensures v == Pass <==> Concluded(o, ask, env) && DuePass(o, ask, env)
    ensures v == Fail <==> Concluded(o, ask, env) && DueFail(o, ask, env)
  {
    var ctx, sdk := env.result.ctx, env.result.sdk;
    IssuedLog(o, ask, env);
    if env.throws(AfterGet) { return Unwound; }
    if ask.declaredUnknown || RigCallback.Held(ctx, sdk.present) { fx.Retain(); return Inconclusive; }
    fx.NoteLook();
    if env.throws(Reading) { fx.Retain(); return EnvError; }
    v := Judge(o, ask, env, fx);
  }

  /** The log of a run that issued its GET. */
  lemma IssuedLog(o: Shape, ask: Ask, env: Env)
    requires Acceptable(o, 1) && Issued(o, ask, env)
    ensures var issued := [Register(0), TheGet(env)];
            && (!GatePassed(ask, env) ==> SingleLog(o, ask, env) == issued + [Leak])
            && (GatePassed(ask, env) && (env.throws(Reading) || env.throws(AfterReading)) ==>
                  SingleLog(o, ask, env) == issued + [Look] + [Leak])
            && (GatePassed(ask, env) && !env.throws(Reading) && !env.throws(AfterReading) ==>
                  SingleLog(o, ask, env) == issued + [Look] + Released(env.deregisterRc))
  {
    var issued := [Register(0), TheGet(env)];
    assert [Register(0)] + ([TheGet(env)] + AfterGetLog(ask, env)) == issued + AfterGetLog(ask, env);
    Associate(issued, [Look], Released(env.deregisterRc));
    assert issued + [] == issued;
    var last := if env.deregisterRc == 0 then Free else Leak;
    assert Released(env.deregisterRc)[1] == last;
    assert (issued + [Look] + Released(env.deregisterRc))[4] == last;
  }

  /** exp_single_get; `released` and `retained` are the fixture's flags at the end of its life. */
  method Experiment(o: Shape, ask: Ask, env: Env) returns (v: Verdict, log: seq<Op>, released: bool, retained: bool)
    requires Sized(o)
    ensures v == Pass <==> Passes(o, ask, env)
    ensures v == Fail <==> Fails(o, ask, env)
    ensures log == if Acceptable(o, 1) && env.trustworthy then SingleLog(o, ask, env) else []
    ensures (released <==> Free in log) && (retained <==> Leak in log) && !(released && retained)
  {
    var g := Validate(o, 1, false);
    if g.None? || !env.trustworthy { return EnvError, [], false, false; }
    var fx := new Fixture(g.value.arena);
    var early := Prepare(o, ask, env, fx);
    if early.Some? {
      v := early.value;
    } else {
      v := Observe(o, ask, env, fx);
      if v == Pass && env.outputFailed { v := Inconclusive; }
    }
    fx.Destroy();
    log, released, retained := fx.log, fx.released, fx.retained;
  }

  // --- what the log and the verdict guarantee ----------------------------------------------------------------

  lemma SingleIsLawful(o: Shape, ask: Ask, env: Env)
    requires Acceptable(o, 1)
    ensures DecidedOnce(SingleLog(o, ask, env))
  {
    var reg, get, rc := Register(env.registerRc), TheGet(env), env.deregisterRc;
    assert Lawful([]) && Lawful([Leak]);
    LawfulNext([], reg);
    assert [] + [reg] == [reg];
    var log := if env.throws(Registering) then [] else [reg] + RegisteredLog(o, ask, env);
    assert Lawful(log) by {
      if !env.throws(Registering) && !env.throws(AfterRegister) {
        if env.registerRc != 0 { LawfulNext([reg], Free); }
        else { RegisteredIsLawful(o, ask, env); }
      }
    }
    if !Over(log) { LawfulNext(log, Leak); assert Closed(log)[|log|] == Leak; }
    OverAtTheEnd(Closed(log));
  }

  lemma RegisteredIsLawful(o: Shape, ask: Ask, env: Env)
    requires Acceptable(o, 1) && !env.throws(AfterRegister) && env.registerRc == 0 && Lawful([Register(0)])
    ensures Lawful([Register(0)] + RegisteredLog(o, ask, env))
  {
    var log := [Register(0)];
    assert log[0] == Register(0) && log + [] == log;
    ReleaseIsLawful(log, env.deregisterRc);
    LawfulNext(log, TheGet(env));
    var issued := log + [TheGet(env)];
    assert issued[0] == Register(0);
    assert issued == [Register(0), TheGet(env)];
    assert issued + [] == issued;
    if GatePassed(ask, env) {
      LawfulNext(issued, Look);
      var looked := issued + [Look];
      assert looked[0] == Register(0);
      ReleaseIsLawful(looked, env.deregisterRc);
      Associate(issued, [Look], Released(env.deregisterRc));
    }
    Associate(log, [TheGet(env)], AfterGetLog(ask, env));
  }

  /** For every environment: the fixture is decided once; the GET is in the log exactly
      when it was issued; its landing is read, and release attempted after it, only when
      it is harmless; the arena is freed only if registration failed or was undone. */
  lemma SingleIsSafe(o: Shape, ask: Ask, env: Env)
    requires Acceptable(o, 1)
    ensures var log := SingleLog(o, ask, env);
            && DecidedOnce(log) && (TheGet(env) in log <==> Issued(o, ask, env))
            && (forall j, i :: 0 <= j < i < |log| && Effect(log[i]) && log[j].Get? ==> Harmless(log[j].ctx))
            && (Free in log ==> Leak !in log && (env.registerRc != 0 || (env.deregisterRc == 0 && Deregister(0) in log)))
  {
    var log := SingleLog(o, ask, env);
    SingleIsLawful(o, ask, env);
    EffectsAreHarmless(log);
    if Free in log {
      var i :| 0 <= i < |log| && log[i] == Free;
      FreedOnlyWhenUnregistered(log, i);
    }
  }

  lemma EffectsAreHarmless(log: seq<Op>)
    requires Lawful(log)
    ensures forall j, i :: 0 <= j < i < |log| && Effect(log[i]) && log[j].Get? ==> Harmless(log[j].ctx)
  {
    forall j, i | 0 <= j < i < |log| && Effect(log[i]) && log[j].Get? ensures Harmless(log[j].ctx) {
      NothingOutstanding(log, j, i);
    }
  }

  /** Whatever the callbacks did, the guard experiment fails only for a failed
      deregistration, a successful return after the injected failure, or damage outside
      the landing: never for a second message. */
  lemma GuardFailMeans(o: Shape, ask: Ask, env: Env, events: seq<RigCallback.Event>)
    requires ask.guard && Fails(o, ask, env) && env.result.ctx == RigCallback.Exec(true, events).ctx
    ensures env.deregisterRc != 0 || Succeeded(env) || !Untouched(o, env)
  {
    RigCallback.GuardEmitsOnce(events);
  }
}
