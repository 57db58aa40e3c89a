/** The registered fixture: one owner, and a terminal state that is decided once
    (probe/rig_probe_main.cpp). */
module Fixture {
  import opened Geometry
  import RigCallback

  /** What a GET yields: its context, once every callback has returned, and the SDK's
      return value, absent if the SDK threw. */
  datatype Sdk = Sdk(present: bool, value: int)
  datatype Result = Result(ctx: RigCallback.Context, sdk: Sdk)

  /** The terminal reading of an experiment; `Unwound` if an exception left it. */
  datatype Verdict = Pass | Fail | Inconclusive | EnvError | Unwound

  /** What happened to the fixture, in order.  `Get` is a GET whose callbacks have
      all returned, `Look` a read of the landing; `Free` destroys the clients and
      frees the arena, `Leak` gives both up without destroying them. */
  datatype Op =
    | Register(rc: int)
    | Get(ctx: RigCallback.Context, returned: bool)
    | Look
    | Deregister(rc: int)
    | Free
    | Leak

  /** The GET passed the joint gate. */
  predicate Passed(op: Op) { op.Get? ==> !RigCallback.Held(op.ctx, op.returned) }

  predicate AllPassed(log: seq<Op>) { forall i :: 0 <= i < |log| ==> Passed(log[i]) }

  predicate Over(log: seq<Op>) { Free in log || Leak in log }

  predicate MayBeWritten(log: seq<Op>) { Register(0) in log && Deregister(0) !in log }

  predicate Allowed(before: seq<Op>, op: Op) {
    && !Over(before)
    && match op
       case Register(_) => forall i :: 0 <= i < |before| ==> !before[i].Register?
       case Get(_, _) => true
       case Look => AllPassed(before)
       case Deregister(_) => AllPassed(before) && MayBeWritten(before)
       case Free => AllPassed(before) && !MayBeWritten(before)
       case Leak => true
  }

  /** Every operation was allowed when it happened. */
  predicate Lawful(log: seq<Op>) {
    log == [] || (Lawful(log[..|log| - 1]) && Allowed(log[..|log| - 1], log[|log| - 1]))
  }

  lemma LawfulNext(log: seq<Op>, op: Op)
    requires Lawful(log) && Allowed(log, op)
    ensures Lawful(log + [op])
  {
    assert (log + [op])[..|log|] == log;
  }

  lemma {:induction false} LawfulAt(log: seq<Op>, i: nat)
    requires Lawful(log) && i < |log|
    ensures Allowed(log[..i], log[i])
  {
    var n := |log| - 1;
    if i < n {
      LawfulAt(log[..n], i);
      assert log[..n][..i] == log[..i];
    }
  }

  /** What releasing a registered fixture adds to its log. */
  function Released(rc: int): seq<Op> { [Deregister(rc), if rc == 0 then Free else Leak] }

  lemma ReleaseIsLawful(log: seq<Op>, rc: int)
    requires Lawful(log) && !Over(log) && AllPassed(log) && MayBeWritten(log)
    ensures Lawful(log + Released(rc))
  {
    var d, last := Deregister(rc), if rc == 0 then Free else Leak;
    LawfulNext(log, d);
    var after := log + [d];
    assert after[|log|] == d;
    LawfulNext(after, last);
    assert log + Released(rc) == after + [last];
  }

  /** ~Fixture: what nobody decided is leaked. */
  function Closed(log: seq<Op>): seq<Op> { if Over(log) then log else log + [Leak] }

  /** The fixture's whole life was lawful, and ended exactly once. */
  predicate DecidedOnce(log: seq<Op>) {
    Lawful(log) && log != [] && (log[|log| - 1] == Free || log[|log| - 1] == Leak)
  }

  /** Nothing follows the decision. */
  lemma OverAtTheEnd(log: seq<Op>)
    requires Lawful(log) && Over(log)
    ensures DecidedOnce(log)
  {
    if i :| 0 <= i < |log| - 1 && (log[i] == Free || log[i] == Leak) {
      assert log[..|log| - 1][i] == log[i];
    }
  }

  lemma DecisionIsLast(log: seq<Op>, i: nat)
    requires Lawful(log) && i < |log| && (log[i] == Free || log[i] == Leak)
    ensures i == |log| - 1
  {
    LawfulAt(log, |log| - 1);
  }

  /** The arena is freed only when no registration can still be written: either
      registration never succeeded, or it was undone. */
  lemma FreedOnlyWhenUnregistered(log: seq<Op>, i: nat)
    requires Lawful(log) && i < |log| && log[i] == Free
    ensures Register(0) !in log || Deregister(0) in log[..i]
    ensures Leak !in log && i == |log| - 1
  {
    LawfulAt(log, i);
    DecisionIsLast(log, i);
    assert log == log[..i] + [Free];
  }

  /** Whatever its callbacks did to end in this context, no request of the GET can
      still have an effect that is not accounted for. */
  ghost predicate Harmless(ctx: RigCallback.Context) {
    forall guard, events | RigCallback.Returned(RigCallback.Exec(guard, events)) ::
      RigCallback.Exec(guard, events).ctx == ctx ==> RigCallback.Resolved(RigCallback.Exec(guard, events))
  }

  /** Reads the landing, or may end the registration. */
  predicate Effect(op: Op) { op.Look? || op.Deregister? || op.Free? }

  lemma PassedIsHarmless(op: Op)
    requires op.Get? && Passed(op)
    ensures Harmless(op.ctx)
  {
    forall guard, events | RigCallback.Returned(RigCallback.Exec(guard, events)) && RigCallback.Exec(guard, events).ctx == op.ctx
      ensures RigCallback.Resolved(RigCallback.Exec(guard, events))
    {
      RigCallback.GateIsSafe(guard, events, op.returned);
    }
  }

  /** The landing is read, and release attempted, only when every GET so far is harmless. */
  lemma NothingOutstanding(log: seq<Op>, j: nat, i: nat)
    requires Lawful(log) && j < i < |log| && Effect(log[i]) && log[j].Get?
    ensures Harmless(log[j].ctx)
  {
    LawfulAt(log, i);
    assert log[..i][j] == log[j];
    PassedIsHarmless(log[j]);
  }

  class Fixture {
    const arena: array<Byte>
    var registered: bool
    var released: bool
    var retained: bool
    var log: seq<Op>

    /** The flags say what the log says: a fixture that was released has nothing left
        to give up, whatever `retained` says. */
    predicate Valid() reads this {
      released == (Free in log) && (retained && !released) == (Leak in log)
    }

    /** Decided at most one way. */
    predicate Proper() reads this { Valid() && !(released && retained) }

    constructor (bytes: nat)
      ensures Valid() && fresh(arena) && arena.Length == bytes && log == []
    {
      arena := new Byte[bytes];
      registered, released, retained, log := false, false, false, [];
    }

    ghost predicate Open() reads this { Valid() && !released && !retained }

    method RegisterMemory(rc: int)
      requires Open()
      modifies this
      ensures Open() && log == old(log) + [Register(rc)] && registered == (rc == 0)
    {
      log := log + [Register(rc)];
      registered := rc == 0;
    }

    method NoteGet(ctx: RigCallback.Context, returned: bool)
      requires Open()
      modifies this`log
      ensures Open() && log == old(log) + [Get(ctx, returned)]
    {
      log := log + [Get(ctx, returned)];
    }

    method NoteLook()
      requires Open()
      modifies this`log
      ensures Open() && log == old(log) + [Look]
    {
      log := log + [Look];
    }

    /** retain_now: it asks only whether the fixture was retained before.  A released
        one has no sessions and no arena left to give up. */
    method Retain()
      requires Valid()
      modifies this
      ensures Valid() && retained && released == old(released) && registered == old(registered)
      ensures log == if old(released || retained) then old(log) else old(log) + [Leak]
    {
      if retained { return; }
      retained := true;
      if !released { log := log + [Leak]; }
    }

    /** Deregisters if registered; `drc` is what the SDK would answer.  A failed
        deregistration retains. */
    method Release(drc: int) returns (ok: bool)
      requires Valid()
      modifies this
      ensures Valid()
      ensures old(released || retained) ==> !ok && released == old(released) && retained == old(retained) && log == old(log)
      ensures !old(released || retained) ==>
                && ok == (!old(registered) || drc == 0) && released == ok && retained == !ok
                && log == old(log) + (if old(registered) then [Deregister(drc)] else []) + [if ok then Free else Leak]
    {
      if released || retained { return false; }
      var rc := 0;
      if registered {
        rc := drc;
        log := log + [Deregister(rc)];
      }
      if rc != 0 {
        Retain();
        return false;
      }
      registered, released := false, true;
      log := log + [Free];
      return true;
    }

    /** ~Fixture: whatever was not released is retained. */
    method Destroy()
      requires Valid()
      modifies this
      ensures Valid() && released == old(released) && retained == (old(retained) || !old(released))
      ensures log == if old(released || retained) then old(log) else old(log) + [Leak]
    {
      if !released { Retain(); }
    }
  }
}
