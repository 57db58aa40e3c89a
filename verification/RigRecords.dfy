/** What the kept records of a GET say about its callbacks (probe/rig_probe_main.cpp). */
module RigRecords {
  import opened RigCallback

  /** The record is the one its callback pushed, and that callback is past pushing. */
  predicate Pushed(cs: seq<Callback>, a: Attempt) {
    a.invocation < |cs| && cs[a.invocation].at == a && (cs[a.invocation].pc.Leaving? || cs[a.invocation].pc.Gone?)
  }

  predicate Kept(s: System) { forall k :: 0 <= k < |s.ctx.attempts| ==> Pushed(s.callbacks, s.ctx.attempts[k]) }

  /** A step adds at most the stepping callback's record; one past pushing keeps its own. */
  predicate Keeps(x: Context, c: Callback, y: Context, d: Callback) {
    && (y.attempts == x.attempts || (y.attempts == x.attempts + [d.at] && d.pc.Leaving?))
    && (c.pc.Leaving? || c.pc.Gone? ==> d.at == c.at && (d.pc.Leaving? || d.pc.Gone?))
  }

  predicate RecordsFollow(x: Context, c: Callback, env: Env) {
    var (y, d) := Advance(x, c, env);
    Keeps(x, c, y, d)
  }

  lemma OutwardKeeps(x: Context, c: Callback, env: Env)
    requires c.pc.Entered? || c.pc.Building? || c.pc.Submitting? || c.pc.Latching?
    ensures RecordsFollow(x, c, env)
  {}

  lemma ExchangeKeeps(x: Context, c: Callback, env: Env)
    requires c.pc.InHttp? || c.pc.TakingBack? || c.pc.Comparing? || c.pc.Clearing?
    ensures RecordsFollow(x, c, env)
  {}

  lemma ReceiptKeeps(x: Context, c: Callback, env: Env)
    requires c.pc.Reading? || c.pc.Deciding? || c.pc.Completing? || c.pc.Settling?
    ensures RecordsFollow(x, c, env)
  {}

  lemma ExitKeeps(x: Context, c: Callback, env: Env)
    requires c.pc.Recording? || c.pc.Losing? || c.pc.Leaving? || c.pc.Gone?
    ensures RecordsFollow(x, c, env)
  {}

  lemma CatchKeeps(x: Context, c: Callback, env: Env)
    requires c.pc.Catching? || c.pc.Relatching?
    ensures RecordsFollow(x, c, env)
  {}

  lemma AdvanceKeepsRecords(x: Context, c: Callback, env: Env)
    ensures RecordsFollow(x, c, env)
  {
    match c.pc
    case Entered | Building | Submitting | Latching => OutwardKeeps(x, c, env);
    case InHttp | TakingBack | Comparing | Clearing => ExchangeKeeps(x, c, env);
    case Reading | Deciding | Completing | Settling => ReceiptKeeps(x, c, env);
    case Recording | Losing | Leaving | Gone => ExitKeeps(x, c, env);
    case Catching | Relatching => CatchKeeps(x, c, env);
  }

  lemma StepKeeps(s: System, i: nat, y: Context, d: Callback)
    requires Kept(s) && i < |s.callbacks| && Keeps(s.ctx, s.callbacks[i], y, d) && d.at.invocation == i
    ensures Kept(System(y, s.callbacks[i := d]))
  {
    var cs := s.callbacks[i := d];
    forall k | 0 <= k < |y.attempts| ensures Pushed(cs, y.attempts[k]) {
      if k < |s.ctx.attempts| {
        assert y.attempts[k] == s.ctx.attempts[k];
        assert Pushed(s.callbacks, s.ctx.attempts[k]);
      }
    }
  }

  lemma EnterKeeps(s: System, x: Context, c: Callback)
    requires Kept(s) && x.attempts == s.ctx.attempts
    ensures Kept(System(x, s.callbacks + [c]))
  {
    forall k | 0 <= k < |x.attempts| ensures Pushed(s.callbacks + [c], x.attempts[k]) {
      assert Pushed(s.callbacks, s.ctx.attempts[k]);
    }
  }

  lemma NextKeeps(s: System, e: Event)
    requires Inv(s) && Inv(Next(s, e)) && Kept(s)
    ensures Kept(Next(s, e))
  {
    match e
    case Enter(thread, size, offset) => EnterKeeps(s, Next(s, e).ctx, Entry(s.ctx, thread, size, offset));
    case Run(i, env) =>
      if i < |s.callbacks| {
        var (y, d) := Advance(s.ctx, s.callbacks[i], env);
        AdvanceKeepsRecords(s.ctx, s.callbacks[i], env);
        assert Next(s, e).callbacks[i] == d;
        StepKeeps(s, i, y, d);
      }
  }

  lemma {:induction false} RecordsAreKept(guard: bool, events: seq<Event>)
    ensures Kept(Exec(guard, events))
  {
    if events != [] {
      var before := events[..|events| - 1];
      RecordsAreKept(guard, before);
      InvAlways(guard, before);
      InvAlways(guard, events);
      NextKeeps(Exec(guard, before), events[|events| - 1]);
    }
  }

  /** The GET's one callback put its request on the wire, got a qualified receipt for
      it, and that submission is the one counted. */
  predicate SoleAndWhole(s: System) {
    && |s.callbacks| == 1
    && s.callbacks[0].wrote && s.callbacks[0].at.qualified && s.callbacks[0].stands && s.callbacks[0].counted
  }

  /** A settled GET with one invocation whose first record qualified is sole and whole. */
  lemma QualifiedRecordIsWhole(guard: bool, events: seq<Event>, sdkReturned: bool)
    requires var s := Exec(guard, events);
             && Returned(s) && !Unsettled(s.ctx, sdkReturned)
             && s.ctx.invocations == 1 && s.ctx.attempts != [] && s.ctx.attempts[0].qualified
    ensures SoleAndWhole(Exec(guard, events))
  {
    var s := Exec(guard, events);
    InvAlways(guard, events);
    RecordsAreKept(guard, events);
    GateIsSafe(guard, events, sdkReturned);
    assert Pushed(s.callbacks, s.ctx.attempts[0]);
    assert Local(s.callbacks[0], guard);
  }
}
