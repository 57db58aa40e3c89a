/** Runs of the rig callback in which callbacks do not overlap: each enters only
    after the earlier ones have left.  The `unknown` latch is then exact; with
    overlap it is not, which is why the gate also compares the counters. */
module RigSerial {
  import opened RigCallback

  /** Every entry finds all earlier callbacks gone. */
  predicate NonNested(guard: bool, events: seq<Event>) {
    events == [] ||
    (NonNested(guard, events[..|events| - 1]) &&
     (events[|events| - 1].Enter? ==> Returned(Exec(guard, events[..|events| - 1]))))
  }

  predicate SeenIsCurrent(x: Context, c: Callback) {
    && (c.seenSubmitted.Value? ==> c.seenSubmitted.n == x.submitted)
    && (c.seenCompleted.Value? ==> c.seenCompleted.n == x.completed)
  }

  /** How latch and counters stand while the only running callback is at `c.pc`. */
  predicate Phase(x: Context, c: Callback) {
    var due := x.submitted - x.completed;
    match c.pc
    case Entered => (x.unknown <==> due == 1) && 0 <= due <= 1 && (c.at.invocation == 0 ==> !x.unknown) && Blank(c)
    case Building => !x.unknown && due == 0 && Blank(c)
    case Submitting => !x.unknown && due == 0 && Blank(c)
    case Latching => due == 1 && Blank(c)
    case InHttp => x.unknown && due == 1 && Blank(c)
    case TakingBack => x.unknown && due == 1 && Blank(c)
    case Comparing => x.unknown && due == 0 && !c.stands && SeenIsCurrent(x, c) && !Loads(c)
    case Clearing => x.unknown && due == 0 && !c.stands && Loads(c)
    case Reading => x.unknown == c.stands && due == Bit(c.stands) && (Blank(c) || Loads(c))
    case Deciding => x.unknown == c.stands && due == Bit(c.stands)
    case Completing => x.unknown && x.submitted == 1 && x.completed == 0
    case Settling => x.submitted == 1 && x.completed == 1
    case Catching => (x.unknown <==> due == 1) && 0 <= due <= 1 && (Loads(c) || SeenIsCurrent(x, c))
    case Relatching => x.unknown && due == 1
    case Losing => (x.unknown <==> due == 1) && 0 <= due <= 1
    case Recording => (x.unknown <==> due == 1) && 0 <= due <= 1
    case Leaving => (x.unknown <==> due == 1) && 0 <= due <= 1
    case Gone => (x.unknown <==> due == 1) && 0 <= due <= 1
  }

  predicate Blank(c: Callback) { c.seenSubmitted.NotYet? && c.seenCompleted.NotYet? }
  predicate Loads(c: Callback) { c.seenSubmitted.Value? && c.seenCompleted.Value? }

  predicate Serial(s: System) {
    && (forall i :: 0 <= i < |s.callbacks| - 1 ==> s.callbacks[i].pc.Gone?)
    && if s.callbacks == [] then !s.ctx.unknown && s.ctx.submitted == 0 && s.ctx.completed == 0
       else Phase(s.ctx, s.callbacks[|s.callbacks| - 1])
  }

  predicate AdvancePhase(x: Context, c: Callback, env: Env) {
    var (y, d) := Advance(x, c, env);
    Phase(y, d)
  }

  lemma OutwardPhase(x: Context, c: Callback, env: Env)
    requires Local(c, x.guard) && Phase(x, c)
    requires c.pc.Entered? || c.pc.Building? || c.pc.Submitting? || c.pc.Latching?
    ensures AdvancePhase(x, c, env)
  {}

  lemma ExchangePhase(x: Context, c: Callback, env: Env)
    requires Local(c, x.guard) && Phase(x, c)
    requires c.pc.InHttp? || c.pc.TakingBack?
    ensures AdvancePhase(x, c, env)
  {}

  lemma ComparePhase(x: Context, c: Callback, env: Env)
    requires Local(c, x.guard) && Phase(x, c)
    requires c.pc.Comparing? || c.pc.Clearing?
    ensures AdvancePhase(x, c, env)
  {}

  lemma ReceiptPhase(x: Context, c: Callback, env: Env)
    requires Local(c, x.guard) && Phase(x, c)
    requires c.pc.Reading? || c.pc.Deciding? || c.pc.Completing? || c.pc.Settling?
    ensures AdvancePhase(x, c, env)
  {}

  lemma CatchPhase(x: Context, c: Callback, env: Env)
    requires Local(c, x.guard) && Phase(x, c)
    requires c.pc.Relatching? || c.pc.Losing?
    ensures AdvancePhase(x, c, env)
  {}

  /** The handler's first load, on a fresh pair or on one left half done. */
  lemma LoadPhase(x: Context, c: Callback, first: bool)
    requires c.pc.Catching? && (Loads(c) || SeenIsCurrent(x, c))
    ensures var d := Load(x, Fresh(c), first); d.pc.Catching? && SeenIsCurrent(x, d)
  {}

  lemma DecidePhase(x: Context, d: Callback)
    requires d.pc.Catching? && SeenIsCurrent(x, d)
    requires (x.unknown <==> x.submitted - x.completed == 1) && 0 <= x.submitted - x.completed <= 1
    ensures Phase(x, Decide(d))
  {}

  lemma CatchingPhase(x: Context, c: Callback, env: Env)
    requires Local(c, x.guard) && Phase(x, c)
    requires c.pc.Catching?
    ensures AdvancePhase(x, c, env)
  {
    LoadPhase(x, c, env.completedFirst);
    DecidePhase(x, Load(x, Fresh(c), env.completedFirst));
  }

  lemma LeavePhase(x: Context, c: Callback, env: Env)
    requires Local(c, x.guard) && Phase(x, c)
    requires c.pc.Recording? || c.pc.Leaving? || c.pc.Gone?
    ensures AdvancePhase(x, c, env)
  {}

  lemma AdvanceKeepsPhase(x: Context, c: Callback, env: Env)
    requires Local(c, x.guard) && Phase(x, c)
    ensures AdvancePhase(x, c, env)
  {
    match c.pc
    case Entered | Building | Submitting | Latching => OutwardPhase(x, c, env);
    case InHttp | TakingBack => ExchangePhase(x, c, env);
    case Comparing | Clearing => ComparePhase(x, c, env);
    case Reading | Deciding | Completing | Settling => ReceiptPhase(x, c, env);
    case Catching => CatchingPhase(x, c, env);
    case Relatching | Losing => CatchPhase(x, c, env);
    case Recording | Leaving | Gone => LeavePhase(x, c, env);
  }

  lemma NextKeepsSerial(s: System, e: Event)
    requires Inv(s) && Serial(s) && (e.Enter? ==> Returned(s))
    ensures Serial(Next(s, e))
  {
    var n := |s.callbacks|;
    if e.Run? && e.i < n {
      var c := s.callbacks[e.i];
      if e.i == n - 1 {
        assert Local(c, s.ctx.guard);
        AdvanceKeepsPhase(s.ctx, c, e.env);
      } else {
        assert s.callbacks[e.i := c] == s.callbacks;
      }
    } else if e.Enter? {
      EnterKeepsSerial(s, e.thread, e.size, e.offset);
    }
  }

  lemma EnterKeepsSerial(s: System, thread: nat, size: nat, offset: int)
    requires Inv(s) && Serial(s) && Returned(s)
    ensures Serial(Next(s, Enter(thread, size, offset)))
  {}

  lemma {:induction false} SerialAlways(guard: bool, events: seq<Event>)
    requires NonNested(guard, events)
    ensures Serial(Exec(guard, events))
  {
    if events != [] {
      var before := events[..|events| - 1];
      SerialAlways(guard, before);
      InvAlways(guard, before);
      NextKeepsSerial(Exec(guard, before), events[|events| - 1]);
    }
  }

  /** Between non-nested callbacks the latch says exactly that a submission is
      unresolved, and no GET submits more than twice. */
  lemma LatchIsExact(guard: bool, events: seq<Event>)
    requires NonNested(guard, events)
    ensures var s := Exec(guard, events);
            && s.ctx.submitted <= 2
            && (Returned(s) ==> (s.ctx.unknown <==> s.ctx.submitted != s.ctx.completed))
  {
    SerialAlways(guard, events);
    CompletedAtMostOnce(guard, events);
  }

  // --- with overlap the latch alone is not exact ------------------------------

  /** `R` holds of the initial state and of every later state of a run. */
  ghost predicate Closed(R: System -> bool) { R(Initial(false)) && forall s, e :: R(s) ==> R(Next(s, e)) }

  /** Two callbacks in a run without guard, with no evidence lost so far. */
  predicate Pair(R: System -> bool, s: System) {
    R(s) && |s.callbacks| == 2 && !s.ctx.guard && !s.ctx.evidenceLost
  }

  /** Only callback 0 gets a qualified receipt; nothing else fails. */
  function Answer(i: nat): Env { Env(1, false, false, false, Sent(true, i == 0)) }

  lemma Step(R: System -> bool, s: System, i: nat) returns (t: System)
    requires Closed(R) && Pair(R, s) && i < 2
    ensures |t.callbacks| == 2 && (t.ctx, t.callbacks[i]) == Advance(s.ctx, s.callbacks[i], Answer(i))
    ensures t.callbacks[1 - i] == s.callbacks[1 - i]
    ensures R(t)
  {
    t := Next(s, Run(i, Answer(i)));
  }

  /** Guard test and request construction. */
  lemma Pass(R: System -> bool, s: System, i: nat) returns (t: System)
    requires Closed(R) && Pair(R, s) && i < 2 && s.callbacks[i].pc.Entered? && !s.ctx.unknown
    ensures Pair(R, t) && t.callbacks[1 - i] == s.callbacks[1 - i]
    ensures t.callbacks[i].pc.Submitting?
    ensures !t.ctx.unknown && t.ctx.submitted == s.ctx.submitted && t.ctx.completed == s.ctx.completed
  {
    t := Step(R, s, i);
    t := Step(R, t, i);
  }

  /** submitted.fetch_add(1); unknown.store(true). */
  lemma Submit(R: System -> bool, s: System, i: nat) returns (t: System)
    requires Closed(R) && Pair(R, s) && i < 2 && s.callbacks[i].pc.Submitting?
    ensures Pair(R, t) && t.callbacks[1 - i] == s.callbacks[1 - i]
    ensures t.callbacks[i].pc.InHttp?
    ensures t.ctx.unknown && t.ctx.submitted == s.ctx.submitted + 1 && t.ctx.completed == s.ctx.completed
  {
    t := Step(R, s, i);
    t := Step(R, t, i);
  }

  /** The exchange, the receipt and the test `submitted == 1`. */
  lemma Exchanged(R: System -> bool, s: System, i: nat) returns (t: System)
    requires Closed(R) && Pair(R, s) && i < 2 && s.callbacks[i].pc.InHttp?
    ensures Pair(R, t) && t.callbacks[1 - i] == s.callbacks[1 - i]
    ensures t.callbacks[i].wrote && t.callbacks[i].at.qualified == (i == 0)
    ensures if i == 0 && s.ctx.submitted == 1 then t.callbacks[i].pc.Completing? else t.callbacks[i].pc.Recording?
    ensures t.ctx.unknown == s.ctx.unknown && t.ctx.submitted == s.ctx.submitted && t.ctx.completed == s.ctx.completed
  {
    t := Step(R, s, i);
    t := Step(R, t, i);
    t := Step(R, t, i);
  }

  /** completed.fetch_add(1); unknown.store(false). */
  lemma Settle(R: System -> bool, s: System, i: nat) returns (t: System)
    requires Closed(R) && Pair(R, s) && i < 2 && s.callbacks[i].pc.Completing?
    ensures Pair(R, t) && t.callbacks[1 - i] == s.callbacks[1 - i]
    ensures t.callbacks[i].pc.Recording?
    ensures !t.ctx.unknown && t.ctx.submitted == s.ctx.submitted && t.ctx.completed == s.ctx.completed + 1
  {
    t := Step(R, s, i);
    t := Step(R, t, i);
  }

  /** push, then active.fetch_sub(1). */
  lemma Recorded(R: System -> bool, s: System, i: nat) returns (t: System)
    requires Closed(R) && Pair(R, s) && i < 2 && s.callbacks[i].pc.Recording?
    ensures Pair(R, t) && t.callbacks[1 - i] == s.callbacks[1 - i]
    ensures t.callbacks[i].pc.Leaving?
    ensures t.callbacks[i].wrote == s.callbacks[i].wrote && t.callbacks[i].at.qualified == s.callbacks[i].at.qualified
    ensures t.ctx.unknown == s.ctx.unknown && t.ctx.submitted == s.ctx.submitted && t.ctx.completed == s.ctx.completed
  {
    t := Step(R, s, i);
  }

  lemma Leave(R: System -> bool, s: System, i: nat) returns (t: System)
    requires Closed(R) && Pair(R, s) && i < 2 && s.callbacks[i].pc.Recording?
    ensures Pair(R, t) && t.callbacks[1 - i] == s.callbacks[1 - i]
    ensures t.callbacks[i].pc.Gone?
    ensures t.callbacks[i].wrote == s.callbacks[i].wrote && t.callbacks[i].at.qualified == s.callbacks[i].at.qualified
    ensures t.ctx.unknown == s.ctx.unknown && t.ctx.submitted == s.ctx.submitted && t.ctx.completed == s.ctx.completed
  {
    t := Recorded(R, s, i);
    t := Step(R, t, i);
  }

  lemma BothEnter(R: System -> bool) returns (t: System)
    requires Closed(R)
    ensures Pair(R, t) && t.callbacks[0].pc.Entered? && t.callbacks[1].pc.Entered?
    ensures !t.ctx.unknown && t.ctx.submitted == 0 && t.ctx.completed == 0
  {
    t := Next(Initial(false), Enter(1, 8, 0));
    t := Next(t, Enter(2, 8, 0));
  }

  /** Callback 1 passes the guard test before callback 0 latches; callback 0
      passes its test `submitted == 1`. */
  lemma FirstClaims(R: System -> bool) returns (s: System)
    requires Closed(R)
    ensures Pair(R, s) && s.callbacks[0].pc.Completing? && s.callbacks[1].pc.Submitting?
    ensures s.ctx.submitted == 1 && s.ctx.completed == 0
  {
    s := BothEnter(R);
    s := Pass(R, s, 0);
    s := Pass(R, s, 1);
    s := Submit(R, s, 0);
    s := Exchanged(R, s, 0);
  }

  /** Callback 1 submits before callback 0 clears the latch. */
  lemma FirstClears(R: System -> bool) returns (s: System)
    requires Closed(R)
    ensures Pair(R, s) && s.callbacks[0].pc.Gone? && s.callbacks[1].pc.InHttp?
    ensures s.ctx.submitted == 2 && s.ctx.completed == 1 && !s.ctx.unknown
  {
    s := FirstClaims(R);
    s := Submit(R, s, 1);
    s := Settle(R, s, 0);
    s := Leave(R, s, 0);
  }

  lemma SecondFails(R: System -> bool) returns (s: System)
    requires Closed(R)
    ensures Pair(R, s) && Returned(s) && s.ctx.submitted == 2 && s.ctx.completed == 1 && !s.ctx.unknown
    ensures s.callbacks[1].wrote && !s.callbacks[1].at.qualified
  {
    s := FirstClears(R);
    s := Exchanged(R, s, 1);
    s := Leave(R, s, 1);
  }

  ghost predicate Reachable(s: System) { exists es :: Exec(false, es) == s }

  lemma ReachableIsClosed(R: System -> bool)
    requires forall s :: R(s) <==> Reachable(s)
    ensures Closed(R)
  {
    assert Exec(false, []) == Initial(false);
    forall s, e | R(s) ensures R(Next(s, e)) {
      var es :| Exec(false, es) == s;
      assert (es + [e])[..|es|] == es;
      assert Exec(false, es + [e]) == Next(s, e);
    }
  }

  /** A run that ends with `unknown` clear although a socket accepted a request
      whose receipt did not qualify: only the counters hold the landing back. */
  lemma LatchAloneIsNotEnough() returns (es: seq<Event>)
    ensures var s := Exec(false, es);
            && Returned(s) && !s.ctx.unknown && !s.ctx.evidenceLost
            && (exists i :: 0 <= i < |s.callbacks| && s.callbacks[i].wrote && !s.callbacks[i].at.qualified)
            && !Resolved(s) && Held(s.ctx, true)
  {
    ghost var R := s => Reachable(s);
    ReachableIsClosed(R);
    var s := SecondFails(R);
    es :| Exec(false, es) == s;
  }
}
