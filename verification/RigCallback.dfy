/** The rig probe's GET callback, one context shared by any number of callbacks
    that the SDK may overlap or re-enter (probe/rig_probe_main.cpp).

    Every event of the machine performs at most one atomic operation on the
    context, except the entry, which makes two increments under one lock, so
    `Exec` ranges over all interleavings.  Whatever the peer, the
    socket, the allocator or the SDK decides is an input of the event. */
module RigCallback {

  /** What raw_http_get did.  `Rejected`: request validation threw before any
      write.  `NotSent`: no request byte was accepted by a socket.  `Partial`:
      some bytes were accepted, then a failure.  `Sent`: the whole message was
      accepted; `qualified` is the verdict of the completion authority on the
      receipt.  `Threw`: any other exception; `accepted` says whether the socket
      had taken a byte. */
  datatype HttpOutcome =
    | Rejected
    | NotSent(transportError: bool)
    | Partial
    | Sent(tokenBearing: bool, qualified: bool)
    | Threw(accepted: bool)

  /** The program points of one callback; each name is the operation to come. */
  datatype Pc =
    | Entered      // null test and guard test (one load of `unknown`)
    | Building     // token, target and headers
    | Submitting   // submitted.fetch_add(1)
    | Latching     // unknown.store(true)
    | InHttp       // raw_http_get
    | TakingBack   // submitted.fetch_sub(1)
    | Comparing    // submitted.load() == completed.load(), loads in either order
    | Clearing     // unknown.store(false) after the comparison
    | Reading      // receipt processing, up to the authority's verdict
    | Deciding     // submitted.load() == 1
    | Completing   // completed.fetch_add(1)
    | Settling     // unknown.store(false) of a completed submission
    | Recording    // push of the attempt record
    | Catching     // the wrapper's handler: submitted.load() > completed.load()
    | Relatching   // the handler's unknown.store(true)
    | Losing       // the handler's evidence_lost.store(true)
    | Leaving      // active.fetch_sub(1)
    | Gone

  datatype Loaded = NotYet | Value(n: int)

  /** The record kept of one callback; the fields the witness reads. */
  datatype Attempt = Attempt(
    invocation: nat, tBegin: int, tEnd: int, size: nat, offset: int,
    injected: bool, guarded: bool, httpAttempt: bool, partial: bool,
    enteredWhileActive: bool, thread: nat, qualified: bool)

  /** One callback: its program point and locals.  `stands`, `wrote` and
      `counted` record what it did: its submission is counted and not taken
      back, a socket accepted a byte of its request, it advanced `completed`. */
  datatype Callback = Callback(
    pc: Pc, at: Attempt, rejected: bool,
    seenSubmitted: Loaded, seenCompleted: Loaded,
    stands: bool, wrote: bool, counted: bool)

  /** The shared context: the fields every callback loads and stores. */
  datatype Context = Context(
    guard: bool, clock: int, invocations: nat, active: int,
    submitted: int, completed: int, httpAttempts: nat,
    unknown: bool, evidenceLost: bool, localFailure: bool,
    attempts: seq<Attempt>)

  /** One context and the callbacks that entered it, in entry order. */
  datatype System = System(ctx: Context, callbacks: seq<Callback>)

  /** Everything the environment decides at one step; an exception that `escapes` the
      local handler leaves through the wrapper. */
  datatype Env = Env(advance: nat, fails: bool, escapes: bool, completedFirst: bool, http: HttpOutcome)

  datatype Event = Enter(thread: nat, size: nat, offset: int) | Run(i: nat, env: Env)

  function Initial(guard: bool): System {
    System(Context(guard, 0, 0, 0, 0, 0, 0, false, false, false, []), [])
  }

  function Next(s: System, e: Event): System {
    match e
    case Enter(thread, size, offset) =>
      var ctx := s.ctx.(invocations := s.ctx.invocations + 1, active := s.ctx.active + 1);
      System(ctx, s.callbacks + [Entry(s.ctx, thread, size, offset)])
    case Run(i, env) =>
      if i < |s.callbacks| then
        var (ctx, c) := Advance(s.ctx, s.callbacks[i], env);
        System(ctx, s.callbacks[i := c])
      else s
  }

  /** The system after a sequence of events, from the initial context. */
  function Exec(guard: bool, events: seq<Event>): System {
    if events == [] then Initial(guard)
    else Next(Exec(guard, events[..|events| - 1]), events[|events| - 1])
  }

  /** A new callback: ordinal and overlap flag come from one critical section. */
  function Entry(x: Context, thread: nat, size: nat, offset: int): Callback {
    var at := Attempt(x.invocations, 0, 0, size, offset, false, false, false, false, x.active > 0, thread, false);
    Callback(Entered, at, false, NotYet, NotYet, false, false, false)
  }

  /** One step of a callback `c` on the shared context `x`. */
  function Advance(x: Context, c: Callback, env: Env): (Context, Callback) {
    match c.pc
    case Entered => Test(x, c, env)
    case Building =>
      if env.escapes then (x, c.(pc := Catching))
      else if env.fails then (x.(localFailure := true), c.(pc := Recording))
      else (x, c.(pc := Submitting))
    case Submitting => (x.(submitted := x.submitted + 1), c.(pc := Latching, stands := true))
    case Latching => (x.(unknown := true), c.(pc := InHttp))
    case InHttp => Exchange(x, c, env.http)
    case TakingBack => (x.(submitted := x.submitted - 1), c.(pc := Comparing, stands := false))
    case Comparing => (x, Compare(x, c, env.completedFirst))
    case Clearing => (x.(unknown := false), c.(pc := AfterComparison(c)))
    case Reading => (x, c.(pc := if env.fails then Catching else Deciding))
    case Deciding =>
      var at := c.at.(injected := x.guard && c.at.invocation == 0 && c.at.qualified);
      (x, c.(at := at, pc := if c.at.qualified && x.submitted == 1 then Completing else Recording))
    case Completing => (x.(completed := x.completed + 1), c.(pc := Settling, counted := true))
    case Settling => (x.(unknown := false), c.(pc := Recording))
    case Recording => Record(x, c, env)
    case Catching => (x, Catch(x, c, env.completedFirst))
    case Relatching => (x.(unknown := true), c.(pc := Losing))
    case Losing => (x.(evidenceLost := true), c.(pc := Leaving))
    case Leaving => (x.(active := x.active - 1), c.(pc := Gone))
    case Gone => (x, c)
  }

  /** A null RDMA argument leaves at once; a later invocation is guarded in guard
      mode or while `unknown` is latched; otherwise the request is built. */
  function Test(x: Context, c: Callback, env: Env): (Context, Callback) {
    if env.fails then (x, c.(pc := Leaving))
    else
      var now := x.clock + env.advance;
      var late := c.at.invocation >= 1 && (x.guard || x.unknown);
      (x.(clock := now), c.(pc := if late then Recording else Building, at := c.at.(tBegin := now, guarded := late)))
  }

  function Exchange(x: Context, c: Callback, http: HttpOutcome): (Context, Callback) {
    match http
    case Rejected => (x.(localFailure := true), c.(pc := TakingBack, rejected := true))
    case NotSent(err) => (x.(localFailure := x.localFailure || err), c.(pc := TakingBack))
    case Partial => (x, c.(pc := Reading, wrote := true, at := c.at.(partial := true)))
    case Sent(token, qualified) =>
      (x.(httpAttempts := x.httpAttempts + if token then 1 else 0),
       c.(pc := Reading, wrote := true, at := c.at.(httpAttempt := token, qualified := qualified)))
    case Threw(accepted) => (x, c.(pc := Catching, wrote := accepted))
  }

  /** A rejected request is recorded at once; any other goes on to the receipt. */
  function AfterComparison(c: Callback): Pc { if c.rejected then Recording else Reading }

  /** One of the two loads of a comparison, in the order the compiler chose. */
  function Load(x: Context, c: Callback, completedFirst: bool): Callback {
    if c.seenSubmitted.NotYet? && (c.seenCompleted.Value? || !completedFirst)
    then c.(seenSubmitted := Value(x.submitted))
    else c.(seenCompleted := Value(x.completed))
  }

  function Compare(x: Context, c: Callback, completedFirst: bool): Callback {
    var d := Load(x, c, completedFirst);
    if d.seenSubmitted.NotYet? || d.seenCompleted.NotYet? then d
    else d.(pc := if d.seenSubmitted == d.seenCompleted then Clearing else AfterComparison(c))
  }

  /** The wrapper's handler makes its own pair of loads. */
  function Catch(x: Context, c: Callback, completedFirst: bool): Callback {
    Decide(Load(x, Fresh(c), completedFirst))
  }

  function Decide(d: Callback): Callback {
    if d.seenSubmitted.NotYet? || d.seenCompleted.NotYet? then d
    else d.(pc := if d.seenSubmitted.n > d.seenCompleted.n then Relatching else Losing)
  }

  /** Drops a full pair left over from an earlier comparison. */
  function Fresh(c: Callback): Callback {
    if c.seenSubmitted.Value? && c.seenCompleted.Value?
    then c.(seenSubmitted := NotYet, seenCompleted := NotYet) else c
  }

  /** push: the record is kept, or its loss is latched. */
  function Record(x: Context, c: Callback, env: Env): (Context, Callback) {
    var now := x.clock + env.advance;
    var at := c.at.(tEnd := now);
    var y := x.(clock := now);
    (if env.fails then y.(evidenceLost := true) else y.(attempts := x.attempts + [at]), c.(pc := Leaving, at := at))
  }

  // --- what holds under every interleaving -----------------------------------

  function Standing(cs: seq<Callback>): nat {
    if cs == [] then 0 else Standing(cs[..|cs| - 1]) + if cs[|cs| - 1].stands then 1 else 0
  }

  function Counted(cs: seq<Callback>): nat {
    if cs == [] then 0 else Counted(cs[..|cs| - 1]) + if cs[|cs| - 1].counted then 1 else 0
  }

  function Inside(cs: seq<Callback>): nat {
    if cs == [] then 0 else Inside(cs[..|cs| - 1]) + if !cs[|cs| - 1].pc.Gone? then 1 else 0
  }

  function Messages(cs: seq<Callback>): nat {
    if cs == [] then 0 else Messages(cs[..|cs| - 1]) + if cs[|cs| - 1].at.httpAttempt then 1 else 0
  }

  lemma {:induction false} CountsAfterUpdate(cs: seq<Callback>, i: nat, c: Callback)
    requires i < |cs|
    ensures Standing(cs[i := c]) == Standing(cs) - (if cs[i].stands then 1 else 0) + (if c.stands then 1 else 0)
    ensures Counted(cs[i := c]) == Counted(cs) - (if cs[i].counted then 1 else 0) + (if c.counted then 1 else 0)
    ensures Inside(cs[i := c]) == Inside(cs) - (if !cs[i].pc.Gone? then 1 else 0) + (if !c.pc.Gone? then 1 else 0)
    ensures Messages(cs[i := c]) ==
            Messages(cs) - (if cs[i].at.httpAttempt then 1 else 0) + (if c.at.httpAttempt then 1 else 0)
  {
    var n := |cs| - 1;
    if i == n {
      assert cs[i := c][..n] == cs[..n];
    } else {
      assert cs[i := c][..n] == cs[..n][i := c];
      CountsAfterUpdate(cs[..n], i, c);
    }
  }

  /** A callback that stands is counted, and two are counted twice. */
  lemma {:induction false} StandingAtLeast(cs: seq<Callback>, i: nat)
    requires i < |cs| && cs[i].stands
    ensures Standing(cs) >= 1
    ensures Standing(cs) == 1 ==> forall j :: 0 <= j < |cs| && cs[j].stands ==> j == i
  {
    var n := |cs| - 1;
    if i == n {
      if Standing(cs[..n]) == 0 {
        NoneStands(cs[..n]);
        assert forall j :: 0 <= j < n ==> cs[j] == cs[..n][j];
      }
    } else {
      StandingAtLeast(cs[..n], i);
      assert forall j :: 0 <= j < n ==> cs[j] == cs[..n][j];
    }
  }

  lemma {:induction false} NoneStands(cs: seq<Callback>)
    requires Standing(cs) == 0
    ensures forall j :: 0 <= j < |cs| ==> !cs[j].stands
  {
    if cs != [] {
      var n := |cs| - 1;
      NoneStands(cs[..n]);
      forall j | 0 <= j < |cs| ensures !cs[j].stands {
        if j < n { assert !cs[..n][j].stands; }
      }
    }
  }

  lemma {:induction false} SomeCounted(cs: seq<Callback>) returns (i: nat)
    requires Counted(cs) >= 1
    ensures i < |cs| && cs[i].counted
  {
    i := |cs| - 1;
    if !cs[i].counted { i := SomeCounted(cs[..|cs| - 1]); }
  }

  lemma {:induction false} OneCounted(cs: seq<Callback>)
    requires forall i, j :: 0 <= i < |cs| && 0 <= j < |cs| && cs[i].counted && cs[j].counted ==> i == j
    ensures Counted(cs) <= 1
  {
    if cs != [] {
      var n := |cs| - 1;
      OneCounted(cs[..n]);
      if Counted(cs[..n]) == 1 {
        var i := SomeCounted(cs[..n]);
        assert cs[i].counted;
      }
    }
  }

  lemma {:induction false} InsideZero(cs: seq<Callback>)
    requires forall j :: 0 <= j < |cs| ==> cs[j].pc.Gone?
    ensures Inside(cs) == 0
  {
    if cs != [] { InsideZero(cs[..|cs| - 1]); }
  }

  /** The callback passed the test `submitted == 1` with a qualified receipt. */
  predicate Claimed(c: Callback) { c.pc.Completing? || c.counted }

  predicate BeforeSubmission(pc: Pc) { pc.Entered? || pc.Building? || pc.Submitting? }

  /** What each callback's own history guarantees, whatever the others do. */
  predicate Local(c: Callback, guard: bool) {
    && (c.wrote ==> c.stands)
    && (c.at.qualified || c.at.httpAttempt || c.at.partial ==> c.wrote)
    && (Claimed(c) ==> c.at.qualified)
    && (c.counted ==> c.pc.Settling? || c.pc.Recording? || c.pc.Leaving? || c.pc.Gone?)
    && (BeforeSubmission(c.pc) ==> !c.stands)
    && (c.pc.Latching? || c.pc.InHttp? || c.pc.TakingBack? ==> c.stands && !c.wrote)
    && (guard && c.at.invocation >= 1 ==>
          !c.stands && (c.pc.Entered? || c.pc.Recording? || c.pc.Leaving? || c.pc.Gone?))
  }

  predicate Inv(s: System) {
    && s.ctx.invocations == |s.callbacks|
    && s.ctx.submitted == Standing(s.callbacks)
    && s.ctx.completed == Counted(s.callbacks)
    && s.ctx.active == Inside(s.callbacks)
    && s.ctx.httpAttempts == Messages(s.callbacks)
    && (forall i :: 0 <= i < |s.callbacks| ==> Local(s.callbacks[i], s.ctx.guard) && s.callbacks[i].at.invocation == i)
    && (forall i, j | 0 <= i < |s.callbacks| && 0 <= j < |s.callbacks| ::
          Claimed(s.callbacks[i]) && Claimed(s.callbacks[j]) ==> i == j)
  }

  function Bit(b: bool): int { if b then 1 else 0 }

  /** The shared counters move exactly with what the callback did, and only a
      sole standing submission can be claimed. */
  predicate Moved(x: Context, c: Callback, y: Context, d: Callback) {
    && y.guard == x.guard && y.invocations == x.invocations
    && Local(d, x.guard) && d.at.invocation == c.at.invocation
    && y.submitted - x.submitted == Bit(d.stands) - Bit(c.stands)
    && y.completed - x.completed == Bit(d.counted) - Bit(c.counted)
    && y.httpAttempts - x.httpAttempts == Bit(d.at.httpAttempt) - Bit(c.at.httpAttempt)
    && y.active - x.active == Bit(!d.pc.Gone?) - Bit(!c.pc.Gone?)
    && (Claimed(d) && !Claimed(c) ==> c.stands && x.submitted == 1)
  }

  predicate AdvanceKeeps(x: Context, c: Callback, env: Env) {
    var (y, d) := Advance(x, c, env);
    Moved(x, c, y, d)
  }

  lemma UnsentMoves(x: Context, c: Callback, http: HttpOutcome)
    requires Local(c, x.guard) && c.pc.InHttp? && (http.Rejected? || http.NotSent? || http.Threw?)
    ensures var (y, d) := Exchange(x, c, http); Moved(x, c, y, d)
  {}

  lemma SentMoves(x: Context, c: Callback, http: HttpOutcome)
    requires Local(c, x.guard) && c.pc.InHttp? && (http.Partial? || http.Sent?)
    ensures var (y, d) := Exchange(x, c, http); Moved(x, c, y, d)
  {}

  lemma ExchangeMoves(x: Context, c: Callback, env: Env)
    requires Local(c, x.guard) && c.pc.InHttp?
    ensures AdvanceKeeps(x, c, env)
  {
    if env.http.Partial? || env.http.Sent? { SentMoves(x, c, env.http); } else { UnsentMoves(x, c, env.http); }
  }

  /** A step that only loads leaves everything else the callback did as it was. */
  predicate SameHistory(c: Callback, d: Callback) {
    d.at == c.at && d.rejected == c.rejected && d.stands == c.stands && d.wrote == c.wrote && d.counted == c.counted
  }

  lemma CompareOnlyLoads(x: Context, c: Callback, first: bool)
    requires c.pc.Comparing?
    ensures var d := Compare(x, c, first);
            SameHistory(c, d) && (d.pc.Comparing? || d.pc.Clearing? || d.pc.Recording? || d.pc.Reading?)
  {}

  lemma CatchOnlyLoads(x: Context, c: Callback, first: bool)
    requires c.pc.Catching?
    ensures var d := Catch(x, c, first); SameHistory(c, d) && (d.pc.Catching? || d.pc.Relatching? || d.pc.Losing?)
  {}

  lemma LoadMoves(x: Context, c: Callback, d: Callback)
    requires Local(c, x.guard) && SameHistory(c, d) && (c.pc.Comparing? || c.pc.Catching?)
    requires d.pc.Comparing? || d.pc.Clearing? || d.pc.Recording? || d.pc.Reading? || d.pc.Catching? || d.pc.Relatching? || d.pc.Losing?
    ensures Moved(x, c, x, d)
  {}

  lemma CompareMoves(x: Context, c: Callback, env: Env)
    requires Local(c, x.guard) && c.pc.Comparing?
    ensures AdvanceKeeps(x, c, env)
  {
    CompareOnlyLoads(x, c, env.completedFirst);
    LoadMoves(x, c, Compare(x, c, env.completedFirst));
  }

  lemma CatchMoves(x: Context, c: Callback, env: Env)
    requires Local(c, x.guard) && c.pc.Catching?
    ensures AdvanceKeeps(x, c, env)
  {
    CatchOnlyLoads(x, c, env.completedFirst);
    LoadMoves(x, c, Catch(x, c, env.completedFirst));
  }

  lemma OutwardMoves(x: Context, c: Callback, env: Env)
    requires Local(c, x.guard) && (c.pc.Entered? || c.pc.Building? || c.pc.Submitting? || c.pc.Latching?)
    ensures AdvanceKeeps(x, c, env)
  {}

  lemma ReceiptMoves(x: Context, c: Callback, env: Env)
    requires Local(c, x.guard) && (c.pc.Reading? || c.pc.Deciding? || c.pc.Completing? || c.pc.Settling?)
    ensures AdvanceKeeps(x, c, env)
  {}

  lemma ExitMoves(x: Context, c: Callback, env: Env)
    requires Local(c, x.guard) && (c.pc.Clearing? || c.pc.TakingBack? || c.pc.Relatching? || c.pc.Losing?)
    ensures AdvanceKeeps(x, c, env)
  {}

  lemma LeaveMoves(x: Context, c: Callback, env: Env)
    requires Local(c, x.guard) && (c.pc.Recording? || c.pc.Leaving? || c.pc.Gone?)
    ensures AdvanceKeeps(x, c, env)
  {}

  lemma AdvanceMoves(x: Context, c: Callback, env: Env)
    requires Local(c, x.guard)
    ensures AdvanceKeeps(x, c, env)
  {
    match c.pc
    case Entered | Building | Submitting | Latching => OutwardMoves(x, c, env);
    case InHttp => ExchangeMoves(x, c, env);
    case Comparing => CompareMoves(x, c, env);
    case Catching => CatchMoves(x, c, env);
    case Reading | Deciding | Completing | Settling => ReceiptMoves(x, c, env);
    case TakingBack | Clearing | Relatching | Losing => ExitMoves(x, c, env);
    case Recording | Leaving | Gone => LeaveMoves(x, c, env);
  }

  lemma EnterKeepsInv(s: System, thread: nat, size: nat, offset: int)
    requires Inv(s)
    ensures Inv(Next(s, Enter(thread, size, offset)))
  {
    var t := Next(s, Enter(thread, size, offset));
    assert t.callbacks[..|t.callbacks| - 1] == s.callbacks;
  }

  lemma MovedKeepsInv(s: System, i: nat, y: Context, d: Callback)
    requires Inv(s) && i < |s.callbacks| && Moved(s.ctx, s.callbacks[i], y, d)
    ensures Inv(System(y, s.callbacks[i := d]))
  {
    var c := s.callbacks[i];
    CountsAfterUpdate(s.callbacks, i, d);
    if Claimed(d) && !Claimed(c) {
      StandingAtLeast(s.callbacks, i);
      forall j | 0 <= j < |s.callbacks| && Claimed(s.callbacks[j]) ensures j == i {
        assert Local(s.callbacks[j], s.ctx.guard);
      }
    }
  }

  lemma NextKeepsInv(s: System, e: Event)
    requires Inv(s)
    ensures Inv(Next(s, e)) && Next(s, e).ctx.guard == s.ctx.guard
  {
    match e
    case Enter(thread, size, offset) => EnterKeepsInv(s, thread, size, offset);
    case Run(i, env) =>
      if i < |s.callbacks| {
        var (y, d) := Advance(s.ctx, s.callbacks[i], env);
        AdvanceMoves(s.ctx, s.callbacks[i], env);
        MovedKeepsInv(s, i, y, d);
      }
  }

  lemma {:induction false} InvAlways(guard: bool, events: seq<Event>)
    ensures Inv(Exec(guard, events)) && Exec(guard, events).ctx.guard == guard
  {
    if events != [] {
      InvAlways(guard, events[..|events| - 1]);
      NextKeepsInv(Exec(guard, events[..|events| - 1]), events[|events| - 1]);
    }
  }

  // --- the joint gate ---------------------------------------------------------

  predicate Returned(s: System) { forall i :: 0 <= i < |s.callbacks| ==> s.callbacks[i].pc.Gone? }

  /** exp_single_get: the landing is held back and the graph retained. */
  predicate Held(x: Context, sdkReturned: bool) {
    x.submitted > 0 && (x.unknown || x.evidenceLost || !sdkReturned || x.completed != x.submitted)
  }

  /** exp_concurrent, reference pass and rounds: the same test without the
      no-emission exemption. */
  predicate Unsettled(x: Context, sdkReturned: bool) {
    x.unknown || x.evidenceLost || !sdkReturned || x.completed != x.submitted
  }

  /** No request of this GET that a socket accepted a byte of is unresolved:
      there is none, or exactly one, and it has a qualified receipt. */
  predicate Resolved(s: System) {
    || (forall i :: 0 <= i < |s.callbacks| ==> !s.callbacks[i].wrote)
    || exists i ::
         && 0 <= i < |s.callbacks| && s.callbacks[i].wrote && s.callbacks[i].at.qualified
         && s.callbacks[i].stands && s.callbacks[i].counted
         && forall j :: 0 <= j < |s.callbacks| && j != i ==> !s.callbacks[j].wrote && !s.callbacks[j].stands
  }

  /** Under every interleaving at most one receipt is ever counted. */
  lemma CompletedAtMostOnce(guard: bool, events: seq<Event>)
    ensures 0 <= Exec(guard, events).ctx.completed <= 1
    ensures Exec(guard, events).ctx.completed <= Exec(guard, events).ctx.submitted
  {
    InvAlways(guard, events);
    var s := Exec(guard, events);
    OneCounted(s.callbacks);
    if s.ctx.completed >= 1 {
      var i := SomeCounted(s.callbacks);
      assert Local(s.callbacks[i], guard);
      StandingAtLeast(s.callbacks, i);
    }
  }

  /** At any instant of any interleaving, equal counters mean that every request
      possibly on the wire is resolved. */
  lemma EqualCountersResolve(guard: bool, events: seq<Event>)
    ensures var s := Exec(guard, events); s.ctx.completed == s.ctx.submitted ==> Resolved(s)
  {
    var s := Exec(guard, events);
    InvAlways(guard, events);
    CompletedAtMostOnce(guard, events);
    if s.ctx.completed == s.ctx.submitted == 0 {
      NoneStands(s.callbacks);
      assert forall i :: 0 <= i < |s.callbacks| ==> Local(s.callbacks[i], guard);
    } else if s.ctx.completed == s.ctx.submitted {
      var i := SomeCounted(s.callbacks);
      assert forall j :: 0 <= j < |s.callbacks| ==> Local(s.callbacks[j], guard);
      StandingAtLeast(s.callbacks, i);
    }
  }

  /** The landing is read, and a round is judged, only when nothing possibly
      effective is unresolved. */
  lemma GateIsSafe(guard: bool, events: seq<Event>, sdkReturned: bool)
    requires Returned(Exec(guard, events))
    ensures var s := Exec(guard, events); !Held(s.ctx, sdkReturned) ==> Resolved(s)
    ensures var s := Exec(guard, events); !Unsettled(s.ctx, sdkReturned) ==> Resolved(s)
  {
    CompletedAtMostOnce(guard, events);
    EqualCountersResolve(guard, events);
    InvAlways(guard, events);
  }

  /** Guard mode emits at most one request, whatever overlaps. */
  lemma GuardEmitsOnce(events: seq<Event>)
    ensures var s := Exec(true, events);
            && s.ctx.httpAttempts <= 1
            && forall i :: 1 <= i < |s.callbacks| ==> !s.callbacks[i].wrote
  {
    var s := Exec(true, events);
    InvAlways(true, events);
    assert forall i :: 1 <= i < |s.callbacks| ==> Local(s.callbacks[i], true);
    FewMessages(s.callbacks);
  }

  lemma {:induction false} FewMessages(cs: seq<Callback>)
    requires forall i :: 1 <= i < |cs| ==> !cs[i].at.httpAttempt
    ensures Messages(cs) <= 1
    ensures cs == [] ==> Messages(cs) == 0
  {
    if cs != [] { FewMessages(cs[..|cs| - 1]); }
  }
}
