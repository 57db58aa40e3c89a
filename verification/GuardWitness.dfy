/** The re-entry witness of guard mode (common/guard_witness.hpp), and the runs
    of the callback that are sure to produce it. */
module GuardWitness {
  import opened RigCallback
  import opened RigSerial

  /** The first entry emitted the only message and got the injected return; every
      later entry is the same request re-issued on the same thread, strictly
      after that return was decided, and was refused without emission. */
  predicate Witnessed(a: seq<Attempt>) {
    && |a| >= 2
    && a[0].injected && !a[0].guarded && a[0].httpAttempt
    && (forall i :: 0 <= i < |a| ==> !a[i].enteredWhileActive && !a[i].partial)
    && (forall i :: 1 <= i < |a| ==> !a[i].httpAttempt && Reissues(a[0], a[i]))
  }

  predicate Reissues(first: Attempt, later: Attempt) {
    && later.guarded && later.tBegin > first.tEnd && later.thread == first.thread
    && later.size == first.size && later.offset == first.offset
  }

  function Emitted(a: seq<Attempt>): nat {
    if a == [] then 0 else Emitted(a[..|a| - 1]) + if a[|a| - 1].httpAttempt then 1 else 0
  }

  lemma {:induction false} OnlyFirstEmitted(a: seq<Attempt>)
    requires a != [] && a[0].httpAttempt
    ensures Emitted(a) >= 1
    ensures Emitted(a) == 1 <==> forall i :: 1 <= i < |a| ==> !a[i].httpAttempt
  {
    var n := |a| - 1;
    if n > 0 {
      OnlyFirstEmitted(a[..n]);
      assert forall i :: 0 <= i < n ==> a[..n][i] == a[i];
    } else {
      assert a[..n] == [];
    }
  }

  datatype Why =
    | Established | NoReentry | Overlapping | FirstNotInjected | PartialWrite | MessageCount
    | NotGuarded | NotAfterMarker | OtherThread | ShapeDiffers

  method NoneOverlaps(a: seq<Attempt>) returns (ok: bool)
    ensures ok <==> forall i :: 0 <= i < |a| ==> !a[i].enteredWhileActive
  {
    for i := 0 to |a|
      invariant forall j :: 0 <= j < i ==> !a[j].enteredWhileActive
    {
      if a[i].enteredWhileActive { return false; }
    }
    return true;
  }

  /** Counts the messages, up to a partial write. */
  method CountMessages(a: seq<Attempt>) returns (ok: bool, messages: nat)
    ensures ok <==> forall i :: 0 <= i < |a| ==> !a[i].partial
    ensures ok ==> messages == Emitted(a)
  {
    messages := 0;
    for i := 0 to |a|
      invariant messages == Emitted(a[..i])
      invariant forall j :: 0 <= j < i ==> !a[j].partial
    {
      assert a[..i + 1][..i] == a[..i];
      messages := messages + if a[i].httpAttempt then 1 else 0;
      if a[i].partial { return false, messages; }
    }
    assert a[..|a|] == a;
    ok := true;
  }

  method AllReissue(a: seq<Attempt>) returns (why: Why)
    requires a != []
    ensures why.Established? <==> forall i :: 1 <= i < |a| ==> Reissues(a[0], a[i])
  {
    var first := a[0];
    for i := 1 to |a|
      invariant forall j :: 1 <= j < i ==> Reissues(first, a[j])
    {
      var later := a[i];
      if !later.guarded { return NotGuarded; }
      if later.tBegin <= first.tEnd { return NotAfterMarker; }
      if later.thread != first.thread { return OtherThread; }
      if later.size != first.size || later.offset != first.offset { return ShapeDiffers; }
    }
    return Established;
  }

  /** The decision procedure, loop by loop. */
  method Evaluate(a: seq<Attempt>) returns (ok: bool, why: Why)
    ensures ok <==> Witnessed(a)
    ensures ok <==> why.Established?
  {
    if |a| < 2 { return false, NoReentry; }
    var apart := NoneOverlaps(a);
    if !apart { return false, Overlapping; }
    if !a[0].injected || a[0].guarded || !a[0].httpAttempt { return false, FirstNotInjected; }
    var whole, messages := CountMessages(a);
    if !whole { return false, PartialWrite; }
    OnlyFirstEmitted(a);
    if messages != 1 { return false, MessageCount; }
    why := AllReissue(a);
    ok := why.Established?;
  }

  // --- runs that produce the witness ------------------------------------------

  /** Every clock reading of the run is later than the one before it. */
  predicate StrictClock(events: seq<Event>) {
    forall k :: 0 <= k < |events| && events[k].Run? ==> events[k].env.advance > 0
  }

  /** What the record of a callback that does not overlap another is sure to say. */
  predicate Faithful(at: Attempt) {
    && !at.enteredWhileActive
    && !(at.partial && at.httpAttempt)
    && (at.invocation >= 1 ==> at.guarded && !at.httpAttempt && !at.partial)
    && (at.invocation == 0 ==> !at.guarded && (at.qualified ==> at.injected))
  }

  /** The running callback, up to the point where it is recorded. */
  predicate Pending(x: Context, c: Callback) {
    && !c.at.enteredWhileActive && !(c.at.partial && c.at.httpAttempt)
    && (c.pc.Entered? || c.pc.Building? || c.pc.Submitting? || c.pc.Latching? || c.pc.InHttp? ==>
          !c.at.partial && !c.at.httpAttempt)
    && (c.pc.TakingBack? || c.pc.Comparing? || c.pc.Clearing? ==> !c.at.qualified)
    && (c.pc.Entered? ==> !c.at.guarded)
    && (c.at.guarded ==> c.at.invocation >= 1)
    && (c.pc.Completing? || c.pc.Settling? || c.pc.Recording? ==>
          (c.at.invocation == 0 && c.at.qualified ==> c.at.injected) && (c.at.invocation >= 1 ==> c.at.guarded))
    && (!c.pc.Leaving? && !c.pc.Gone? ==> Behind(x.attempts, c.at.invocation))
    && (!c.pc.Leaving? && !c.pc.Gone? && !c.pc.Entered? ==> Earlier(x.attempts, c.at.tBegin))
  }

  /** The records of earlier invocations, all ended before an instant. */
  predicate Behind(attempts: seq<Attempt>, invocation: nat) { forall a :: a in attempts ==> a.invocation < invocation }

  predicate Earlier(attempts: seq<Attempt>, t: int) { forall a :: a in attempts ==> a.tEnd < t }

  predicate Recorded(x: Context) { Kept(x.attempts, x.clock, x.invocations) }

  predicate Kept(attempts: seq<Attempt>, clock: int, invocations: nat) {
    && (forall a :: a in attempts ==> Faithful(a) && a.tEnd <= clock && a.invocation < invocations)
    && (forall i, j :: 0 <= i < j < |attempts| ==>
          attempts[i].invocation < attempts[j].invocation && attempts[i].tEnd < attempts[j].tBegin)
  }

  predicate Trail(s: System) {
    Recorded(s.ctx) && (s.callbacks != [] ==> Pending(s.ctx, s.callbacks[|s.callbacks| - 1]))
  }

  predicate AdvanceTrail(x: Context, c: Callback, env: Env) {
    var (y, d) := Advance(x, c, env);
    Recorded(y) && Pending(y, d)
  }

  lemma RecordTrail(x: Context, c: Callback, env: Env)
    requires x.guard && Local(c, true) && Recorded(x) && Pending(x, c) && c.at.invocation < x.invocations
    requires c.pc.Recording?
    ensures AdvanceTrail(x, c, env)
  {
    var (y, d) := Record(x, c, env);
    KeptLater(x.attempts, x.clock, y.clock, x.invocations);
    if !env.fails { KeptNext(x.attempts, y.clock, x.invocations, d.at); }
  }

  lemma KeptLater(attempts: seq<Attempt>, clock: int, later: int, invocations: nat)
    requires Kept(attempts, clock, invocations) && clock <= later
    ensures Kept(attempts, later, invocations)
  {}

  lemma KeptNext(attempts: seq<Attempt>, clock: int, invocations: nat, a: Attempt)
    requires Kept(attempts, clock, invocations) && Faithful(a) && a.tEnd <= clock && a.invocation < invocations
    requires Behind(attempts, a.invocation) && Earlier(attempts, a.tBegin)
    ensures Kept(attempts + [a], clock, invocations)
  {
    forall i, j | 0 <= i < j < |attempts + [a]|
      ensures (attempts + [a])[i].invocation < (attempts + [a])[j].invocation
      ensures (attempts + [a])[i].tEnd < (attempts + [a])[j].tBegin
    {
      assert i < |attempts| && attempts[i] in attempts;
    }
  }

  lemma OutwardTrail(x: Context, c: Callback, env: Env)
    requires x.guard && Local(c, true) && Recorded(x) && Pending(x, c) && env.advance > 0
    requires c.pc.Entered? || c.pc.Building? || c.pc.Submitting? || c.pc.Latching?
    ensures AdvanceTrail(x, c, env)
  {}

  lemma ExchangeTrail(x: Context, c: Callback, env: Env)
    requires x.guard && Local(c, true) && Recorded(x) && Pending(x, c)
    requires c.pc.InHttp?
    ensures AdvanceTrail(x, c, env)
  {
    if env.http.Partial? || env.http.Sent? { SentTrail(x, c, env.http); } else { UnsentTrail(x, c, env.http); }
  }

  lemma UnsentTrail(x: Context, c: Callback, http: HttpOutcome)
    requires x.guard && Local(c, true) && Recorded(x) && Pending(x, c)
    requires c.pc.InHttp? && (http.Rejected? || http.NotSent? || http.Threw?)
    ensures var (y, d) := Exchange(x, c, http); Recorded(y) && Pending(y, d)
  {}

  lemma SentTrail(x: Context, c: Callback, http: HttpOutcome)
    requires x.guard && Local(c, true) && Recorded(x) && Pending(x, c)
    requires c.pc.InHttp? && (http.Partial? || http.Sent?)
    ensures var (y, d) := Exchange(x, c, http); Recorded(y) && Pending(y, d)
  {}

  lemma TakeBackTrail(x: Context, c: Callback, env: Env)
    requires x.guard && Local(c, true) && Recorded(x) && Pending(x, c)
    requires c.pc.TakingBack? || c.pc.Clearing?
    ensures AdvanceTrail(x, c, env)
  {}

  /** A step that only loads keeps the callback pending. */
  lemma LoadTrail(x: Context, c: Callback, d: Callback)
    requires x.guard && Local(c, true) && Pending(x, c) && SameHistory(c, d)
    requires if c.pc.Comparing? then d.pc.Comparing? || d.pc.Clearing? || d.pc.Recording? || d.pc.Reading?
             else c.pc.Catching? && (d.pc.Catching? || d.pc.Relatching? || d.pc.Losing?)
    ensures Pending(x, d)
  {}

  lemma CompareTrail(x: Context, c: Callback, env: Env)
    requires x.guard && Local(c, true) && Recorded(x) && Pending(x, c)
    requires c.pc.Comparing?
    ensures AdvanceTrail(x, c, env)
  {
    CompareOnlyLoads(x, c, env.completedFirst);
    LoadTrail(x, c, Compare(x, c, env.completedFirst));
  }

  lemma ReceiptTrail(x: Context, c: Callback, env: Env)
    requires x.guard && Local(c, true) && Recorded(x) && Pending(x, c)
    requires c.pc.Reading? || c.pc.Deciding? || c.pc.Completing? || c.pc.Settling?
    ensures AdvanceTrail(x, c, env)
  {}

  lemma LeaveTrail(x: Context, c: Callback, env: Env)
    requires x.guard && Local(c, true) && Recorded(x) && Pending(x, c)
    requires c.pc.Relatching? || c.pc.Losing? || c.pc.Leaving? || c.pc.Gone?
    ensures AdvanceTrail(x, c, env)
  {}

  lemma CatchTrail(x: Context, c: Callback, env: Env)
    requires x.guard && Local(c, true) && Recorded(x) && Pending(x, c)
    requires c.pc.Catching?
    ensures AdvanceTrail(x, c, env)
  {
    CatchOnlyLoads(x, c, env.completedFirst);
    LoadTrail(x, c, Catch(x, c, env.completedFirst));
  }

  lemma AdvanceKeepsTrail(x: Context, c: Callback, env: Env)
    requires x.guard && Local(c, true) && Recorded(x) && Pending(x, c) && c.at.invocation < x.invocations
    requires env.advance > 0
    ensures AdvanceTrail(x, c, env)
  {
    match c.pc
    case Entered | Building | Submitting | Latching => OutwardTrail(x, c, env);
    case InHttp => ExchangeTrail(x, c, env);
    case TakingBack | Clearing => TakeBackTrail(x, c, env);
    case Comparing => CompareTrail(x, c, env);
    case Reading | Deciding | Completing | Settling => ReceiptTrail(x, c, env);
    case Recording => RecordTrail(x, c, env);
    case Catching => CatchTrail(x, c, env);
    case Relatching | Losing | Leaving | Gone => LeaveTrail(x, c, env);
  }

  lemma NextKeepsTrail(s: System, e: Event)
    requires Inv(s) && Serial(s) && s.ctx.guard && Trail(s)
    requires e.Enter? ==> Returned(s)
    requires e.Run? ==> e.env.advance > 0
    ensures Trail(Next(s, e))
  {
    var n := |s.callbacks|;
    match e
    case Enter(_, _, _) => InsideZero(s.callbacks);
    case Run(i, env) =>
      if i < n {
        assert Local(s.callbacks[i], true);
        if i == n - 1 { AdvanceKeepsTrail(s.ctx, s.callbacks[i], env); }
        else { assert s.callbacks[i := s.callbacks[i]] == s.callbacks; }
      }
  }

  lemma {:induction false} TrailAlways(events: seq<Event>)
    requires NonNested(true, events) && StrictClock(events)
    ensures Trail(Exec(true, events))
  {
    if events != [] {
      var before, last := events[..|events| - 1], events[|events| - 1];
      assert StrictClock(before);
      TrailAlways(before);
      InvAlways(true, before);
      SerialAlways(true, before);
      assert last == events[|events| - 1];
      NextKeepsTrail(Exec(true, before), last);
    }
  }

  /** A non-nested guard-mode run whose clock strictly advances, recorded on one
      thread with one shape, whose first entry was a qualified token-bearing
      transfer and which has a recorded re-entry, satisfies the witness. */
  lemma GuardRunIsWitnessed(events: seq<Event>)
    requires NonNested(true, events) && StrictClock(events)
    requires var a := Exec(true, events).ctx.attempts;
             && |a| >= 2 && a[0].invocation == 0 && a[0].qualified && a[0].httpAttempt
             && forall i :: 0 <= i < |a| ==> a[i].thread == a[0].thread && a[i].size == a[0].size && a[i].offset == a[0].offset
    ensures Witnessed(Exec(true, events).ctx.attempts)
  {
    TrailAlways(events);
    var a := Exec(true, events).ctx.attempts;
    assert forall i :: 0 <= i < |a| ==> a[i] in a;
  }
}
