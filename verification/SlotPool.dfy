/** The slot pool of the fake-S3 server: acquire_slot and release_slot of any
    number of threads, each critical section one event, with the condition
    variable's wake-ups in flight (server/s3_server.cpp). */
module SlotPool {

  /** Where a thread is.  `Notifying` has pushed its slot and not yet notified;
      `Woken` has left the wait set and not yet re-acquired the mutex. */
  datatype Phase = Idle | Building | Holding(slot: nat) | Sleeping | Woken | Notifying

  /** `built` counts the slots ever created and names the next one. */
  datatype Pool = Pool(max: nat, total: nat, built: nat, free: seq<nat>, threads: seq<Phase>)

  /** `Fail` is a throwing create_slot; `w` is the waiter that notify_one picks. */
  datatype Event =
    | Acquire(i: nat)
    | Built(i: nat)
    | Fail(i: nat, w: nat)
    | Release(i: nat)
    | Notify(i: nat, w: nat)
    | Spurious(i: nat)
    | Recheck(i: nat)

  function Initial(max: nat, threads: nat): Pool {
    Pool(max, 0, 0, [], seq(threads, _ => Idle))
  }

  predicate At(p: Pool, i: nat, k: Phase) { i < |p.threads| && p.threads[i] == k }

  function Move(p: Pool, i: nat, k: Phase): Pool
    requires i < |p.threads|
  {
    p.(threads := p.threads[i := k])
  }

  /** Pop the free list, or fall asleep. */
  function TakeOrSleep(p: Pool, i: nat): Pool
    requires i < |p.threads|
  {
    if p.free == [] then Move(p, i, Sleeping)
    else Move(p.(free := p.free[..|p.free| - 1]), i, Holding(p.free[|p.free| - 1]))
  }

  /** notify_one can pick `w`: it waits, or nobody does. */
  predicate Picks(p: Pool, w: nat) { At(p, w, Sleeping) || Sleeping !in p.threads }

  function WakeOne(p: Pool, w: nat): Pool {
    if At(p, w, Sleeping) then Move(p, w, Woken) else p
  }

  /** An event whose thread is not at the right point does nothing. */
  function Next(p: Pool, e: Event): Pool {
    match e
    case Acquire(i) =>
      if !At(p, i, Idle) then p
      else if p.free == [] && p.total < p.max then Move(p.(total := p.total + 1), i, Building)
      else TakeOrSleep(p, i)
    case Built(i) => if At(p, i, Building) then Move(p.(built := p.built + 1), i, Holding(p.built)) else p
    case Fail(i, w) =>
      if At(p, i, Building) && Picks(p, w) then WakeOne(Move(p.(total := if p.total > 0 then p.total - 1 else 0), i, Idle), w) else p
    case Release(i) =>
      if i < |p.threads| && p.threads[i].Holding? then Move(p.(free := p.free + [p.threads[i].slot]), i, Notifying) else p
    case Notify(i, w) => if At(p, i, Notifying) && Picks(p, w) then WakeOne(Move(p, i, Idle), w) else p
    case Spurious(i) => if At(p, i, Sleeping) then Move(p, i, Woken) else p
    case Recheck(i) => if At(p, i, Woken) then TakeOrSleep(p, i) else p
  }

  function Exec(max: nat, threads: nat, events: seq<Event>): Pool {
    if events == [] then Initial(max, threads)
    else Next(Exec(max, threads, events[..|events| - 1]), events[|events| - 1])
  }

  // --- counting ----------------------------------------------------------------

  datatype Kind = OwnsSlot | Waits | Wakes | Other

  /** A thread that holds or builds a slot, sleeps, or is a wake-up in flight. */
  function KindOf(t: Phase): Kind {
    match t
    case Holding(_) => OwnsSlot
    case Building => OwnsSlot
    case Sleeping => Waits
    case Woken => Wakes
    case Notifying => Wakes
    case Idle => Other
  }

  function Tally(ts: seq<Phase>, k: Kind): nat {
    if ts == [] then 0 else Tally(ts[..|ts| - 1], k) + if KindOf(ts[|ts| - 1]) == k then 1 else 0
  }

  function Bit(b: bool): int { if b then 1 else 0 }

  lemma {:induction false} TallyUpdate(ts: seq<Phase>, i: nat, t: Phase, k: Kind)
    requires i < |ts|
    ensures Tally(ts[i := t], k) == Tally(ts, k) - Bit(KindOf(ts[i]) == k) + Bit(KindOf(t) == k)
  {
    var n := |ts| - 1;
    if i == n {
      assert ts[i := t][..n] == ts[..n];
    } else {
      assert ts[i := t][..n] == ts[..n][i := t];
      TallyUpdate(ts[..n], i, t, k);
    }
  }

  lemma {:induction false} TallyPositive(ts: seq<Phase>, k: Kind)
    ensures Tally(ts, k) > 0 <==> exists i :: 0 <= i < |ts| && KindOf(ts[i]) == k
  {
    if ts != [] {
      var n := |ts| - 1;
      TallyPositive(ts[..n], k);
      if KindOf(ts[n]) != k && Tally(ts, k) > 0 {
        var i :| 0 <= i < n && KindOf(ts[..n][i]) == k;
        assert KindOf(ts[i]) == k;
      }
      forall i | 0 <= i < n && KindOf(ts[i]) == k ensures Tally(ts, k) > 0 {
        assert KindOf(ts[..n][i]) == k;
      }
    }
  }

  // --- the invariant -----------------------------------------------------------

  predicate Distinct(s: seq<nat>) { forall i, j :: 0 <= i < j < |s| ==> s[i] != s[j] }

  /** Free slots are distinct, no slot has two holders, no held slot is free. */
  predicate Exclusive(p: Pool) {
    && Distinct(p.free) && (forall s :: s in p.free ==> s < p.built)
    && (forall i :: 0 <= i < |p.threads| && p.threads[i].Holding? ==> p.threads[i].slot < p.built && p.threads[i].slot !in p.free)
    && (forall i, j :: 0 <= i < j < |p.threads| && p.threads[i].Holding? && p.threads[j].Holding? ==>
          p.threads[i].slot != p.threads[j].slot)
  }

  /** Slots are conserved, and no wake-up is lost. */
  predicate Counted(p: Pool) {
    && |p.free| + Tally(p.threads, OwnsSlot) == p.total <= p.max
    && (Tally(p.threads, Waits) > 0 ==> |p.free| <= Tally(p.threads, Wakes))
  }

  /** Without a failed growth, whoever waits found the pool at its maximum. */
  predicate Full(p: Pool) {
    (exists i :: 0 <= i < |p.threads| && (p.threads[i].Sleeping? || p.threads[i].Woken?)) ==> p.total == p.max
  }

  lemma MoveTallies(p: Pool, i: nat, t: Phase)
    requires i < |p.threads|
    ensures forall k :: Tally(Move(p, i, t).threads, k) == Tally(p.threads, k) - Bit(KindOf(p.threads[i]) == k) + Bit(KindOf(t) == k)
  {
    forall k ensures Tally(Move(p, i, t).threads, k) == Tally(p.threads, k) - Bit(KindOf(p.threads[i]) == k) + Bit(KindOf(t) == k) {
      TallyUpdate(p.threads, i, t, k);
    }
  }

  lemma OwnerCounts(p: Pool, i: nat)
    requires i < |p.threads|
    ensures Tally(p.threads, KindOf(p.threads[i])) > 0
  {
    TallyPositive(p.threads, KindOf(p.threads[i]));
  }

  lemma TakeKeepsCounted(p: Pool, i: nat)
    requires Counted(p) && i < |p.threads| && (p.threads[i].Idle? || p.threads[i].Woken?)
    ensures Counted(TakeOrSleep(p, i))
  {
    OwnerCounts(p, i);
    MoveTallies(p, i, TakeOrSleep(p, i).threads[i]);
  }

  /** One thread moves on its own; `owns` slots and `wakes` may change with it. */
  lemma MoveKeepsCounted(p: Pool, q: Pool, i: nat, t: Phase)
    requires Counted(p) && i < |p.threads| && q == Move(q.(threads := p.threads), i, t)
    requires q.max == p.max && q.total <= q.max
    requires q.total - p.total == |q.free| - |p.free| + Bit(KindOf(t).OwnsSlot?) - Bit(KindOf(p.threads[i]).OwnsSlot?)
    requires |q.free| - |p.free| <= Bit(KindOf(t).Wakes?) - Bit(KindOf(p.threads[i]).Wakes?) && !KindOf(t).Waits?
    ensures Counted(q)
  {
    MoveTallies(p, i, t);
  }

  /** A wake-up is handed on: the notifier, or the failed builder, leaves and one
      sleeper, if there is any, takes its place. */
  lemma WakeKeepsCounted(p: Pool, i: nat, w: nat, total: nat)
    requires Counted(p) && i < |p.threads| && Picks(p, w)
    requires (p.threads[i].Notifying? && total == p.total) || (p.threads[i].Building? && total == p.total - 1)
    ensures Counted(WakeOne(Move(p.(total := total), i, Idle), w))
  {
    var q := Move(p.(total := total), i, Idle);
    MoveTallies(p, i, Idle);
    if At(q, w, Sleeping) { MoveTallies(q, w, Woken); }
    else { NobodyWaits(p, i); }
  }

  lemma NobodyWaits(p: Pool, i: nat)
    requires i < |p.threads| && Sleeping !in p.threads
    ensures Tally(Move(p, i, Idle).threads, Waits) == 0
  {
    TallyPositive(Move(p, i, Idle).threads, Waits);
  }

  lemma NextKeepsCounted(p: Pool, e: Event)
    requires Counted(p)
    ensures Counted(Next(p, e))
  {
    var i := e.i;
    if i < |p.threads| {
      OwnerCounts(p, i);
      match e
      case Acquire(_) =>
        if p.threads[i].Idle? {
          if p.free == [] && p.total < p.max { MoveKeepsCounted(p, Next(p, e), i, Building); }
          else { TakeKeepsCounted(p, i); }
        }
      case Recheck(_) => if p.threads[i].Woken? { TakeKeepsCounted(p, i); }
      case Built(_) => if p.threads[i].Building? { MoveKeepsCounted(p, Next(p, e), i, Holding(p.built)); }
      case Release(_) => if p.threads[i].Holding? { MoveKeepsCounted(p, Next(p, e), i, Notifying); }
      case Spurious(_) => if p.threads[i].Sleeping? { MoveKeepsCounted(p, Next(p, e), i, Woken); }
      case Fail(_, w) => if p.threads[i].Building? && Picks(p, w) { WakeKeepsCounted(p, i, w, p.total - 1); }
      case Notify(_, w) => if p.threads[i].Notifying? && Picks(p, w) { WakeKeepsCounted(p, i, w, p.total); }
    }
  }

  lemma TakeKeepsExclusive(p: Pool, i: nat)
    requires Exclusive(p) && i < |p.threads| && !p.threads[i].Holding?
    ensures Exclusive(TakeOrSleep(p, i))
  {
    if p.free != [] {
      var rest, last := p.free[..|p.free| - 1], p.free[|p.free| - 1];
      assert last in p.free && forall s :: s in rest ==> s in p.free;
      assert last !in rest;
    }
  }

  lemma ReleaseKeepsExclusive(p: Pool, i: nat)
    requires Exclusive(p) && i < |p.threads| && p.threads[i].Holding?
    ensures Exclusive(Next(p, Release(i)))
  {
    assert forall s :: s in p.free + [p.threads[i].slot] ==> s in p.free || s == p.threads[i].slot;
  }

  lemma WakeKeepsExclusive(p: Pool, i: nat, w: nat, total: nat)
    requires Exclusive(p) && i < |p.threads|
    ensures Exclusive(WakeOne(Move(p.(total := total), i, Idle), w))
  {}

  lemma NextKeepsExclusive(p: Pool, e: Event)
    requires Exclusive(p)
    ensures Exclusive(Next(p, e))
  {
    if e.i < |p.threads| {
      match e
      case Acquire(i) => if p.threads[i].Idle? { TakeKeepsExclusive(p, i); }
      case Recheck(i) => if p.threads[i].Woken? { TakeKeepsExclusive(p, i); }
      case Release(i) => if p.threads[i].Holding? { ReleaseKeepsExclusive(p, i); }
      case Fail(i, w) => WakeKeepsExclusive(p, i, w, if p.total > 0 then p.total - 1 else 0);
      case Notify(i, w) => WakeKeepsExclusive(p, i, w, p.total);
      case Built(_) =>
      case Spurious(_) =>
    }
  }

  lemma NextKeepsFull(p: Pool, e: Event)
    requires Full(p) && Counted(p) && !e.Fail?
    ensures Full(Next(p, e))
  {}

  lemma InitialIsCounted(max: nat, threads: nat)
    ensures Counted(Initial(max, threads))
  {
    TallyPositive(Initial(max, threads).threads, OwnsSlot);
    TallyPositive(Initial(max, threads).threads, Waits);
  }

  // --- theorems over every run ---------------------------------------------------

  /** In every run, growth failures included: slots are conserved and bounded, no
      slot has two holders, and no wake-up is lost. */
  lemma {:induction false} PoolIsSafe(max: nat, threads: nat, events: seq<Event>)
    ensures Exclusive(Exec(max, threads, events)) && Counted(Exec(max, threads, events))
    ensures Exec(max, threads, events).max == max
  {
    if events == [] {
      InitialIsCounted(max, threads);
    } else {
      var before := events[..|events| - 1];
      PoolIsSafe(max, threads, before);
      NextKeepsSafe(Exec(max, threads, before), events[|events| - 1]);
    }
  }

  lemma NextKeepsSafe(p: Pool, e: Event)
    requires Exclusive(p) && Counted(p)
    ensures Exclusive(Next(p, e)) && Counted(Next(p, e)) && Next(p, e).max == p.max
  {
    NextKeepsExclusive(p, e);
    NextKeepsCounted(p, e);
    NextKeepsMax(p, e);
  }

  lemma NextKeepsMax(p: Pool, e: Event)
    ensures Next(p, e).max == p.max
  {}

  predicate NoFailure(events: seq<Event>) { forall k :: 0 <= k < |events| ==> !events[k].Fail? }

  lemma {:induction false} WaitersFoundItFull(max: nat, threads: nat, events: seq<Event>)
    requires NoFailure(events)
    ensures Full(Exec(max, threads, events))
  {
    if events != [] {
      var before := events[..|events| - 1];
      WaitersFoundItFull(max, threads, before);
      PoolIsSafe(max, threads, before);
      NextKeepsFull(Exec(max, threads, before), events[|events| - 1]);
    }
  }

  /** Somebody sleeps, nobody holds or builds a slot, and no wake-up is in flight. */
  predicate Stranded(p: Pool) {
    && (exists i :: 0 <= i < |p.threads| && KindOf(p.threads[i]) == Waits)
    && forall i :: 0 <= i < |p.threads| ==> KindOf(p.threads[i]) == Waits || KindOf(p.threads[i]) == Other
  }

  /** When growth does not fail, no thread is ever stranded in acquire_slot. */
  lemma NobodyIsStranded(max: nat, threads: nat, events: seq<Event>)
    requires max > 0 && NoFailure(events)
    ensures !Stranded(Exec(max, threads, events))
  {
    var p := Exec(max, threads, events);
    PoolIsSafe(max, threads, events);
    WaitersFoundItFull(max, threads, events);
    TallyPositive(p.threads, Waits);
    TallyPositive(p.threads, OwnsSlot);
    TallyPositive(p.threads, Wakes);
  }

  // --- when a throwing growth strands somebody ---------------------------------------

  function Run(p: Pool, events: seq<Event>): Pool
    decreases |events|
  {
    if events == [] then p else Run(Next(p, events[0]), events[1..])
  }

  /** Only what is already under way: wake-ups are delivered and acted on. */
  predicate Settling(events: seq<Event>) { forall k :: 0 <= k < |events| ==> events[k].Recheck? || events[k].Notify? }

  /** Somebody has found no slot: asleep, or woken and about to look again. */
  predicate SomebodyWaits(p: Pool) {
    exists i :: 0 <= i < |p.threads| && (p.threads[i].Sleeping? || p.threads[i].Woken?)
  }

  lemma WakeKeepsWaiting(p: Pool, i: nat, w: nat, total: nat)
    requires i < |p.threads| && (p.threads[i].Building? || p.threads[i].Notifying?)
    ensures SomebodyWaits(WakeOne(Move(p.(total := total), i, Idle), w)) <==> SomebodyWaits(p)
  {
    var q := WakeOne(Move(p.(total := total), i, Idle), w);
    forall k | 0 <= k < |p.threads|
      ensures (q.threads[k].Sleeping? || q.threads[k].Woken?) <==> (p.threads[k].Sleeping? || p.threads[k].Woken?)
    {}
  }

  /** While no slot exists, delivering wake-ups creates none and lets nobody out. */
  lemma SettleStep(p: Pool, e: Event)
    requires Counted(p) && (e.Recheck? || e.Notify?)
    ensures Counted(Next(p, e)) && Next(p, e).total == p.total
    ensures p.total == 0 ==> (SomebodyWaits(Next(p, e)) <==> SomebodyWaits(p))
  {
    NextKeepsCounted(p, e);
    if e.Notify? && At(p, e.i, Notifying) && Picks(p, e.w) {
      WakeKeepsWaiting(p, e.i, e.w, p.total);
    } else if e.Recheck? && At(p, e.i, Woken) && p.total == 0 {
      var q := Next(p, e);
      assert q.threads[e.i].Sleeping? && p.threads[e.i].Woken?;
    }
  }

  lemma {:induction false} SettleKeeps(p: Pool, events: seq<Event>)
    requires Counted(p) && Settling(events)
    ensures Counted(Run(p, events)) && Run(p, events).total == p.total
    ensures p.total == 0 ==> (SomebodyWaits(Run(p, events)) <==> SomebodyWaits(p))
    decreases |events|
  {
    if events != [] {
      SettleStep(p, events[0]);
      SettleKeeps(Next(p, events[0]), events[1..]);
    }
  }

  /** Notifiers count twice: each may leave a woken thread behind. */
  function Unsettled(ts: seq<Phase>): nat {
    if ts == [] then 0 else Unsettled(ts[..|ts| - 1]) + Weight(ts[|ts| - 1])
  }

  function Weight(t: Phase): nat { if t.Notifying? then 2 else if t.Woken? then 1 else 0 }

  lemma {:induction false} UnsettledUpdate(ts: seq<Phase>, i: nat, t: Phase)
    requires i < |ts|
    ensures Unsettled(ts[i := t]) == Unsettled(ts) - Weight(ts[i]) + Weight(t)
  {
    var n := |ts| - 1;
    if i == n {
      assert ts[i := t][..n] == ts[..n];
    } else {
      assert ts[i := t][..n] == ts[..n][i := t];
      UnsettledUpdate(ts[..n], i, t);
    }
  }

  /** The next wake-up to deliver or act on. */
  lemma Progress(p: Pool, i: nat) returns (e: Event)
    requires Counted(p) && p.total == 0 && i < |p.threads| && KindOf(p.threads[i]) == Wakes
    ensures (e.Recheck? || e.Notify?) && Unsettled(Next(p, e).threads) < Unsettled(p.threads)
  {
    if p.threads[i].Woken? {
      e := Recheck(i);
      UnsettledUpdate(p.threads, i, Sleeping);
    } else {
      var w: nat := 0;
      if Sleeping in p.threads { w :| 0 <= w < |p.threads| && p.threads[w] == Sleeping; }
      e := Notify(i, w);
      UnsettledUpdate(p.threads, i, Idle);
      if At(p, w, Sleeping) { UnsettledUpdate(p.threads[i := Idle], w, Woken); }
    }
  }

  /** Without a slot, delivering every wake-up ends with all waiters asleep. */
  lemma {:induction false} SettlesStranded(p: Pool) returns (events: seq<Event>)
    requires Counted(p) && p.total == 0 && SomebodyWaits(p)
    ensures Settling(events) && Stranded(Run(p, events))
    decreases Unsettled(p.threads)
  {
    if i :| 0 <= i < |p.threads| && KindOf(p.threads[i]) == Wakes {
      var e := Progress(p, i);
      SettleStep(p, e);
      var rest := SettlesStranded(Next(p, e));
      events := [e] + rest;
      assert events[1..] == rest;
    } else {
      events := [];
      forall i | 0 <= i < |p.threads| ensures KindOf(p.threads[i]) != OwnsSlot {
        if KindOf(p.threads[i]) == OwnsSlot { OwnerCounts(p, i); }
      }
    }
  }

  lemma StrandedHasNoSlots(p: Pool)
    requires Counted(p) && Stranded(p)
    ensures p.total == 0 && SomebodyWaits(p)
  {
    TallyPositive(p.threads, Waits);
    TallyPositive(p.threads, OwnsSlot);
    TallyPositive(p.threads, Wakes);
  }

  /** A throwing create_slot strands a waiter, once the wake-ups under way are spent,
      exactly when the slot being built was the only one and somebody already waits:
      a woken waiter looks for a free slot, it never grows the pool itself. */
  lemma FailureStrandsIff(max: nat, threads: nat, events: seq<Event>, i: nat, w: nat)
    requires var p := Exec(max, threads, events); At(p, i, Building) && Picks(p, w)
    ensures var p := Exec(max, threads, events);
            (exists more :: Settling(more) && Stranded(Run(Next(p, Fail(i, w)), more))) <==>
            (p.total == 1 && SomebodyWaits(p))
  {
    var p := Exec(max, threads, events);
    var q := Next(p, Fail(i, w));
    PoolIsSafe(max, threads, events);
    OwnerCounts(p, i);
    NextKeepsCounted(p, Fail(i, w));
    WakeKeepsWaiting(p, i, w, p.total - 1);
    if p.total == 1 && SomebodyWaits(p) { var more := SettlesStranded(q); }
    if more :| Settling(more) && Stranded(Run(q, more)) {
      SettleKeeps(q, more);
      StrandedHasNoSlots(Run(q, more));
    }
  }

  /** One slot, two threads: the builder throws, the woken waiter finds the pool
      empty and sleeps again although it could now build the slot itself. */
  lemma FailedGrowthStrands()
    ensures Stranded(Exec(1, 2, [Acquire(0), Acquire(1), Fail(0, 1), Recheck(1)]))
  {
    ExecFour(1, 2, Acquire(0), Acquire(1), Fail(0, 1), Recheck(1));
    TwoThreads();
    LastIsStranded();
  }

  lemma LastIsStranded()
    ensures Stranded(Pool(1, 0, 0, [], [Idle, Sleeping]))
  {
    assert KindOf([Idle, Sleeping][1]) == Waits;
  }

  lemma ExecFour(max: nat, threads: nat, a: Event, b: Event, c: Event, d: Event)
    ensures Exec(max, threads, [a, b, c, d]) == Next(Next(Next(Next(Initial(max, threads), a), b), c), d)
  {
    assert [] + [a] == [a] && [a] + [b] == [a, b] && [a, b] + [c] == [a, b, c] && [a, b, c] + [d] == [a, b, c, d];
    ExecNext(max, threads, [], a);
    ExecNext(max, threads, [a], b);
    ExecNext(max, threads, [a, b], c);
    ExecNext(max, threads, [a, b, c], d);
  }

  lemma ExecNext(max: nat, threads: nat, events: seq<Event>, e: Event)
    ensures Exec(max, threads, events + [e]) == Next(Exec(max, threads, events), e)
  {
    assert (events + [e])[..|events|] == events;
  }

  /** The builder and the waiter, step by step. */
  lemma TwoThreads()
    ensures var p := Next(Next(Initial(1, 2), Acquire(0)), Acquire(1));
            p == Pool(1, 1, 0, [], [Building, Sleeping])
    ensures Next(Pool(1, 1, 0, [], [Building, Sleeping]), Fail(0, 1)) == Pool(1, 0, 0, [], [Idle, Woken])
    ensures Next(Pool(1, 0, 0, [], [Idle, Woken]), Recheck(1)) == Pool(1, 0, 0, [], [Idle, Sleeping])
  {
    assert Initial(1, 2).threads == [Idle, Idle];
  }
}
