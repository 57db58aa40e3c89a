/** How many GETs of a round were in flight at once: the sorted-event sweep of the
    concurrent experiment (probe/rig_probe_main.cpp). */
module OverlapSweep {

  /** When a callback entered and left, by a clock that does not run backwards. */
  datatype Interval = Interval(begin: int, end: int)

  predicate Forward(i: Interval) { i.begin <= i.end }

  predicate AllForward(s: seq<Interval>) { forall i :: 0 <= i < |s| ==> Forward(s[i]) }

  /** Whether the half-open interval covers an instant. */
  predicate Covers(i: Interval, t: int) { i.begin <= t < i.end }

  /** How many intervals cover an instant. */
  function Cover(s: seq<Interval>, t: int): nat {
    if s == [] then 0 else (if Covers(s[0], t) then 1 else 0) + Cover(s[1..], t)
  }

  /** `m` is the largest number of intervals that cover a common instant. */
  ghost predicate IsMaxCover(s: seq<Interval>, m: int) {
    (forall t :: Cover(s, t) <= m) && (exists t :: Cover(s, t) == m)
  }

  // --- events ------------------------------------------------------------------------------

  datatype Event = Event(time: int, delta: int)

  /** Earlier first; at one instant, ends before starts. */
  predicate Before(x: Event, y: Event) { if x.time != y.time then x.time < y.time else x.delta <= y.delta }

  predicate Sorted(s: seq<Event>) { forall i, j :: 0 <= i < j < |s| ==> Before(s[i], s[j]) }

  function Events(s: seq<Interval>): seq<Event> {
    if s == [] then [] else [Event(s[0].begin, 1), Event(s[0].end, -1)] + Events(s[1..])
  }

  predicate Unit(s: seq<Event>) { forall i :: 0 <= i < |s| ==> s[i].delta == 1 || s[i].delta == -1 }

  /** std::sort: any sorted rearrangement will do. */
  method Sort(s: seq<Event>) returns (r: seq<Event>)
    ensures Sorted(r) && multiset(r) == multiset(s)
  {
    r := [];
    for i := 0 to |s|
      invariant Sorted(r) && multiset(r) == multiset(s[..i])
    {
      r := Insert(r, s[i]);
      assert s[..i + 1] == s[..i] + [s[i]];
    }
    assert s[..|s|] == s;
  }

  method Insert(s: seq<Event>, e: Event) returns (r: seq<Event>)
    requires Sorted(s)
    ensures Sorted(r) && multiset(r) == multiset(s) + multiset{e}
  {
    var k := |s|;
    while k > 0 && !Before(s[k - 1], e)
      invariant 0 <= k <= |s| && forall i :: k <= i < |s| ==> Before(e, s[i])
    {
      k := k - 1;
    }
    r := s[..k] + [e] + s[k..];
    assert s == s[..k] + s[k..];
    InsertedIsSorted(s, k, e);
  }

  lemma InsertedIsSorted(s: seq<Event>, k: nat, e: Event)
    requires k <= |s| && Sorted(s) && (k > 0 ==> Before(s[k - 1], e)) && forall i :: k <= i < |s| ==> Before(e, s[i])
    ensures Sorted(s[..k] + [e] + s[k..])
  {
    assert forall i :: 0 <= i < k ==> Before(s[i], e);
  }

  // --- what the events add up to -----------------------------------------------------------------

  /** The net change up to and including an instant. */
  function Net(s: seq<Event>, t: int): int {
    if s == [] then 0 else (if s[0].time <= t then s[0].delta else 0) + Net(s[1..], t)
  }

  function Sum(s: seq<Event>): int {
    if s == [] then 0 else Sum(s[..|s| - 1]) + s[|s| - 1].delta
  }

  lemma {:induction false} NetAppend(a: seq<Event>, b: seq<Event>, t: int)
    ensures Net(a + b, t) == Net(a, t) + Net(b, t)
  {
    if a == [] {
      assert a + b == b;
    } else {
      NetAppend(a[1..], b, t);
      assert (a + b)[1..] == a[1..] + b;
    }
  }

  /** Rearranging events does not change the net. */
  lemma {:induction false} NetOfRearranged(a: seq<Event>, b: seq<Event>, t: int)
    requires multiset(a) == multiset(b)
    ensures Net(a, t) == Net(b, t)
  {
    if a == [] {
      assert |multiset(b)| == 0;
    } else {
      var k := Elsewhere(a, b);
      NetWithout(b, k, t);
      NetOfRearranged(a[1..], b[..k] + b[k + 1..], t);
    }
  }

  /** The first event of one is somewhere in the other, and the rests are rearranged too. */
  lemma Elsewhere(a: seq<Event>, b: seq<Event>) returns (k: nat)
    requires a != [] && multiset(a) == multiset(b)
    ensures k < |b| && b[k] == a[0] && multiset(a[1..]) == multiset(b[..k] + b[k + 1..])
  {
    assert a[0] in multiset(b);
    k :| 0 <= k < |b| && b[k] == a[0];
    RestsRearranged(a, b, k);
  }

  lemma RestsRearranged(a: seq<Event>, b: seq<Event>, k: nat)
    requires a != [] && multiset(a) == multiset(b) && k < |b| && b[k] == a[0]
    ensures multiset(a[1..]) == multiset(b[..k] + b[k + 1..])
  {
    Without(a, 0);
    Without(b, k);
    assert a[..0] + a[1..] == a[1..];
  }

  lemma Without(b: seq<Event>, k: nat)
    requires k < |b|
    ensures multiset(b[..k] + b[k + 1..]) == multiset(b) - multiset{b[k]}
  {
    assert b == b[..k] + [b[k]] + b[k + 1..];
  }

  lemma NetWithout(b: seq<Event>, k: nat, t: int)
    requires k < |b|
    ensures Net(b, t) == Net(b[..k] + b[k + 1..], t) + (if b[k].time <= t then b[k].delta else 0)
  {
    assert b == b[..k] + b[k..];
    NetAppend(b[..k], b[k..], t);
    NetAppend(b[..k], b[k + 1..], t);
    assert b[k..][1..] == b[k + 1..];
  }

  /** For intervals that run forward, the net at an instant is what covers it. */
  lemma {:induction false} NetIsCover(s: seq<Interval>, t: int)
    requires AllForward(s)
    ensures Net(Events(s), t) == Cover(s, t)
  {
    if s != [] {
      NetIsCover(s[1..], t);
      NetAppend([Event(s[0].begin, 1), Event(s[0].end, -1)], Events(s[1..]), t);
      NetOfPair(Event(s[0].begin, 1), Event(s[0].end, -1), t);
    }
  }

  lemma NetOfPair(x: Event, y: Event, t: int)
    ensures Net([x, y], t) == (if x.time <= t then x.delta else 0) + (if y.time <= t then y.delta else 0)
  {
    assert [x, y][1..] == [y] && [y][1..] == [];
    assert Net([y], t) == if y.time <= t then y.delta else 0;
  }

  /** In sorted order the net at t is the sum of a prefix. */
  lemma {:induction false} NetIsPrefixSum(s: seq<Event>, t: int) returns (k: nat)
    requires Sorted(s)
    ensures k <= |s| && Net(s, t) == Sum(s[..k])
  {
    if s == [] { return 0; }
    var n := |s| - 1;
    var last := s[n];
    NetAppend(s[..n], [last], t);
    assert s[..n] + [last] == s;
    if last.time <= t {
      AllEarly(s, t);
      k := |s|;
      assert s[..k] == s;
    } else {
      k := NetIsPrefixSum(s[..n], t);
      assert s[..n][..k] == s[..k];
      assert [last][1..] == [];
    }
  }

  lemma {:induction false} AllEarly(s: seq<Event>, t: int)
    requires forall i :: 0 <= i < |s| ==> s[i].time <= t
    ensures Net(s, t) == Sum(s)
  {
    if s != [] {
      var n := |s| - 1;
      AllEarly(s[..n], t);
      NetAppend(s[..n], [s[n]], t);
      assert s[..n] + [s[n]] == s && [s[n]][1..] == [];
    }
  }

  /** If what follows the first k events adds nothing negative up to t, their sum is at most the net. */
  lemma PrefixBelowNet(s: seq<Event>, k: nat, t: int)
    requires k <= |s| && Unit(s)
    requires forall i :: 0 <= i < k ==> s[i].time <= t
    requires forall i :: k <= i < |s| ==> s[i].time > t || s[i].delta == 1
    ensures Sum(s[..k]) <= Net(s, t)
  {
    assert s[..k] + s[k..] == s;
    NetAppend(s[..k], s[k..], t);
    AllEarly(s[..k], t);
    NetNotNegative(s[k..], t);
  }

  lemma {:induction false} NetNotNegative(s: seq<Event>, t: int)
    requires forall i :: 0 <= i < |s| ==> s[i].time > t || s[i].delta == 1
    ensures Net(s, t) >= 0
  {
    if s != [] { NetNotNegative(s[1..], t); }
  }

  /** Every prefix sum of a sorted sequence is at most 0 or at most the net at some instant. */
  lemma {:induction false} PrefixReachesNet(s: seq<Event>, k: nat) returns (t: int)
    requires k <= |s| && Sorted(s) && Unit(s)
    ensures Sum(s[..k]) <= 0 || Sum(s[..k]) <= Net(s, t)
  {
    if k == 0 { return 0; }
    assert s[..k][..k - 1] == s[..k - 1];
    if s[k - 1].delta == -1 {
      t := PrefixReachesNet(s, k - 1);
    } else {
      t := s[k - 1].time;
      PrefixBelowNet(s, k, t);
    }
  }

  // --- the sweep -------------------------------------------------------------------------------------

  /** The running sum and its maximum, which starts at 0. */
  method Sweep(s: seq<Event>) returns (m: int)
    ensures m >= 0 && forall k :: 0 <= k <= |s| ==> Sum(s[..k]) <= m
    ensures m == 0 || exists k :: 0 <= k <= |s| && Sum(s[..k]) == m
  {
    var cur := 0;
    m := 0;
    for i := 0 to |s|
      invariant cur == Sum(s[..i]) && m >= 0 && forall k :: 0 <= k <= i ==> Sum(s[..k]) <= m
      invariant m == 0 || exists k :: 0 <= k <= i && Sum(s[..k]) == m
    {
      assert s[..i + 1][..i] == s[..i];
      cur := cur + s[i].delta;
      if m < cur { m := cur; }
    }
  }

  /** Some instant is covered by nothing. */
  lemma {:induction false} EarlyInstant(s: seq<Interval>) returns (t: int)
    ensures Cover(s, t) == 0 && forall i :: 0 <= i < |s| ==> t < s[i].begin
  {
    if s == [] { return 0; }
    var u := EarlyInstant(s[1..]);
    t := if u < s[0].begin then u else s[0].begin - 1;
    EarlierStill(s[1..], t);
  }

  lemma {:induction false} EarlierStill(s: seq<Interval>, t: int)
    requires forall i :: 0 <= i < |s| ==> t < s[i].begin
    ensures Cover(s, t) == 0
  {
    if s != [] { EarlierStill(s[1..], t); }
  }

  lemma {:induction false} EventsAreUnit(s: seq<Interval>)
    ensures Unit(Events(s))
  {
    if s != [] { EventsAreUnit(s[1..]); }
  }

  lemma UnitOfRearranged(a: seq<Event>, b: seq<Event>)
    requires Unit(a) && multiset(a) == multiset(b)
    ensures Unit(b)
  {
    forall i | 0 <= i < |b| ensures b[i].delta == 1 || b[i].delta == -1 {
      assert b[i] in multiset(a);
    }
  }

  /** Sorting the events of any intervals that run forward and sweeping them gives
      exactly the largest number that cover a common instant. */
  method MaxOverlap(s: seq<Interval>) returns (m: int)
    requires AllForward(s)
    ensures IsMaxCover(s, m)
  {
    var ev := Sort(Events(s));
    m := Sweep(ev);
    EventsAreUnit(s);
    UnitOfRearranged(Events(s), ev);
    SweepIsMaxCover(s, ev, m);
  }

  lemma SweepIsMaxCover(s: seq<Interval>, ev: seq<Event>, m: int)
    requires AllForward(s) && Sorted(ev) && Unit(ev) && multiset(ev) == multiset(Events(s))
    requires m >= 0 && forall k :: 0 <= k <= |ev| ==> Sum(ev[..k]) <= m
    requires m == 0 || exists k :: 0 <= k <= |ev| && Sum(ev[..k]) == m
    ensures IsMaxCover(s, m)
  {
    forall t ensures Cover(s, t) <= m {
      var k := NetIsPrefixSum(ev, t);
      NetOfRearranged(ev, Events(s), t);
      NetIsCover(s, t);
    }
    if m == 0 {
      var t := EarlyInstant(s);
    } else {
      var k :| 0 <= k <= |ev| && Sum(ev[..k]) == m;
      var t := PrefixReachesNet(ev, k);
      NetOfRearranged(ev, Events(s), t);
      NetIsCover(s, t);
      assert Cover(s, t) == m;
    }
  }

  // --- one interval per context ---------------------------------------------------------------------------

  /** The smallest interval around every attempt of one context. */
  predicate IsHull(attempts: seq<Interval>, h: Interval) {
    && (forall i :: 0 <= i < |attempts| ==> h.begin <= attempts[i].begin && attempts[i].end <= h.end)
    && (exists i :: 0 <= i < |attempts| && attempts[i].begin == h.begin)
    && (exists i :: 0 <= i < |attempts| && attempts[i].end == h.end)
  }

  method Hull(attempts: seq<Interval>) returns (h: Interval)
    requires attempts != [] && AllForward(attempts)
    ensures IsHull(attempts, h) && Forward(h)
  {
    var b, e := attempts[0].begin, attempts[0].end;
    for k := 0 to |attempts|
      invariant forall i :: 0 <= i < k ==> b <= attempts[i].begin && attempts[i].end <= e
      invariant b <= attempts[0].begin && attempts[0].end <= e
      invariant exists i :: 0 <= i < |attempts| && attempts[i].begin == b
      invariant exists i :: 0 <= i < |attempts| && attempts[i].end == e
    {
      if attempts[k].begin < b { b := attempts[k].begin; }
      if e < attempts[k].end { e := attempts[k].end; }
    }
    h := Interval(b, e);
  }

  /** The contexts with at least one attempt, each by its hull, in order. */
  ghost predicate HullsOf(contexts: seq<seq<Interval>>, hulls: seq<Interval>) {
    if contexts == [] then hulls == []
    else
      var n, k := |contexts| - 1, |hulls| - 1;
      if contexts[n] == [] then HullsOf(contexts[..n], hulls)
      else k >= 0 && IsHull(contexts[n], hulls[k]) && HullsOf(contexts[..n], hulls[..k])
  }

  /** Whether a context was in flight at an instant: it had entered, and had not left for good. */
  predicate Spanning(attempts: seq<Interval>, t: int) {
    && (exists i :: 0 <= i < |attempts| && attempts[i].begin <= t)
    && (exists i :: 0 <= i < |attempts| && t < attempts[i].end)
  }

  /** How many contexts were in flight at an instant. */
  function InFlight(contexts: seq<seq<Interval>>, t: int): nat {
    if contexts == [] then 0
    else InFlight(contexts[..|contexts| - 1], t) + (if Spanning(contexts[|contexts| - 1], t) then 1 else 0)
  }

  ghost predicate IsMaxInFlight(contexts: seq<seq<Interval>>, m: int) {
    (forall t :: InFlight(contexts, t) <= m) && (exists t :: InFlight(contexts, t) == m)
  }

  /** Two distinct contexts were in flight at one instant. */
  ghost predicate Overlapped(contexts: seq<seq<Interval>>) {
    exists t, i, j :: 0 <= i < j < |contexts| && Spanning(contexts[i], t) && Spanning(contexts[j], t)
  }

  lemma HullSpans(attempts: seq<Interval>, h: Interval, t: int)
    requires IsHull(attempts, h)
    ensures Covers(h, t) <==> Spanning(attempts, t)
  {
    var i :| 0 <= i < |attempts| && attempts[i].begin == h.begin;
    var j :| 0 <= j < |attempts| && attempts[j].end == h.end;
  }

  lemma {:induction false} CoverLast(s: seq<Interval>, t: int)
    requires s != []
    ensures Cover(s, t) == Cover(s[..|s| - 1], t) + (if Covers(s[|s| - 1], t) then 1 else 0)
  {
    if |s| > 1 {
      CoverLast(s[1..], t);
      assert s[1..][..|s| - 2] == s[..|s| - 1][1..];
    } else {
      assert s[..0] == [] && s[1..] == [];
    }
  }

  lemma {:induction false} InFlightIsCover(contexts: seq<seq<Interval>>, hulls: seq<Interval>, t: int)
    requires HullsOf(contexts, hulls)
    ensures InFlight(contexts, t) == Cover(hulls, t)
  {
    if contexts != [] {
      var n := |contexts| - 1;
      if contexts[n] == [] {
        InFlightIsCover(contexts[..n], hulls, t);
      } else {
        InFlightIsCover(contexts[..n], hulls[..|hulls| - 1], t);
        HullSpans(contexts[n], hulls[|hulls| - 1], t);
        CoverLast(hulls, t);
      }
    }
  }

  lemma {:induction false} InFlightCounts(contexts: seq<seq<Interval>>, t: int)
    ensures InFlight(contexts, t) >= 1 <==> exists i :: 0 <= i < |contexts| && Spanning(contexts[i], t)
    ensures InFlight(contexts, t) >= 2 <==>
            exists i, j :: 0 <= i < j < |contexts| && Spanning(contexts[i], t) && Spanning(contexts[j], t)
  {
    if contexts != [] { InFlightCounts(contexts[..|contexts| - 1], t); }
  }

  /** round_max: exactly the largest number of GETs in flight at one instant, so at
      least 2 exactly when two distinct GETs truly overlapped. */
  method RoundMax(contexts: seq<seq<Interval>>) returns (m: int)
    requires forall i :: 0 <= i < |contexts| ==> AllForward(contexts[i])
    ensures IsMaxInFlight(contexts, m)
    ensures m >= 2 <==> Overlapped(contexts)
  {
    var hulls: seq<Interval> := [];
    for k := 0 to |contexts|
      invariant AllForward(hulls) && HullsOf(contexts[..k], hulls)
    {
      assert contexts[..k + 1][..k] == contexts[..k];
      if contexts[k] == [] { continue; }
      var h := Hull(contexts[k]);
      assert (hulls + [h])[..|hulls|] == hulls;
      hulls := hulls + [h];
    }
    assert contexts[..|contexts|] == contexts;
    m := MaxOverlap(hulls);
    MaxOfHulls(contexts, hulls, m);
  }

  lemma MaxOfHulls(contexts: seq<seq<Interval>>, hulls: seq<Interval>, m: int)
    requires HullsOf(contexts, hulls) && IsMaxCover(hulls, m)
    ensures IsMaxInFlight(contexts, m) && (m >= 2 <==> Overlapped(contexts))
  {
    forall t ensures InFlight(contexts, t) == Cover(hulls, t) && InFlight(contexts, t) <= m {
      InFlightIsCover(contexts, hulls, t);
    }
    var t :| Cover(hulls, t) == m;
    assert InFlight(contexts, t) == m;
    InFlightCounts(contexts, t);
    if Overlapped(contexts) {
      var u, i, j :| 0 <= i < j < |contexts| && Spanning(contexts[i], u) && Spanning(contexts[j], u);
      InFlightCounts(contexts, u);
    }
  }
}
