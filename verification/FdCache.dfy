/** The double-checked descriptor cache of the fake-S3 server: get_fd calls of any
    number of threads, each lock section one event (server/s3_server.cpp). */
module FdCache {

  datatype Entry = Entry(fd: nat, size: nat)

  /** A thread between calls, or one whose shared lookup of `path` missed. */
  datatype Phase = Idle | Missed(path: string)

  /** What a finished call returned. */
  datatype Return = NotFound(path: string) | Found(path: string, entry: Entry)

  /** What open and fstat do inside the exclusive section: `fd` is a descriptor
      the process does not have open yet. */
  datatype Os = OpenFails | StatFails | Opens(fd: nat, size: nat)

  /** `open` holds the descriptors the process has; `opens` lists, in order, the
      successful opens that were kept; `calls` every finished call. */
  datatype Cache = Cache(entries: map<string, Entry>, open: set<nat>, opens: seq<string>,
                         threads: seq<Phase>, calls: seq<Return>)

  datatype Event = Shared(i: nat, path: string) | Exclusive(i: nat, os: Os)

  function Initial(threads: nat): Cache { Cache(map[], {}, [], seq(threads, _ => Idle), []) }

  function Insert(c: Cache, path: string, entry: Entry): Cache {
    c.(entries := c.entries[path := entry], open := c.open + {entry.fd}, opens := c.opens + [path])
  }

  function Finish(c: Cache, i: nat, r: Return): Cache
    requires i < |c.threads|
  {
    c.(threads := c.threads[i := Idle], calls := c.calls + [r])
  }

  function Next(c: Cache, e: Event): Cache {
    if e.i >= |c.threads| then c
    else match (e, c.threads[e.i])
      case (Shared(i, path), Idle) =>
        if path in c.entries then Finish(c, i, Found(path, c.entries[path])) else c.(threads := c.threads[i := Missed(path)])
      case (Exclusive(i, os), Missed(path)) =>
        if path in c.entries then Finish(c, i, Found(path, c.entries[path]))
        else if os.Opens? && os.fd !in c.open then
          Finish(Insert(c, path, Entry(os.fd, os.size)), i, Found(path, Entry(os.fd, os.size)))
        else Finish(c, i, NotFound(path))  // a descriptor whose fstat failed is closed again
      case _ => c
  }

  function Exec(threads: nat, events: seq<Event>): Cache {
    if events == [] then Initial(threads)
    else Next(Exec(threads, events[..|events| - 1]), events[|events| - 1])
  }

  /** Kept opens are exactly the cached paths, once each; the open descriptors are
      exactly the cached ones, each under one path; every successful return is
      what the cache still says. */
  ghost predicate Inv(c: Cache) {
    OpenedOnce(c.opens, c.entries) && Owned(c.entries, c.open) && Current(c.calls, c.entries)
  }

  ghost predicate OpenedOnce(opens: seq<string>, entries: map<string, Entry>) {
    && (forall i, j :: 0 <= i < j < |opens| ==> opens[i] != opens[j])
    && (forall p :: p in opens <==> p in entries)
  }

  ghost predicate Owned(entries: map<string, Entry>, open: set<nat>) {
    && (forall p :: p in entries ==> entries[p].fd in open)
    && (forall fd :: fd in open ==> exists p :: p in entries && entries[p].fd == fd)
    && (forall p, q :: p in entries && q in entries && entries[p].fd == entries[q].fd ==> p == q)
  }

  ghost predicate Current(calls: seq<Return>, entries: map<string, Entry>) {
    forall r :: r in calls && r.Found? ==> r.path in entries && entries[r.path] == r.entry
  }

  lemma InsertKeepsInv(c: Cache, path: string, entry: Entry)
    requires Inv(c) && path !in c.entries && entry.fd !in c.open
    ensures Inv(Insert(c, path, entry))
  {
    StillOpenedOnce(c.opens, c.entries, path, entry);
    StillOwned(c.entries, c.open, path, entry);
  }

  lemma StillOpenedOnce(opens: seq<string>, entries: map<string, Entry>, path: string, entry: Entry)
    requires OpenedOnce(opens, entries) && path !in entries
    ensures OpenedOnce(opens + [path], entries[path := entry])
  {
    assert path !in opens;
    assert forall p :: p in opens + [path] <==> p in opens || p == path;
  }

  lemma StillOwned(entries: map<string, Entry>, open: set<nat>, path: string, entry: Entry)
    requires Owned(entries, open) && path !in entries && entry.fd !in open
    ensures Owned(entries[path := entry], open + {entry.fd})
  {
    var e := entries[path := entry];
    forall fd | fd in open + {entry.fd} ensures exists p :: p in e && e[p].fd == fd {
      var p := path;
      if fd in open { p :| p in entries && entries[p].fd == fd; }
      assert p in e && e[p].fd == fd;
    }
  }

  lemma FinishKeepsInv(c: Cache, i: nat, r: Return)
    requires Inv(c) && i < |c.threads|
    requires r.Found? ==> r.path in c.entries && c.entries[r.path] == r.entry
    ensures Inv(Finish(c, i, r))
  {
    assert forall x :: x in c.calls + [r] ==> x in c.calls || x == r;
  }

  lemma NextKeepsInv(c: Cache, e: Event)
    requires Inv(c)
    ensures Inv(Next(c, e))
  {
    if e.i < |c.threads| {
      match (e, c.threads[e.i])
      case (Shared(i, path), Idle) =>
        if path in c.entries { FinishKeepsInv(c, i, Found(path, c.entries[path])); }
      case (Exclusive(i, os), Missed(path)) =>
        if path in c.entries { FinishKeepsInv(c, i, Found(path, c.entries[path])); }
        else if os.Opens? && os.fd !in c.open {
          InsertKeepsInv(c, path, Entry(os.fd, os.size));
          FinishKeepsInv(Insert(c, path, Entry(os.fd, os.size)), i, Found(path, Entry(os.fd, os.size)));
        } else { FinishKeepsInv(c, i, NotFound(path)); }
      case _ =>
    }
  }

  /** Whatever the interleaving: a path is opened and kept at most once, all
      successful calls for one path agree, and no descriptor leaks. */
  lemma {:induction false} CacheIsConsistent(threads: nat, events: seq<Event>)
    ensures Inv(Exec(threads, events))
    ensures forall r, s | r in Exec(threads, events).calls && s in Exec(threads, events).calls ::
              r.Found? && s.Found? && r.path == s.path ==> r == s
  {
    if events != [] {
      CacheIsConsistent(threads, events[..|events| - 1]);
      NextKeepsInv(Exec(threads, events[..|events| - 1]), events[|events| - 1]);
    }
  }
}
