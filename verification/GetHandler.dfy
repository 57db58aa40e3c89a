/** The GET handler of the fake-S3 server as it runs: two staging buffers, the
    read of the next chunk overlapped with the RDMA write of the current one, and
    a pooled slot that has to come back (server/s3_server.cpp). */
module GetHandler {
  import opened DataPath

  /** The client's registered memory, reached only by RDMA writes, and how many of
      those were issued. */
  class Remote {
    var mem: Memory
    var writes: nat
    constructor (m: Memory) ensures mem == m && writes == 0 { mem, writes := m, 0; }
  }

  /** How often slots were taken from and given back to the pool. */
  class SlotLedger {
    var acquired: nat
    var released: nat
    constructor () ensures acquired == 0 && released == 0 { acquired, released := 0, 0; }
    method Acquire()
      modifies this
      ensures acquired == old(acquired) + 1 && released == old(released)
    { acquired := acquired + 1; }
    method Release()
      modifies this
      ensures released == old(released) + 1 && acquired == old(acquired)
    { released := released + 1; }
  }

  /** `total` bytes of the file from `offset` are in the buffer. */
  predicate Holds(buf: array<Byte>, file: seq<Byte>, offset: nat, total: nat)
    reads buf
  {
    total <= buf.Length && total <= Available(file, offset) &&
    forall i :: 0 <= i < total ==> buf[i] == file[offset + i]
  }

  /** One turn of pread_full's loop: the k-th call of `io`, or a complete one. */
  method ReadStep(file: seq<Byte>, buf: array<Byte>, count: nat, offset: nat, io: seq<Pread>, k: nat, total: nat)
    returns (k': nat, total': nat, done: bool, n: int)
    requires count <= buf.Length && k <= |io| && total <= count && Holds(buf, file, offset, total)
    modifies buf
    ensures k <= k' <= |io| && total <= total' <= count && Holds(buf, file, offset, total')
    ensures forall i :: count <= i < buf.Length ==> buf[i] == old(buf[i])
    ensures !done ==> (k' > k || total' > total)
    ensures var goal := ReadFull(Available(file, offset), count, total, io[k..]);
            if done then n == goal && (n >= 0 ==> n == total') else goal == ReadFull(Available(file, offset), count, total', io[k'..])
  {
    k', total', done, n := k, total, false, -1;
    var avail := Available(file, offset);
    if total >= count { done, n := true, total; return; }
    if k < |io| {
      k' := k + 1;
      assert io[k..][1..] == io[k'..];
    }
    if k < |io| && io[k].Interrupted? { return; }
    if k < |io| && io[k].Failed? { done := true; return; }
    var m := if k < |io| then Delivered(io[k], count - total, avail - total) else Min(count - total, avail - total);
    if m == 0 { done, n := true, total; return; }
    forall i | 0 <= i < m { buf[total + i] := file[offset + total + i]; }
    total' := total + m;
  }

  /** pread_full, over whatever the kernel returns. */
  method PreadFull(file: seq<Byte>, buf: array<Byte>, count: nat, offset: nat, io: seq<Pread>) returns (n: int)
    requires count <= buf.Length
    modifies buf
    ensures n == ReadFull(Available(file, offset), count, 0, io)
    ensures n >= 0 ==> Holds(buf, file, offset, n)
    ensures forall i :: count <= i < buf.Length ==> buf[i] == old(buf[i])
  {
    var k, total, done := 0, 0, false;
    n := -1;
    assert io[0..] == io;
    while !done
      invariant k <= |io| && total <= count && Holds(buf, file, offset, total)
      invariant var goal := ReadFull(Available(file, offset), count, 0, io);
                if done then n == goal && (n >= 0 ==> n == total) else goal == ReadFull(Available(file, offset), count, total, io[k..])
      invariant forall i :: count <= i < buf.Length ==> buf[i] == old(buf[i])
      decreases !done, |io| - k + count - total
    {
      k, total, done, n := ReadStep(file, buf, count, offset, io, k, total);
    }
  }

  lemma WriteNext(mem: Memory, at: nat, data: seq<Byte>, p: nat)
    requires p < |data|
    ensures Write(mem, at, data[..p + 1]) == Write(mem, at, data[..p])[at + p := data[p]]
  {
    assert data[..p + 1][..p] == data[..p];
  }

  /** handleGetObject: the NIC copies staged bytes to the client one at a time. */
  method RdmaWrite(buf: array<Byte>, localOff: nat, piece: nat, remote: Remote, remoteOff: nat, r: Rdma) returns (code: int)
    requires localOff + piece <= buf.Length
    modifies remote
    ensures code == (if r.Error? then -1 else Landed(r, piece))
    ensures remote.mem == Write(old(remote.mem), remoteOff, old(buf[localOff..localOff + Landed(r, piece)]))
    ensures remote.writes == old(remote.writes) + 1
  {
    remote.writes := remote.writes + 1;
    var p, landed := 0, Landed(r, piece);
    ghost var data := buf[localOff..localOff + landed];
    while p < landed
      invariant p <= landed && data == buf[localOff..localOff + landed] && remote.writes == old(remote.writes) + 1
      invariant remote.mem == Write(old(remote.mem), remoteOff, data[..p])
    {
      WriteNext(old(remote.mem), remoteOff, data, p);
      remote.mem := remote.mem[remoteOff + p := buf[localOff + p]];
      p := p + 1;
    }
    assert data[..landed] == data;
    code := if r.Error? then -1 else landed;
  }

  /** The RDMA thread and the reading thread side by side: `schedule` picks who
      moves next.  The result does not depend on it. */
  method Overlapped(cur: array<Byte>, localOff: nat, piece: nat, remote: Remote, remoteOff: nat, r: Rdma,
                    file: seq<Byte>, nxt: array<Byte>, count: nat, offset: nat, io: seq<Pread>, schedule: seq<bool>)
    returns (code: int, nr: int)
    requires cur != nxt && localOff + piece <= cur.Length && count <= nxt.Length
    modifies remote, nxt
    ensures code == (if r.Error? then -1 else Landed(r, piece))
    ensures remote.mem == Write(old(remote.mem), remoteOff, old(cur[localOff..localOff + Landed(r, piece)]))
    ensures remote.writes == old(remote.writes) + 1
    ensures nr == ReadFull(Available(file, offset), count, 0, io)
    ensures nr >= 0 ==> Holds(nxt, file, offset, nr)
  {
    var p, landed := 0, Landed(r, piece);
    var k, total, done, t := 0, 0, false, 0;
    nr := -1;
    remote.writes := remote.writes + 1;
    ghost var data := cur[localOff..localOff + landed];
    assert io[0..] == io;
    while p < landed || !done
      invariant p <= landed && data == cur[localOff..localOff + landed] && remote.writes == old(remote.writes) + 1
      invariant remote.mem == Write(old(remote.mem), remoteOff, data[..p])
      invariant k <= |io| && total <= count && Holds(nxt, file, offset, total)
      invariant var goal := ReadFull(Available(file, offset), count, 0, io);
                if done then nr == goal && (nr >= 0 ==> nr == total) else goal == ReadFull(Available(file, offset), count, total, io[k..])
      decreases landed - p, !done, |io| - k + count - total
    {
      if p < landed && (done || (t < |schedule| && schedule[t])) {
        WriteNext(old(remote.mem), remoteOff, data, p);
        remote.mem := remote.mem[remoteOff + p := cur[localOff + p]];
        p := p + 1;
      } else {
        k, total, done, nr := ReadStep(file, nxt, count, offset, io, k, total);
      }
      t := t + 1;
    }
    assert data[..landed] == data;
    code := if r.Error? then -1 else landed;
  }

  /** The cached descriptor: the file's bytes, and the size recorded at open. */
  datatype Lookup = Missing | Found(file: seq<Byte>, size: nat)

  /** A Range header as parse_range reads it. */
  datatype Range = Absent | Unparsable | Span(first: nat, last: nat)

  datatype Request = Refused(status: int) | Accepted(offset: nat, length: nat)

  /** What is asked for, before any slot is taken. */
  function Requested(found: Lookup, range: Range, base: nat): Request {
    match (found, range)
    case (Missing, _) => Refused(404)
    case (Found(_, size), Absent) => if base == 0 then Refused(500) else Accepted(0, size)
    case (Found(_, _), Unparsable) => Refused(416)
    case (Found(_, size), Span(a, b)) =>
      if a > b || b >= size then Refused(416) else if base == 0 then Refused(500) else Accepted(a, b - a + 1)
  }

  /** The chunk planned at `fileOff` is in the buffer. */
  predicate Ready(buf: array<Byte>, file: seq<Byte>, c: ChunkIO)
    reads buf
  {
    Holds(buf, file, c.readOff, c.localOff + c.piece)
  }

  lemma ReadyCovers(file: seq<Byte>, c: ChunkIO, n: int, buf: array<Byte>)
    requires Covers(c, n) && Holds(buf, file, c.readOff, n)
    ensures Ready(buf, file, c)
  {}

  /** The staged bytes of a chunk are the file's. */
  lemma StagedBytes(buf: array<Byte>, file: seq<Byte>, c: ChunkIO, k: nat)
    requires Ready(buf, file, c) && k <= c.piece
    ensures c.localOff + k <= buf.Length && buf[c.localOff..c.localOff + k] == Slice(file, c.readOff + c.localOff, k)
  {
    if c.localOff + k > 0 { assert c.readOff + c.localOff + k <= |file|; }
  }

  /** `c` is a plan for the chunk at `fileOff`. */
  predicate PlanFor(c: ChunkIO, fileOff: nat, remaining: nat, cfg: Config) {
    c.piece == Min(remaining, cfg.chunk) && c.readOff + c.localOff == fileOff
  }

  predicate Planned(job: Job, cfg: Config, disk: nat -> seq<Pread>, o: nat, r: nat, j: nat) {
    job.staged(o, r, j) == Staged(job.file, cfg, o, r, disk(j))
  }

  /** `job` abstracts from the plans and the reads. */
  ghost predicate Abstracts(job: Job, cfg: Config, disk: nat -> seq<Pread>) {
    job.chunk == cfg.chunk > 0 && forall o: nat, r: nat, j: nat :: Planned(job, cfg, disk, o, r, j)
  }

  /** The write of one chunk beside the read of the next, planned at `nextOff`. */
  method WriteAndStage(cfg: Config, file: seq<Byte>, nextOff: nat, left: nat, c: ChunkIO,
                       cur: array<Byte>, nxt: array<Byte>, remote: Remote, remoteOff: nat,
                       r: Rdma, io: seq<Pread>, schedule: seq<bool>)
    returns (code: int, readOk: bool, next: ChunkIO)
    requires cur != nxt && nxt.Length == cfg.chunk && c.localOff + c.piece <= cur.Length
    modifies remote, nxt
    ensures code == (if r.Error? then -1 else Landed(r, c.piece))
    ensures remote.mem == Write(old(remote.mem), remoteOff, old(cur[c.localOff..c.localOff + Landed(r, c.piece)]))
    ensures remote.writes == old(remote.writes) + 1
    ensures readOk <==> Staged(file, cfg, nextOff, left, io)
    ensures readOk ==> PlanFor(next, nextOff, left, cfg) && Ready(nxt, file, next)
  {
    next := PlanChunk(nextOff, left, cfg);
    var nr;
    code, nr := Overlapped(cur, c.localOff, c.piece, remote, remoteOff, r,
                           file, nxt, next.readLen, next.readOff, io, schedule);
    readOk := Covers(next, nr);
    if readOk { ReadyCovers(file, next, nr, nxt); }
  }

  /** One turn of the ping-pong loop: write the chunk staged in `cur`, meanwhile
      stage the next one, if any, in `nxt`. */
  method MoveChunk(cfg: Config, file: seq<Byte>, remaining: nat, fileOff: nat, c: ChunkIO,
                   cur: array<Byte>, nxt: array<Byte>, remote: Remote, remoteOff: nat,
                   r: Rdma, io: seq<Pread>, schedule: seq<bool>)
    returns (code: int, readOk: bool, next: ChunkIO)
    requires cur != nxt && nxt.Length == cfg.chunk && c.piece <= remaining
    requires c.readOff + c.localOff == fileOff && Ready(cur, file, c)
    modifies remote, nxt
    ensures code == (if r.Error? then -1 else Landed(r, c.piece))
    ensures remote.mem == Write(old(remote.mem), remoteOff, Slice(file, fileOff, Landed(r, c.piece)))
    ensures remote.writes == old(remote.writes) + 1
    ensures remaining == c.piece ==> readOk
    ensures remaining > c.piece ==> (readOk <==> Staged(file, cfg, fileOff + c.piece, remaining - c.piece, io))
    ensures readOk && remaining > c.piece ==>
              PlanFor(next, fileOff + c.piece, remaining - c.piece, cfg) && Ready(nxt, file, next)
  {
    StagedBytes(cur, file, c, Landed(r, c.piece));
    next, readOk := c, true;
    if remaining > c.piece {
      code, readOk, next := WriteAndStage(cfg, file, fileOff + c.piece, remaining - c.piece, c, cur, nxt, remote, remoteOff,
                                          r, io, schedule);
    } else {
      code := RdmaWrite(cur, c.localOff, c.piece, remote, remoteOff, r);
    }
  }

  /** What one turn did, in terms of the sequential transfer. */
  lemma TurnIsStep(job: Job, p: Progress, mem: Memory, after: Memory)
    requires job.chunk > 0
    requires after == Write(Replay(mem, p.log), p.remoteOff,
                            Slice(job.file, p.fileOff, Landed(job.nic(p.j), Min(p.remaining, job.chunk))))
    ensures after == Replay(mem, Step(job, p).log)
  {
    ReplayNext(mem, p.log, Store(p.remoteOff, Slice(job.file, p.fileOff, Landed(job.nic(p.j), Min(p.remaining, job.chunk)))));
  }

  /** `MoveChunk`, seen as a step of the sequential transfer. */
  method TakeTurn(cfg: Config, file: seq<Byte>, remaining: nat, fileOff: nat, c: ChunkIO,
                  cur: array<Byte>, nxt: array<Byte>, remote: Remote, remoteOff: nat, j: nat,
                  disk: nat -> seq<Pread>, nic: nat -> Rdma, schedule: nat -> seq<bool>,
                  ghost job: Job, ghost p: Progress, ghost mem: Memory)
    returns (code: int, readOk: bool, next: ChunkIO)
    requires Abstracts(job, cfg, disk) && job.file == file && job.nic == nic
    requires p == Progress(fileOff, remaining, remoteOff, j, p.total, p.log) && remaining > 0
    requires cur != nxt && nxt.Length == cfg.chunk
    requires PlanFor(c, fileOff, remaining, cfg) && Ready(cur, file, c)
    requires remote.mem == Replay(mem, p.log)
    modifies remote, nxt
    ensures remote.mem == Replay(mem, Step(job, p).log)
    ensures remote.writes == old(remote.writes) + 1 && |Step(job, p).log| == |p.log| + 1
    ensures code >= 0 ==> code == Step(job, p).total - p.total
    ensures code < 0 || !readOk <==> Stops(job, p)
    ensures readOk && remaining > c.piece ==>
              PlanFor(next, fileOff + c.piece, remaining - c.piece, cfg) && Ready(nxt, file, next)
  {
    hide Staged, Slice, Replay, Planned;
    code, readOk, next := MoveChunk(cfg, file, remaining, fileOff, c, cur, nxt, remote, remoteOff,
                                      nic(j), disk(j + 1), schedule(j));
    NextStaged(job, cfg, disk, fileOff + c.piece, remaining - c.piece, j + 1);
    TurnStops(job, p, code, readOk);
    TurnIsStep(job, p, mem, remote.mem);
  }

  /** The turn's two results, in terms of the sequential transfer. */
  lemma TurnStops(job: Job, p: Progress, code: int, readOk: bool)
    requires var piece := Min(p.remaining, job.chunk);
             && code == (if job.nic(p.j).Error? then -1 else Landed(job.nic(p.j), piece))
             && (p.remaining == piece ==> readOk)
             && (p.remaining > piece ==> (readOk <==> job.staged(p.fileOff + piece, p.remaining - piece, p.j + 1)))
    ensures code >= 0 ==> code == Step(job, p).total - p.total
    ensures code < 0 || !readOk <==> Stops(job, p)
  {}

  lemma NextStaged(job: Job, cfg: Config, disk: nat -> seq<Pread>, o: nat, r: nat, j: nat)
    requires Abstracts(job, cfg, disk)
    ensures job.staged(o, r, j) == Staged(job.file, cfg, o, r, disk(j))
  {
    assert Planned(job, cfg, disk, o, r, j);
  }

  /** The ping-pong loop, from the first staged chunk to the release of the slot. */
  method PingPong(cfg: Config, file: seq<Byte>, offset: nat, length: nat, base: nat, first: ChunkIO,
                  stage0: array<Byte>, stage1: array<Byte>, remote: Remote, ledger: SlotLedger,
                  disk: nat -> seq<Pread>, nic: nat -> Rdma, schedule: nat -> seq<bool>, ghost job: Job)
    returns (ok: bool, bytes: nat, ghost log: seq<Store>)
    requires Abstracts(job, cfg, disk) && job.file == file && job.nic == nic
    requires stage0 != stage1 && stage0.Length == stage1.Length == cfg.chunk
    requires PlanFor(first, offset, length, cfg) && Ready(stage0, file, first)
    modifies stage0, stage1, remote, ledger
    ensures ledger.released == old(ledger.released) + 1 && ledger.acquired == old(ledger.acquired)
    ensures Outcome(ok, bytes, log) == Transfer(job, Start(offset, length, base))
    ensures remote.mem == Replay(old(remote.mem), log) && remote.writes == old(remote.writes) + |log|
  {
    hide Slice, Landed, Stops, Planned;
    ghost var p := Start(offset, length, base);
    ghost var goal := Transfer(job, p);
    var remaining: nat, fileOff: nat, remoteOff: nat, written: nat := length, offset, base, 0;
    var c, cur, nxt := first, stage0, stage1;
    var j: nat := 0;
    while remaining > 0
      invariant cur != nxt && (cur == stage0 || cur == stage1) && (nxt == stage0 || nxt == stage1)
      invariant remaining > 0 ==> PlanFor(c, fileOff, remaining, cfg) && Ready(cur, file, c)
      invariant p == Progress(fileOff, remaining, remoteOff, j, written, p.log)
      invariant goal == Transfer(job, p)
      invariant remote.mem == Replay(old(remote.mem), p.log) && remote.writes == old(remote.writes) + |p.log|
      invariant ledger.acquired == old(ledger.acquired) && ledger.released == old(ledger.released)
    {
      var code, readOk, next := TakeTurn(cfg, file, remaining, fileOff, c, cur, nxt, remote, remoteOff, j,
                                         disk, nic, schedule, job, p, old(remote.mem));
      if code < 0 { ledger.Release(); return false, 0, Step(job, p).log; }
      if !readOk { ledger.Release(); return false, 0, Step(job, p).log; }
      written, remaining, fileOff, remoteOff, j :=
        written + code, remaining - c.piece, fileOff + c.piece, remoteOff + c.piece, j + 1;
      p := Step(job, p);
      cur, nxt := nxt, cur;
      c := next;
    }
    ledger.Release();
    ok, bytes, log := true, written, p.log;
  }

  /** The accepted part: take a slot, stage the first chunk, transfer, give the slot back. */
  method ServeSpan(cfg: Config, file: seq<Byte>, offset: nat, length: nat, base: nat,
                   stage0: array<Byte>, stage1: array<Byte>, remote: Remote, ledger: SlotLedger,
                   disk: nat -> seq<Pread>, nic: nat -> Rdma, schedule: nat -> seq<bool>)
    returns (ok: bool, bytes: nat)
    requires stage0 != stage1 && stage0.Length == stage1.Length == cfg.chunk
    modifies stage0, stage1, remote, ledger
    ensures ledger.acquired == old(ledger.acquired) + 1 && ledger.released == old(ledger.released) + 1
    ensures var r := SequentialGet(file, cfg, disk, nic, offset, length, base);
            && remote.mem == Replay(old(remote.mem), r.log) && remote.writes == old(remote.writes) + |r.log|
            && ok == r.ok && (ok ==> bytes == r.bytes)
  {
    ledger.Acquire();
    if cfg.chunk == 0 { ledger.Release(); return false, 0; }
    var c := PlanChunk(offset, length, cfg);
    var n := PreadFull(file, stage0, c.readLen, c.readOff, disk(0));
    if !Covers(c, n) { ledger.Release(); return false, 0; }
    ReadyCovers(file, c, n, stage0);
    ghost var log;
    ok, bytes, log := PingPong(cfg, file, offset, length, base, c, stage0, stage1, remote, ledger, disk, nic, schedule,
                               DiskJob(file, cfg, disk, nic));
  }

  method HandleGet(cfg: Config, found: Lookup, range: Range, base: nat,
                   stage0: array<Byte>, stage1: array<Byte>, remote: Remote, ledger: SlotLedger,
                   disk: nat -> seq<Pread>, nic: nat -> Rdma, schedule: nat -> seq<bool>)
    returns (status: int, bytes: nat)
    requires stage0 != stage1 && stage0.Length == stage1.Length == cfg.chunk
    modifies stage0, stage1, remote, ledger
    ensures ledger.acquired - old(ledger.acquired) == ledger.released - old(ledger.released)
    ensures match Requested(found, range, base)
            case Refused(code) =>
              && status == code && ledger.acquired == old(ledger.acquired)
              && remote.mem == old(remote.mem) && remote.writes == old(remote.writes)
            case Accepted(offset, length) =>
              && ledger.acquired == old(ledger.acquired) + 1
              && var r := SequentialGet(found.file, cfg, disk, nic, offset, length, base);
              && remote.mem == Replay(old(remote.mem), r.log) && remote.writes == old(remote.writes) + |r.log|
              && status == (if !r.ok then 500 else if range.Absent? then 200 else 206)
              && (r.ok ==> bytes == r.bytes)
    ensures status == 200 || status == 206 ==>
              && Requested(found, range, base).Accepted?
              && var req := Requested(found, range, base);
              Served(found.file, cfg.chunk, nic, req.offset, req.length, base, bytes, old(remote.mem), remote.mem)
    ensures var req := Requested(found, range, base);
            req.Accepted? ==>
              HealthyAnswer(found.file, cfg, disk, nic, req.offset, req.length, status != 500, remote.writes - old(remote.writes))
  {
    var req := Requested(found, range, base);
    if req.Refused? { return req.status, 0; }
    HealthyAnswers(found.file, cfg, disk, nic, req.offset, req.length, base);
    SuccessServes(found.file, cfg, disk, nic, req.offset, req.length, base, old(remote.mem));
    var ok;
    ok, bytes := ServeSpan(cfg, found.file, req.offset, req.length, base, stage0, stage1, remote, ledger, disk, nic, schedule);
    status := if !ok then 500 else if range.Absent? then 200 else 206;
  }
}
