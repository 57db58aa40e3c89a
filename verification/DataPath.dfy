/** What one GET of the fake-S3 server means, without buffers or threads: the
    plan of each chunk, the result of a full read, and the sequential transfer
    that the pipelined handler has to match (server/s3_server.cpp). */
module DataPath {

  type Byte = char

  /** The client's memory as the server's RDMA writes see it. */
  type Memory = map<nat, Byte>

  /** The bytes `data`, stored one after the other from address `at`. */
  function Write(mem: Memory, at: nat, data: seq<Byte>): Memory
    decreases |data|
  {
    if data == [] then mem
    else Write(mem, at, data[..|data| - 1])[at + |data| - 1 := data[|data| - 1]]
  }

  lemma {:induction false} WriteStores(mem: Memory, at: nat, data: seq<Byte>)
    ensures forall i :: i in Write(mem, at, data) <==> i in mem || at <= i < at + |data|
    ensures forall i :: i in Write(mem, at, data) ==>
              Write(mem, at, data)[i] == if at <= i < at + |data| then data[i - at] else mem[i]
    decreases |data|
  {
    if data != [] { WriteStores(mem, at, data[..|data| - 1]); }
  }

  lemma {:induction false} WriteAppends(mem: Memory, at: nat, a: seq<Byte>, b: seq<Byte>)
    ensures Write(Write(mem, at, a), at + |a|, b) == Write(mem, at, a + b)
    decreases |b|
  {
    if b == [] {
      assert a + b == a;
    } else {
      var n := |b| - 1;
      WriteAppends(mem, at, a, b[..n]);
      assert (a + b)[..|a| + n] == a + b[..n];
    }
  }

  /** One RDMA write, and the memory after a list of them. */
  datatype Store = Store(at: nat, data: seq<Byte>)

  function Replay(mem: Memory, log: seq<Store>): Memory {
    if log == [] then mem
    else Write(Replay(mem, log[..|log| - 1]), log[|log| - 1].at, log[|log| - 1].data)
  }

  function Min(a: nat, b: nat): nat { if a <= b then a else b }

  // --- chunk plans -------------------------------------------------------------

  const ALIGN: nat := 4096

  /** v & ~(ALIGN - 1): ALIGN is a power of two. */
  function AlignDown(v: nat): (r: nat)
    ensures r <= v < r + ALIGN && r % ALIGN == 0
  { v - v % ALIGN }

  function AlignUp(v: nat): (r: nat)
    ensures v <= r < v + ALIGN && r % ALIGN == 0
  { AlignDown(v + ALIGN - 1) }

  datatype Config = Config(chunk: nat, directIo: bool)

  /** Read `readLen` bytes at `readOff`; the chunk's `piece` bytes then start
      `localOff` into the staging buffer. */
  datatype ChunkIO = ChunkIO(readOff: nat, readLen: nat, localOff: nat, piece: nat)

  function PlanChunk(fileOff: nat, remaining: nat, cfg: Config): (c: ChunkIO)
    ensures c.piece == Min(remaining, cfg.chunk) && c.readLen <= cfg.chunk && c.readOff + c.localOff == fileOff
    ensures cfg.directIo ==> c.readOff % ALIGN == 0
    ensures c.readLen >= c.localOff + c.piece <==> c.localOff + c.piece <= cfg.chunk
  {
    var piece := if remaining > cfg.chunk then cfg.chunk else remaining;
    if cfg.directIo then
      var readOff := AlignDown(fileOff);
      var localOff := fileOff - readOff;
      var readLen := AlignUp(piece + localOff);
      ChunkIO(readOff, if readLen > cfg.chunk then cfg.chunk else readLen, localOff, piece)
    else ChunkIO(fileOff, piece, 0, piece)
  }

  // --- reads -------------------------------------------------------------------

  /** One pread call: interrupted, failed, or at most `n` bytes (never fewer than
      one unless the file ends there). */
  datatype Pread = Interrupted | Failed | Upto(n: nat)

  function Available(file: seq<Byte>, offset: nat): nat { if offset <= |file| then |file| - offset else 0 }

  /** How many bytes a call that may return `want` of `left` remaining bytes gives. */
  function Delivered(call: Pread, want: nat, left: nat): (k: nat)
    requires call.Upto?
    ensures k <= want && k <= left && (k == 0 <==> want == 0 || left == 0)
  {
    Min(Min(want, left), if call.n == 0 then 1 else call.n)
  }

  /** pread_full over the calls `io`, the `avail` bytes before the end of file and
      `total` bytes already there; calls past the end of `io` are complete. */
  function ReadFull(avail: nat, count: nat, total: nat, io: seq<Pread>): (n: int)
    requires total <= Min(count, avail)
    ensures n == -1 || n == Min(count, avail)
    ensures Failed !in io ==> n == Min(count, avail)
    decreases |io|
  {
    if total >= count then total
    else if io == [] then Min(count, avail)
    else match io[0]
      case Interrupted => ReadFull(avail, count, total, io[1..])
      case Failed => -1
      case Upto(_) =>
        var k := Delivered(io[0], count - total, avail - total);
        if k == 0 then total else ReadFull(avail, count, total + k, io[1..])
  }

  function ReadChunk(file: seq<Byte>, c: ChunkIO, io: seq<Pread>): (n: int)
    ensures n == -1 || n == Min(c.readLen, Available(file, c.readOff))
  {
    ReadFull(Available(file, c.readOff), c.readLen, 0, io)
  }

  /** The staged bytes cover the chunk. */
  predicate Covers(c: ChunkIO, n: int) { n >= 0 && n >= c.localOff + c.piece }

  // --- the sequential transfer ---------------------------------------------------

  /** One handleGetObject call: a negative code after some prefix of the piece
      reached the client, or a count of delivered bytes. */
  datatype Rdma = Error(delivered: nat) | Done(n: nat)

  function Landed(r: Rdma, piece: nat): nat {
    match r
    case Error(k) => Min(k, piece)
    case Done(n) => Min(n, piece)
  }

  /** A transfer in progress, whatever the disk and the NIC do: `staged(o, r, j)`
      says that the j-th read, planned at offset `o` with `r` bytes to go, covers
      its chunk; `nic(j)` is what the j-th RDMA write does. */
  datatype Job = Job(file: seq<Byte>, chunk: nat, staged: (nat, nat, nat) -> bool, nic: nat -> Rdma)

  datatype Outcome = Outcome(ok: bool, bytes: nat, log: seq<Store>)

  /** How far a transfer got: chunk `j` at `fileOff` is staged and comes next. */
  datatype Progress = Progress(fileOff: nat, remaining: nat, remoteOff: nat, j: nat, total: nat, log: seq<Store>)

  /** The staged chunk is written; `Landed` says how much of it arrives. */
  function Step(job: Job, p: Progress): Progress {
    var piece := Min(p.remaining, job.chunk);
    var k := Landed(job.nic(p.j), piece);
    Progress(p.fileOff + piece, p.remaining - piece, p.remoteOff + piece, p.j + 1, p.total + k,
             p.log + [Store(p.remoteOff, Slice(job.file, p.fileOff, k))])
  }

  /** The write fails, or the read of the next chunk does not cover it. */
  predicate Stops(job: Job, p: Progress) {
    var q := Step(job, p);
    job.nic(p.j).Error? || (q.remaining > 0 && !job.staged(q.fileOff, q.remaining, q.j))
  }

  function Transfer(job: Job, p: Progress): Outcome
    requires job.chunk > 0
    decreases p.remaining
  {
    if p.remaining == 0 then Outcome(true, p.total, p.log)
    else if Stops(job, p) then Outcome(false, 0, Step(job, p).log)
    else Transfer(job, Step(job, p))
  }

  function Slice(file: seq<Byte>, lo: nat, n: nat): seq<Byte> {
    if lo + n <= |file| then file[lo..lo + n] else []
  }

  /** A staged chunk lies inside the file. */
  ghost predicate Sound(job: Job) {
    forall o: nat, r: nat, j: nat :: job.staged(o, r, j) && r > 0 ==> o + Min(r, job.chunk) <= |job.file|
  }

  lemma SlicesJoin(file: seq<Byte>, lo: nat, m: nat, n: nat)
    requires lo + m + n <= |file|
    ensures Slice(file, lo, m) + Slice(file, lo + m, n) == Slice(file, lo, m + n)
  {}

  /** `after` is `mem` with `n` bytes of the file from `lo` stored at `at`. */
  predicate Arrived(file: seq<Byte>, lo: nat, n: nat, at: nat, mem: Memory, after: Memory) {
    (n > 0 ==> lo + n <= |file|) && after == Write(mem, at, Slice(file, lo, n))
  }

  lemma ArrivalsJoin(file: seq<Byte>, lo: nat, m: nat, n: nat, at: nat, mem: Memory, after: Memory)
    requires m > 0 && lo + m <= |file|
    ensures Arrived(file, lo + m, n, at + m, Write(mem, at, Slice(file, lo, m)), after) ==>
            Arrived(file, lo, m + n, at, mem, after)
  {
    if lo + m + n <= |file| {
      SlicesJoin(file, lo, m, n);
      WriteAppends(mem, at, Slice(file, lo, m), Slice(file, lo + m, n));
    }
  }

  /** A chunk that landed whole joins what arrives after it. */
  lemma StepArrives(job: Job, p: Progress, mem: Memory, after: Memory)
    requires job.chunk > 0 && p.remaining > 0 && p.fileOff + Min(p.remaining, job.chunk) <= |job.file|
    requires Landed(job.nic(p.j), Min(p.remaining, job.chunk)) == Min(p.remaining, job.chunk)
    requires var q := Step(job, p); Arrived(job.file, q.fileOff, q.remaining, q.remoteOff, Replay(mem, q.log), after)
    ensures Arrived(job.file, p.fileOff, p.remaining, p.remoteOff, Replay(mem, p.log), after)
  {
    var q, piece := Step(job, p), Min(p.remaining, job.chunk);
    StepWrites(job, p, mem, piece);
    PieceJoins(job.file, p.fileOff, piece, q.remaining, p.remoteOff, Replay(mem, p.log), Replay(mem, q.log), after);
  }

  lemma PieceJoins(file: seq<Byte>, lo: nat, m: nat, n: nat, at: nat, mem: Memory, mid: Memory, after: Memory)
    requires m > 0 && lo + m <= |file| && mid == Write(mem, at, Slice(file, lo, m))
    requires Arrived(file, lo + m, n, at + m, mid, after)
    ensures Arrived(file, lo, m + n, at, mem, after)
  {
    ArrivalsJoin(file, lo, m, n, at, mem, after);
  }

  /** A step whose write lands whole stores the whole piece, and moves on by it. */
  lemma StepWrites(job: Job, p: Progress, mem: Memory, piece: nat)
    requires piece == Min(p.remaining, job.chunk) && Landed(job.nic(p.j), piece) == piece
    ensures var q := Step(job, p);
            && Replay(mem, q.log) == Write(Replay(mem, p.log), p.remoteOff, Slice(job.file, p.fileOff, piece))
            && q.fileOff == p.fileOff + piece && q.remaining == p.remaining - piece && q.remoteOff == p.remoteOff + piece
  {
    ReplayNext(mem, p.log, Store(p.remoteOff, Slice(job.file, p.fileOff, piece)));
  }

  lemma ReplayNext(mem: Memory, log: seq<Store>, store: Store)
    ensures Replay(mem, log + [store]) == Write(Replay(mem, log), store.at, store.data)
  {
    assert (log + [store])[..|log|] == log;
  }

  /** Reported bytes never exceed the request. */
  lemma {:induction false} TransferCounts(job: Job, p: Progress)
    requires job.chunk > 0
    ensures Transfer(job, p).ok ==> p.total <= Transfer(job, p).bytes <= p.total + p.remaining
    decreases p.remaining
  {
    if p.remaining > 0 && !Stops(job, p) { TransferCounts(job, Step(job, p)); }
  }

  /** If they equal it, the client's memory holds exactly the requested bytes and
      nothing else changed. */
  lemma {:induction false} TransferDelivers(job: Job, p: Progress, mem: Memory)
    requires job.chunk > 0 && Sound(job) && (p.remaining > 0 ==> job.staged(p.fileOff, p.remaining, p.j))
    requires Transfer(job, p).ok && Transfer(job, p).bytes == p.total + p.remaining
    ensures Arrived(job.file, p.fileOff, p.remaining, p.remoteOff, Replay(mem, p.log), Replay(mem, Transfer(job, p).log))
    decreases p.remaining
  {
    if p.remaining > 0 {
      var q := Step(job, p);
      TransferCounts(job, q);
      TransferDelivers(job, q, mem);
      StepArrives(job, p, mem, Replay(mem, Transfer(job, p).log));
    }
  }

  // --- the whole GET -------------------------------------------------------------

  predicate Staged(file: seq<Byte>, cfg: Config, o: nat, r: nat, io: seq<Pread>) {
    var c := PlanChunk(o, r, cfg);
    Covers(c, ReadChunk(file, c, io))
  }

  function DiskJob(file: seq<Byte>, cfg: Config, disk: nat -> seq<Pread>, nic: nat -> Rdma): Job {
    Job(file, cfg.chunk, (o: nat, r: nat, j: nat) => Staged(file, cfg, o, r, disk(j)), nic)
  }

  lemma DiskJobIsSound(file: seq<Byte>, cfg: Config, disk: nat -> seq<Pread>, nic: nat -> Rdma)
    requires cfg.chunk > 0
    ensures Sound(DiskJob(file, cfg, disk, nic))
  {
    forall o: nat, r: nat, j: nat | Staged(file, cfg, o, r, disk(j)) && r > 0
      ensures o + Min(r, cfg.chunk) <= |file|
    {
      StagedIsInFile(file, cfg, o, r, disk(j));
    }
  }

  lemma StagedIsInFile(file: seq<Byte>, cfg: Config, o: nat, r: nat, io: seq<Pread>)
    requires Staged(file, cfg, o, r, io)
    ensures Min(r, cfg.chunk) > 0 ==> o + Min(r, cfg.chunk) <= |file|
  {}

  function Start(offset: nat, length: nat, base: nat): Progress { Progress(offset, length, base, 0, 0, []) }

  function SequentialGet(file: seq<Byte>, cfg: Config, disk: nat -> seq<Pread>, nic: nat -> Rdma,
                         offset: nat, length: nat, base: nat): Outcome
  {
    if cfg.chunk == 0 || !Staged(file, cfg, offset, length, disk(0)) then Outcome(false, 0, [])
    else Transfer(DiskJob(file, cfg, disk, nic), Start(offset, length, base))
  }

  /** A successful GET that reports all its bytes has put exactly the requested
      slice of the file at the client's address. */
  lemma GetDelivers(file: seq<Byte>, cfg: Config, disk: nat -> seq<Pread>, nic: nat -> Rdma,
                    offset: nat, length: nat, base: nat, mem: Memory)
    ensures var r := SequentialGet(file, cfg, disk, nic, offset, length, base);
            r.ok ==> r.bytes <= length &&
                     (r.bytes == length ==> Arrived(file, offset, length, base, mem, Replay(mem, r.log)))
  {
    if cfg.chunk > 0 && Staged(file, cfg, offset, length, disk(0)) {
      DiskJobIsSound(file, cfg, disk, nic);
      var job, p := DiskJob(file, cfg, disk, nic), Start(offset, length, base);
      TransferCounts(job, p);
      if Transfer(job, p).ok && Transfer(job, p).bytes == length { TransferDelivers(job, p, mem); }
    }
  }

  /** Every write of a transfer of `r` bytes, from the j-th on, lands its whole piece. */
  predicate LandsWhole(chunk: nat, nic: nat -> Rdma, r: nat, j: nat)
    requires chunk > 0
    decreases r
  {
    r == 0 ||
    (Landed(nic(j), Min(r, chunk)) == Min(r, chunk) && LandsWhole(chunk, nic, r - Min(r, chunk), j + 1))
  }

  /** A successful transfer reports every byte exactly when every write landed whole. */
  lemma {:induction false} TransferReportsAll(job: Job, p: Progress)
    requires job.chunk > 0
    ensures Transfer(job, p).ok ==>
              (Transfer(job, p).bytes == p.total + p.remaining <==> LandsWhole(job.chunk, job.nic, p.remaining, p.j))
    decreases p.remaining
  {
    if p.remaining > 0 && !Stops(job, p) {
      TransferReportsAll(job, Step(job, p));
      TransferCounts(job, Step(job, p));
    }
  }

  /** What a successful GET has done: never more than asked is reported; all of it exactly
      when every write landed whole; and then the client's memory holds exactly the
      requested slice of the file, and nothing else changed. */
  predicate Served(file: seq<Byte>, chunk: nat, nic: nat -> Rdma, offset: nat, length: nat, base: nat,
                   bytes: nat, mem: Memory, after: Memory)
  {
    && bytes <= length && chunk > 0
    && (bytes == length <==> LandsWhole(chunk, nic, length, 0))
    && (bytes == length ==> Arrived(file, offset, length, base, mem, after))
  }

  lemma SuccessServes(file: seq<Byte>, cfg: Config, disk: nat -> seq<Pread>, nic: nat -> Rdma,
                      offset: nat, length: nat, base: nat, mem: Memory)
    ensures var r := SequentialGet(file, cfg, disk, nic, offset, length, base);
            r.ok ==> Served(file, cfg.chunk, nic, offset, length, base, r.bytes, mem, Replay(mem, r.log))
  {
    GetDelivers(file, cfg, disk, nic, offset, length, base, mem);
    if cfg.chunk > 0 { TransferReportsAll(DiskJob(file, cfg, disk, nic), Start(offset, length, base)); }
  }

  // --- when direct I/O can serve a request ------------------------------------------

  /** Every chunk, with the padding in front of it, fits the staging buffer. */
  predicate Fits(cfg: Config, offset: nat, length: nat)
    requires cfg.chunk > 0
    decreases length
  {
    length == 0 ||
    (Padding(cfg, offset) + Min(length, cfg.chunk) <= cfg.chunk &&
     Fits(cfg, offset + Min(length, cfg.chunk), length - Min(length, cfg.chunk)))
  }

  function Padding(cfg: Config, offset: nat): nat { if cfg.directIo then offset % ALIGN else 0 }

  lemma StagedIffFits(file: seq<Byte>, cfg: Config, o: nat, r: nat, io: seq<Pread>)
    requires Failed !in io && o + Min(r, cfg.chunk) <= |file|
    ensures Staged(file, cfg, o, r, io) <==> Padding(cfg, o) + Min(r, cfg.chunk) <= cfg.chunk
  {}

  /** Every chunk from the j-th on is staged and written. */
  predicate AllPass(job: Job, o: nat, r: nat, j: nat)
    requires job.chunk > 0
    decreases r
  {
    r == 0 ||
    (job.staged(o, r, j) && job.nic(j).Done? &&
     AllPass(job, o + Min(r, job.chunk), r - Min(r, job.chunk), j + 1))
  }

  lemma {:induction false} TransferIffAllPass(job: Job, p: Progress)
    requires job.chunk > 0 && (p.remaining > 0 ==> job.staged(p.fileOff, p.remaining, p.j))
    ensures Transfer(job, p).ok <==> AllPass(job, p.fileOff, p.remaining, p.j)
    decreases p.remaining
  {
    if p.remaining > 0 && !Stops(job, p) { TransferIffAllPass(job, Step(job, p)); }
  }

  /** Inside the first `n` bytes of the file, exactly the chunks that fit are staged, and
      every write is done. */
  ghost predicate Healthy(job: Job, cfg: Config, n: nat) {
    && job.chunk == cfg.chunk && (forall j: nat :: job.nic(j).Done?)
    && forall o: nat, r: nat, j: nat :: 0 < r && o + r <= n ==> StagedWhenFits(job, cfg, o, r, j)
  }

  predicate StagedWhenFits(job: Job, cfg: Config, o: nat, r: nat, j: nat) {
    job.staged(o, r, j) <==> Padding(cfg, o) + Min(r, cfg.chunk) <= cfg.chunk
  }

  lemma {:induction false} AllPassIffFits(job: Job, cfg: Config, n: nat, o: nat, r: nat, j: nat)
    requires cfg.chunk > 0 && o + r <= n && Healthy(job, cfg, n)
    ensures AllPass(job, o, r, j) <==> Fits(cfg, o, r)
    decreases r
  {
    if r > 0 {
      assert StagedWhenFits(job, cfg, o, r, j);
      AllPassIffFits(job, cfg, n, o + Min(r, cfg.chunk), r - Min(r, cfg.chunk), j + 1);
    }
  }

  lemma DiskJobIsHealthy(file: seq<Byte>, cfg: Config, disk: nat -> seq<Pread>, nic: nat -> Rdma)
    requires cfg.chunk > 0 && forall j: nat :: nic(j).Done? && Failed !in disk(j)
    ensures Healthy(DiskJob(file, cfg, disk, nic), cfg, |file|)
  {
    var job := DiskJob(file, cfg, disk, nic);
    forall o: nat, r: nat, j: nat | 0 < r && o + r <= |file| ensures StagedWhenFits(job, cfg, o, r, j) {
      StagedIffFits(file, cfg, o, r, disk(j));
    }
  }

  /** With a healthy disk and NIC, a non-empty GET inside the file succeeds if and
      only if every padded chunk fits; it fails before any write exactly when the
      first does not. */
  lemma HealthyGetIffFits(file: seq<Byte>, cfg: Config, disk: nat -> seq<Pread>, nic: nat -> Rdma,
                          offset: nat, length: nat, base: nat)
    requires cfg.chunk > 0 && length > 0 && offset + length <= |file|
    requires forall j: nat :: nic(j).Done? && Failed !in disk(j)
    ensures var r := SequentialGet(file, cfg, disk, nic, offset, length, base);
            && (r.ok <==> Fits(cfg, offset, length))
            && (!r.ok && r.log == [] <==> Padding(cfg, offset) + Min(length, cfg.chunk) > cfg.chunk)
  {
    var job := DiskJob(file, cfg, disk, nic);
    StagedIffFits(file, cfg, offset, length, disk(0));
    DiskJobIsHealthy(file, cfg, disk, nic);
    AllPassIffFits(job, cfg, |file|, offset, length, 0);
    if Staged(file, cfg, offset, length, disk(0)) {
      TransferIffAllPass(job, Start(offset, length, base));
      TransferLogs(job, Start(offset, length, base));
    }
  }

  /** What a non-empty GET inside the file comes to with a healthy disk and NIC: it is
      answered exactly when every padded chunk fits, and refused before any write
      exactly when the first does not. */
  ghost predicate HealthyAnswer(file: seq<Byte>, cfg: Config, disk: nat -> seq<Pread>, nic: nat -> Rdma,
                                offset: nat, length: nat, ok: bool, writes: int)
  {
    cfg.chunk > 0 && length > 0 && offset + length <= |file| && (forall j: nat :: nic(j).Done? && Failed !in disk(j)) ==>
      && (ok <==> Fits(cfg, offset, length))
      && (!ok && writes == 0 <==> Padding(cfg, offset) + Min(length, cfg.chunk) > cfg.chunk)
  }

  lemma HealthyAnswers(file: seq<Byte>, cfg: Config, disk: nat -> seq<Pread>, nic: nat -> Rdma,
                       offset: nat, length: nat, base: nat)
    ensures var r := SequentialGet(file, cfg, disk, nic, offset, length, base);
            HealthyAnswer(file, cfg, disk, nic, offset, length, r.ok, |r.log|)
  {
    if cfg.chunk > 0 && length > 0 && offset + length <= |file| && forall j: nat :: nic(j).Done? && Failed !in disk(j) {
      HealthyGetIffFits(file, cfg, disk, nic, offset, length, base);
    }
  }

  /** A transfer that starts writes something down. */
  lemma {:induction false} TransferLogs(job: Job, p: Progress)
    requires job.chunk > 0
    ensures |Transfer(job, p).log| >= |p.log| && (p.remaining > 0 ==> |Transfer(job, p).log| > |p.log|)
    decreases p.remaining
  {
    if p.remaining > 0 && !Stops(job, p) { TransferLogs(job, Step(job, p)); }
  }

  /** A chunk size that is not a multiple of the alignment can fail later: with 5 KiB
      chunks, the second chunk of a 10 KiB request at offset 0 does not fit its buffer,
      so the GET fails after the first chunk has been written. */
  lemma OddChunkFailsLate(file: seq<Byte>, disk: nat -> seq<Pread>, nic: nat -> Rdma, base: nat)
    requires |file| >= 10240 && forall j: nat :: nic(j).Done? && Failed !in disk(j)
    ensures var r := SequentialGet(file, Config(5120, true), disk, nic, 0, 10240, base);
            !r.ok && r.log != []
  {
    var cfg := Config(5120, true);
    assert !Fits(cfg, 5120, 5120);
    HealthyGetIffFits(file, cfg, disk, nic, 0, 10240, base);
  }

  /** For a chunk size that is a multiple of the alignment, only the first chunk
      decides: an unaligned offset leaves room for less than a whole chunk. */
  lemma AlignedChunksFit(cfg: Config, offset: nat, length: nat)
    requires cfg.chunk > 0 && (cfg.directIo ==> cfg.chunk % ALIGN == 0) && length > 0
    ensures Fits(cfg, offset, length) <==> Padding(cfg, offset) + Min(length, cfg.chunk) <= cfg.chunk
  {
    if length > cfg.chunk && Padding(cfg, offset) == 0 {
      if cfg.directIo { AlignedSum(offset, cfg.chunk); }
      AlignedFits(cfg, offset + cfg.chunk, length - cfg.chunk);
    }
  }

  lemma AlignedSum(a: nat, b: nat)
    requires a % ALIGN == 0 && b % ALIGN == 0
    ensures (a + b) % ALIGN == 0
  {}

  lemma {:induction false} AlignedFits(cfg: Config, offset: nat, length: nat)
    requires cfg.chunk > 0 && (cfg.directIo ==> cfg.chunk % ALIGN == 0 && offset % ALIGN == 0)
    ensures Fits(cfg, offset, length)
    decreases length
  {
    if length > cfg.chunk {
      if cfg.directIo { AlignedSum(offset, cfg.chunk); }
      AlignedFits(cfg, offset + cfg.chunk, length - cfg.chunk);
    }
  }
}
