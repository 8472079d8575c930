/** The group-commit event log: writers, the commit goroutine, rotation and Close, step by step. */
module GroupCommit {
  const MAX_BATCH := 256

  /** A queued write; tickets number the sends to the channel. */
  datatype Request = Request(ticket: nat, entry: string)

  /** A log file and the length of its prefix that is known to be on disk. */
  datatype File = File(entries: seq<Request>, synced: nat)

  /** Where the commit goroutine is. closing is set once it drains. */
  datatype Loop =
    | Idle
    | Collecting(batch: seq<Request>)
    | Encoding(batch: seq<Request>, k: nat, closing: bool)
    | Rotating(batch: seq<Request>, closing: bool)
    | Acking(batch: seq<Request>, ok: bool, j: nat, closing: bool)
    | Draining
    | Stopped

  /** The channel, and the history of everything sent to it and of the requests whose batch is over. */
  datatype Channel = Channel(sent: seq<Request>, over: seq<Request>, queue: seq<Request>)

  /** The files rolled away, and the active one. */
  datatype Disk = Disk(rolled: seq<File>, active: File, isOpen: bool)

  datatype Answer = Acked(ok: bool) | ErrClosed

  /** Acknowledgements sent, and what Write returned. */
  datatype Replies = Replies(acks: map<nat, bool>, returned: map<nat, Answer>)

  datatype Outcome = Unknown | Known(ok: bool)

  /** A batch, the commit fsyncs made for it, and what its requests are told. */
  datatype Batch = Batch(requests: seq<Request>, syncs: nat, outcome: Outcome)

  /** The count of commit fsyncs, and the history of batches. */
  datatype Counts = Counts(syncs: nat, batches: seq<Batch>)

  datatype Writer = Writer(
    sync: bool, quit: bool, loop: Loop, channel: Channel, disk: Disk, replies: Replies, counts: Counts)

  datatype Step =
    | Send(entry: string)
    | ReturnAck(ticket: nat)
    | ReturnClosed(ticket: nat)
    | Quit
    | Receive
    | Collect
    | Full
    | Encode(ok: bool)
    | Fsync(ok: bool)
    | SkipRotation
    | Rotate(synced: bool, reopened: bool)
    | Ack
    | StartDrain
    | DrainOne
    | CloseFile(synced: bool)

  function Initial(sync: bool): Writer {
    Writer(sync, false, Idle, Channel([], [], []), Disk([], File([], 0), true), Replies(map[], map[]), Counts(0, []))
  }

  function BatchOf(l: Loop): seq<Request> {
    match l
    case Collecting(b) => b
    case Encoding(b, _, _) => b
    case Rotating(b, _) => b
    case Acking(b, _, _, _) => b
    case _ => []
  }

  // ---------- the parts of a step ----------

  function Pop(c: Channel): Channel { if c.queue == [] then c else c.(queue := c.queue[1..]) }

  /** A send succeeds whenever the channel has room, even after the goroutine stopped. */
  function ChannelNext(w: Writer, step: Step): Channel {
    var c := w.channel;
    match step
    case Send(entry) =>
      if |c.queue| >= MAX_BATCH then c else
        var q := Request(|c.sent|, entry);
        c.(queue := c.queue + [q], sent := c.sent + [q])
    case Receive => if w.loop == Idle then Pop(c) else c
    case Collect => if w.loop.Collecting? && |w.loop.batch| < MAX_BATCH then Pop(c) else c
    case DrainOne => if w.loop == Draining then Pop(c) else c
    case Ack => if w.loop.Acking? && w.loop.j >= |w.loop.batch| then c.(over := c.over + w.loop.batch) else c
    case _ => c
  }

  /** The control flow of the goroutine. Encoding stops at the first failure; a closed file accepts nothing. */
  function LoopNext(w: Writer, step: Step): Loop {
    var queue := w.channel.queue;
    match (w.loop, step)
    case (Idle, Receive) => if queue != [] then Collecting([queue[0]]) else w.loop
    case (Idle, StartDrain) => if w.quit then Draining else w.loop
    case (Collecting(b), Collect) => if |b| < MAX_BATCH && queue != [] then Collecting(b + [queue[0]]) else w.loop
    case (Collecting(b), Full) => if |b| >= MAX_BATCH || queue == [] then Encoding(b, 0, false) else w.loop
    case (Encoding(b, k, c), Encode(ok)) =>
      if k >= |b| then w.loop else if ok && w.disk.isOpen then Encoding(b, k + 1, c) else Acking(b, false, 0, c)
    case (Encoding(b, k, c), Fsync(ok)) =>
      if k < |b| then w.loop else if !w.sync || (ok && w.disk.isOpen) then Rotating(b, c) else Acking(b, false, 0, c)
    case (Rotating(b, c), SkipRotation) => Acking(b, true, 0, c)
    case (Rotating(b, c), Rotate(_, reopened)) => Acking(b, reopened, 0, c)
    case (Acking(b, ok, j, c), Ack) => if j < |b| then Acking(b, ok, j + 1, c) else if c then Draining else Idle
    case (Draining, DrainOne) => if queue != [] then Encoding([queue[0]], 0, true) else w.loop
    case (Draining, CloseFile(_)) => if queue == [] then Stopped else w.loop
    case _ => w.loop
  }

  function Synced(f: File): File { f.(synced := |f.entries|) }

  function SyncedIf(d: Disk, synced: bool): File { if synced && d.isOpen then Synced(d.active) else d.active }

  /** Files grow by one entry, are fsynced, or roll; without a new file the writer is left on a closed one. */
  function DiskNext(w: Writer, step: Step): Disk {
    var d := w.disk;
    match (w.loop, step)
    case (Encoding(b, k, _), Encode(ok)) =>
      if k < |b| && ok && d.isOpen then d.(active := d.active.(entries := d.active.entries + [b[k]])) else d
    case (Encoding(b, k, _), Fsync(ok)) => if k >= |b| && w.sync then d.(active := SyncedIf(d, ok)) else d
    case (Rotating(_, _), Rotate(synced, reopened)) =>
      if reopened then Disk(d.rolled + [SyncedIf(d, synced)], File([], 0), true)
      else Disk(d.rolled, SyncedIf(d, synced), false)
    case (Draining, CloseFile(synced)) =>
      if w.channel.queue == [] then Disk(d.rolled, SyncedIf(d, synced), false) else d
    case _ => d
  }

  function RepliesNext(w: Writer, step: Step): Replies {
    var p := w.replies;
    match step
    case Ack =>
      if w.loop.Acking? && w.loop.j < |w.loop.batch| then p.(acks := p.acks[w.loop.batch[w.loop.j].ticket := w.loop.ok])
      else p
    case ReturnAck(t) =>
      if t in p.acks && t !in p.returned then p.(returned := p.returned[t := Acked(p.acks[t])]) else p
    case ReturnClosed(t) =>
      if w.loop == Stopped && t < |w.channel.sent| && t !in p.returned then p.(returned := p.returned[t := ErrClosed])
      else p
    case _ => p
  }

  /** The commit fsync of a batch. */
  predicate IsFsync(w: Writer, step: Step) { w.loop.Encoding? && step.Fsync? && w.loop.k >= |w.loop.batch| && w.sync }

  predicate IsAnswer(w: Writer, step: Step) { w.loop.Acking? && step.Ack? && w.loop.j < |w.loop.batch| }

  /** A batch is closed: it is recorded before it is encoded. */
  predicate IsSealed(w: Writer, step: Step) { LoopNext(w, step).Encoding? && !w.loop.Encoding? }

  function Init(bs: seq<Batch>): seq<Batch> { if bs == [] then [] else bs[..|bs| - 1] }

  function Last(bs: seq<Batch>): Batch { if bs == [] then Batch([], 0, Unknown) else bs[|bs| - 1] }

  function CountsNext(w: Writer, step: Step): Counts {
    var n, last := w.counts, Last(w.counts.batches);
    if IsSealed(w, step) then n.(batches := n.batches + [Batch(LoopNext(w, step).batch, 0, Unknown)])
    else if IsFsync(w, step) then Counts(n.syncs + 1, Init(n.batches) + [last.(syncs := last.syncs + 1)])
    else if IsAnswer(w, step) then n.(batches := Init(n.batches) + [last.(outcome := Known(w.loop.ok))])
    else n
  }

  /** One atomic step; a step that is not enabled changes nothing. */
  function Next(w: Writer, step: Step): Writer {
    Writer(w.sync, w.quit || step.Quit?, LoopNext(w, step), ChannelNext(w, step), DiskNext(w, step),
           RepliesNext(w, step), CountsNext(w, step))
  }

  function Run(sync: bool, steps: seq<Step>): Writer {
    if steps == [] then Initial(sync) else Next(Run(sync, steps[..|steps| - 1]), steps[|steps| - 1])
  }

  // ---------- the log ----------

  function Concat(files: seq<File>): seq<Request> {
    if files == [] then [] else Concat(files[..|files| - 1]) + files[|files| - 1].entries
  }

  /** All entries in all files, in file order. */
  function Log(d: Disk): seq<Request> { Concat(d.rolled) + d.active.entries }

  predicate OnDisk(f: File, q: Request) { f.synced <= |f.entries| && q in f.entries[..f.synced] }

  /** The entry is in the part of some file that is known to be on disk. */
  ghost predicate Durable(d: Disk, q: Request) {
    OnDisk(d.active, q) || exists i :: 0 <= i < |d.rolled| && OnDisk(d.rolled[i], q)
  }

  predicate Increasing(log: seq<Request>) { forall i, j :: 0 <= i < j < |log| ==> log[i].ticket < log[j].ticket }

  // ---------- the invariant ----------

  predicate Numbered(sent: seq<Request>) { forall i :: 0 <= i < |sent| ==> sent[i].ticket == i }

  /** Finished batches, the current batch and the queue are together what was sent, in order. */
  predicate QueueOk(c: Channel, l: Loop) { Numbered(c.sent) && c.sent == c.over + BatchOf(l) + c.queue }

  predicate LoopOk(l: Loop) {
    match l
    case Collecting(b) => 1 <= |b| <= MAX_BATCH
    case Encoding(b, k, _) => b != [] && k <= |b|
    case Acking(b, _, j, _) => j <= |b|
    case _ => true
  }

  /** How many requests have been answered. */
  function Answered(c: Channel, l: Loop): nat { |c.over| + if l.Acking? then l.j else 0 }

  /** How many requests have been considered for the log. */
  function Reached(c: Channel, l: Loop): nat {
    match l
    case Collecting(_) => |c.over|
    case Encoding(_, k, _) => |c.over| + k
    case _ => |c.over| + |BatchOf(l)|
  }

  /** The answered requests are exactly the first ones, so each is answered once. */
  ghost predicate AnswersOk(acks: map<nat, bool>, n: nat) { forall t :: t in acks <==> 0 <= t < n }

  ghost predicate ReturnsOk(p: Replies) {
    forall t :: t in p.returned && p.returned[t].Acked? ==> t in p.acks && p.returned[t].ok == p.acks[t]
  }

  /** The log is in queue order and holds only the requests considered so far. */
  ghost predicate LogOk(log: seq<Request>, sent: seq<Request>, reached: nat) {
    Increasing(log) && forall i :: 0 <= i < |log| ==> log[i].ticket < reached && IsSent(log[i], sent)
  }

  predicate IsSent(q: Request, sent: seq<Request>) { q.ticket < |sent| && sent[q.ticket] == q }

  /** The batch counts as written: its commit fsync is over and no error is known. */
  predicate Committed(l: Loop) { l.Rotating? || (l.Acking? && l.ok) }

  ghost predicate AllDurable(d: Disk, batch: seq<Request>) { forall i :: 0 <= i < |batch| ==> Durable(d, batch[i]) }

  ghost predicate AcksDurable(d: Disk, acks: map<nat, bool>, sent: seq<Request>) {
    forall t :: t in acks && acks[t] && t < |sent| ==> Durable(d, sent[t])
  }

  /** The encoded part of the batch is in the active file. */
  ghost predicate EncodedOk(d: Disk, l: Loop) {
    d.active.synced <= |d.active.entries|
      && (l.Encoding? ==> forall i :: 0 <= i < l.k && i < |l.batch| ==> l.batch[i] in d.active.entries)
  }

  /** All requests of these batches, in order. */
  function Joined(bs: seq<Batch>): seq<Request> {
    if bs == [] then [] else Joined(bs[..|bs| - 1]) + bs[|bs| - 1].requests
  }

  function SyncSum(bs: seq<Batch>): nat { if bs == [] then 0 else SyncSum(bs[..|bs| - 1]) + bs[|bs| - 1].syncs }

  /** 1 to 256 requests; at most one commit fsync, none outside sync mode, exactly one if told ok in sync mode. */
  predicate BatchOk(b: Batch, sync: bool) {
    && 1 <= |b.requests| <= MAX_BATCH && b.syncs <= (if sync then 1 else 0)
    && (sync && b.outcome == Known(true) ==> b.syncs == 1)
  }

  predicate AllBatchesOk(bs: seq<Batch>, sync: bool) { forall i :: 0 <= i < |bs| ==> BatchOk(bs[i], sync) }

  /** The current batch is the last one recorded, as far as it got. */
  predicate CurrentOk(l: Loop, last: Batch, sync: bool) {
    match l
    case Encoding(b, _, _) => last == Batch(b, 0, Unknown)
    case Rotating(b, _) => last == Batch(b, if sync then 1 else 0, Unknown)
    case Acking(b, ok, j, _) =>
      last.requests == b && last.outcome == (if j == 0 then Unknown else Known(ok)) && (sync && ok ==> last.syncs == 1)
    case _ => true
  }

  /** The received requests that are in batches no longer collecting. */
  function Sealed(c: Channel, l: Loop): seq<Request> { c.over + if l.Collecting? then [] else BatchOf(l) }

  predicate CountsOk(n: Counts, c: Channel, l: Loop, sync: bool) {
    && AllBatchesOk(n.batches, sync) && CurrentOk(l, Last(n.batches), sync)
    && Joined(n.batches) == Sealed(c, l) && n.syncs == SyncSum(n.batches)
  }

  ghost predicate Invariant(w: Writer) {
    && QueueOk(w.channel, w.loop) && LoopOk(w.loop)
    && AnswersOk(w.replies.acks, Answered(w.channel, w.loop)) && ReturnsOk(w.replies)
    && LogOk(Log(w.disk), w.channel.sent, Reached(w.channel, w.loop)) && EncodedOk(w.disk, w.loop)
    && (w.sync ==> AcksDurable(w.disk, w.replies.acks, w.channel.sent))
    && (w.sync && Committed(w.loop) ==> AllDurable(w.disk, BatchOf(w.loop)))
    && CountsOk(w.counts, w.channel, w.loop, w.sync)
  }

  // ---------- every step keeps it, part by part ----------

  lemma LoopKeeps(w: Writer, step: Step)
    requires LoopOk(w.loop)
    ensures LoopOk(LoopNext(w, step))
  {
  }

  lemma QueueKeeps(w: Writer, step: Step)
    requires QueueOk(w.channel, w.loop)
    ensures QueueOk(ChannelNext(w, step), LoopNext(w, step))
  {
  }

  /** The next request to answer is the one after those answered. */
  lemma NextAnswer(c: Channel, l: Loop)
    requires QueueOk(c, l) && l.Acking? && l.j < |l.batch|
    ensures l.batch[l.j].ticket == Answered(c, l) < |c.sent| && c.sent[Answered(c, l)] == l.batch[l.j]
  {
    assert c.sent[|c.over| + l.j] == l.batch[l.j];
  }

  lemma AnswersKeep(w: Writer, step: Step)
    requires QueueOk(w.channel, w.loop) && LoopOk(w.loop) && AnswersOk(w.replies.acks, Answered(w.channel, w.loop))
    ensures AnswersOk(RepliesNext(w, step).acks, Answered(ChannelNext(w, step), LoopNext(w, step)))
  {
    if step.Ack? && w.loop.Acking? && w.loop.j < |w.loop.batch| { NextAnswer(w.channel, w.loop); }
  }

  lemma ReturnsKeep(w: Writer, step: Step)
    requires QueueOk(w.channel, w.loop) && AnswersOk(w.replies.acks, Answered(w.channel, w.loop))
    requires ReturnsOk(w.replies)
    ensures ReturnsOk(RepliesNext(w, step))
  {
    if step.Ack? && w.loop.Acking? && w.loop.j < |w.loop.batch| { NextAnswer(w.channel, w.loop); }
  }

  lemma ConcatSnoc(files: seq<File>, f: File)
    ensures Concat(files + [f]) == Concat(files) + f.entries
  {
    assert (files + [f])[..|files|] == files;
  }

  predicate IsWrite(w: Writer, step: Step) {
    w.loop.Encoding? && step.Encode? && w.loop.k < |w.loop.batch| && step.ok && w.disk.isOpen
  }

  lemma LogNext(w: Writer, step: Step)
    ensures Log(DiskNext(w, step)) == Log(w.disk) + if IsWrite(w, step) then [w.loop.batch[w.loop.k]] else []
  {
    if w.loop.Rotating? && step.Rotate? && step.reopened { ConcatSnoc(w.disk.rolled, SyncedIf(w.disk, step.synced)); }
  }

  lemma ReachedGrows(w: Writer, step: Step)
    requires QueueOk(w.channel, w.loop) && LoopOk(w.loop)
    ensures Reached(w.channel, w.loop) + (if IsWrite(w, step) then 1 else 0)
              <= Reached(ChannelNext(w, step), LoopNext(w, step))
    ensures w.channel.sent <= ChannelNext(w, step).sent
  {
  }

  lemma LogGrows(log: seq<Request>, sent: seq<Request>, reached: nat, more: seq<Request>, reached': nat)
    requires LogOk(log, sent, reached) && sent <= more && reached <= reached'
    ensures LogOk(log, more, reached')
  {
    forall i | 0 <= i < |log| ensures log[i].ticket < reached' && IsSent(log[i], more) { assert IsSent(log[i], sent); }
  }

  lemma LogSnoc(log: seq<Request>, sent: seq<Request>, reached: nat, q: Request)
    requires LogOk(log, sent, reached) && q.ticket == reached && IsSent(q, sent)
    ensures LogOk(log + [q], sent, reached + 1)
  {
  }

  lemma LogKeeps(w: Writer, step: Step)
    requires QueueOk(w.channel, w.loop) && LoopOk(w.loop)
    requires LogOk(Log(w.disk), w.channel.sent, Reached(w.channel, w.loop))
    ensures LogOk(Log(DiskNext(w, step)), ChannelNext(w, step).sent, Reached(ChannelNext(w, step), LoopNext(w, step)))
  {
    var c, l := w.channel, w.loop;
    var reached := Reached(c, l);
    LogNext(w, step);
    ReachedGrows(w, step);
    if IsWrite(w, step) {
      assert c.sent[|c.over| + l.k] == l.batch[l.k];
      LogSnoc(Log(w.disk), c.sent, reached, l.batch[l.k]);
      reached := reached + 1;
    }
    LogGrows(Log(DiskNext(w, step)), c.sent, reached, ChannelNext(w, step).sent,
             Reached(ChannelNext(w, step), LoopNext(w, step)));
  }

  lemma EncodedKeeps(w: Writer, step: Step)
    requires EncodedOk(w.disk, w.loop)
    ensures EncodedOk(DiskNext(w, step), LoopNext(w, step))
  {
  }

  // ---------- durability ----------

  lemma SyncedHolds(f: File, q: Request)
    requires OnDisk(f, q)
    ensures OnDisk(Synced(f), q)
  {
    assert f.entries[..|f.entries|] == f.entries;
  }

  /** What is on disk stays there. */
  lemma DurableStays(w: Writer, step: Step, q: Request)
    requires Durable(w.disk, q)
    ensures Durable(DiskNext(w, step), q)
  {
    var d, e := w.disk, DiskNext(w, step);
    if OnDisk(d.active, q) {
      SyncedHolds(d.active, q);
      if w.loop.Rotating? && step.Rotate? && step.reopened {
        assert e.rolled[|d.rolled|] == SyncedIf(d, step.synced);
      } else if IsWrite(w, step) {
        assert e.active.entries[..d.active.synced] == d.active.entries[..d.active.synced];
      }
    } else {
      var i :| 0 <= i < |d.rolled| && OnDisk(d.rolled[i], q);
      assert e.rolled[i] == d.rolled[i];
    }
  }

  /** The commit fsync covers the whole batch. */
  lemma FsyncCovers(w: Writer, step: Step)
    requires EncodedOk(w.disk, w.loop) && w.sync && w.loop.Encoding? && step.Fsync? && Committed(LoopNext(w, step))
    ensures AllDurable(DiskNext(w, step), w.loop.batch)
  {
    var f := w.disk.active;
    assert DiskNext(w, step).active == Synced(f);
    assert f.entries[..|f.entries|] == f.entries;
  }

  lemma CommittedKeeps(w: Writer, step: Step)
    requires w.sync && EncodedOk(w.disk, w.loop) && LoopOk(w.loop)
    requires Committed(w.loop) ==> AllDurable(w.disk, BatchOf(w.loop))
    ensures Committed(LoopNext(w, step)) ==> AllDurable(DiskNext(w, step), BatchOf(LoopNext(w, step)))
  {
    if Committed(LoopNext(w, step)) {
      var batch := BatchOf(LoopNext(w, step));
      if w.loop.Encoding? { FsyncCovers(w, step); } else {
        CommittedBefore(w, step);
        forall i | 0 <= i < |batch| ensures Durable(DiskNext(w, step), batch[i]) { DurableStays(w, step, batch[i]); }
      }
    }
  }

  lemma CommittedBefore(w: Writer, step: Step)
    requires Committed(LoopNext(w, step)) && !w.loop.Encoding?
    ensures Committed(w.loop) && BatchOf(LoopNext(w, step)) == BatchOf(w.loop)
  {
  }

  lemma AcksKeepDurable(w: Writer, step: Step)
    requires QueueOk(w.channel, w.loop) && LoopOk(w.loop) && AnswersOk(w.replies.acks, Answered(w.channel, w.loop))
    requires AcksDurable(w.disk, w.replies.acks, w.channel.sent)
    requires Committed(w.loop) ==> AllDurable(w.disk, BatchOf(w.loop))
    ensures AcksDurable(DiskNext(w, step), RepliesNext(w, step).acks, ChannelNext(w, step).sent)
  {
    var acks, sent := RepliesNext(w, step).acks, ChannelNext(w, step).sent;
    ReachedGrows(w, step);
    forall t | t in acks && acks[t] && t < |sent| ensures Durable(DiskNext(w, step), sent[t]) {
      if step.Ack? && w.loop.Acking? && w.loop.j < |w.loop.batch| {
        NextAnswer(w.channel, w.loop);
        assert t == Answered(w.channel, w.loop) || t in w.replies.acks;
        assert Durable(w.disk, w.channel.sent[t]);
      } else {
        AnswersWithin(w.channel, w.loop);
        assert w.channel.sent[t] == sent[t];
      }
      DurableStays(w, step, sent[t]);
    }
  }

  lemma AnswersWithin(c: Channel, l: Loop)
    requires QueueOk(c, l) && LoopOk(l)
    ensures Answered(c, l) <= |c.sent|
  {
  }

  // ---------- batches ----------

  lemma BatchSnoc(bs: seq<Batch>, b: Batch, sync: bool)
    requires AllBatchesOk(bs, sync) && BatchOk(b, sync)
    ensures AllBatchesOk(bs + [b], sync) && Last(bs + [b]) == b
    ensures Joined(bs + [b]) == Joined(bs) + b.requests && SyncSum(bs + [b]) == SyncSum(bs) + b.syncs
  {
    assert (bs + [b])[..|bs|] == bs;
  }

  lemma SplitLast(bs: seq<Batch>, sync: bool)
    requires AllBatchesOk(bs, sync)
    ensures AllBatchesOk(Init(bs), sync)
    ensures Joined(bs) == Joined(Init(bs)) + Last(bs).requests && SyncSum(bs) == SyncSum(Init(bs)) + Last(bs).syncs
    ensures Last(bs).requests != [] ==> BatchOk(Last(bs), sync)
  {
  }

  lemma SealedNext(w: Writer, step: Step)
    requires LoopOk(w.loop)
    ensures Sealed(ChannelNext(w, step), LoopNext(w, step))
              == Sealed(w.channel, w.loop) + if IsSealed(w, step) then LoopNext(w, step).batch else []
    ensures IsSealed(w, step) ==> 1 <= |LoopNext(w, step).batch| <= MAX_BATCH
  {
  }

  /** Every step but sealing, the fsync and answers keeps the state of the current batch. */
  lemma CurrentStays(w: Writer, step: Step)
    requires CurrentOk(w.loop, Last(w.counts.batches), w.sync) && LoopOk(w.loop)
    requires !IsSealed(w, step) && !IsFsync(w, step) && !IsAnswer(w, step)
    ensures CurrentOk(LoopNext(w, step), Last(w.counts.batches), w.sync)
  {
  }

  lemma SealKeeps(w: Writer, step: Step)
    requires LoopOk(w.loop) && CountsOk(w.counts, w.channel, w.loop, w.sync) && IsSealed(w, step)
    ensures CountsOk(CountsNext(w, step), ChannelNext(w, step), LoopNext(w, step), w.sync)
  {
    SealedNext(w, step);
    var b := Batch(LoopNext(w, step).batch, 0, Unknown);
    assert CountsNext(w, step).batches == w.counts.batches + [b] && CountsNext(w, step).syncs == w.counts.syncs;
    BatchSnoc(w.counts.batches, b, w.sync);
  }

  /** A step that updates the record of the current batch. */
  lemma UpdateKeeps(w: Writer, step: Step, b: Batch)
    requires LoopOk(w.loop) && CountsOk(w.counts, w.channel, w.loop, w.sync) && !IsSealed(w, step)
    requires BatchOk(b, w.sync) && b.requests == Last(w.counts.batches).requests
    requires CurrentOk(LoopNext(w, step), b, w.sync)
    requires CountsNext(w, step).batches == Init(w.counts.batches) + [b]
    requires CountsNext(w, step).syncs + Last(w.counts.batches).syncs == w.counts.syncs + b.syncs
    ensures CountsOk(CountsNext(w, step), ChannelNext(w, step), LoopNext(w, step), w.sync)
  {
    SealedNext(w, step);
    SplitLast(w.counts.batches, w.sync);
    BatchSnoc(Init(w.counts.batches), b, w.sync);
  }

  /** The current batch is recorded, so it is not empty. */
  lemma CurrentBatch(w: Writer)
    requires CountsOk(w.counts, w.channel, w.loop, w.sync) && BatchOf(w.loop) != [] && !w.loop.Collecting?
    ensures Last(w.counts.batches).requests == BatchOf(w.loop) && BatchOk(Last(w.counts.batches), w.sync)
  {
  }

  lemma FsyncKeeps(w: Writer, step: Step)
    requires LoopOk(w.loop) && CountsOk(w.counts, w.channel, w.loop, w.sync) && IsFsync(w, step) && w.loop.batch != []
    ensures CountsOk(CountsNext(w, step), ChannelNext(w, step), LoopNext(w, step), w.sync)
  {
    CurrentBatch(w);
    UpdateKeeps(w, step, Last(w.counts.batches).(syncs := 1));
  }

  lemma AnswerKeeps(w: Writer, step: Step)
    requires LoopOk(w.loop) && CountsOk(w.counts, w.channel, w.loop, w.sync) && IsAnswer(w, step)
    ensures CountsOk(CountsNext(w, step), ChannelNext(w, step), LoopNext(w, step), w.sync)
  {
    CurrentBatch(w);
    UpdateKeeps(w, step, Last(w.counts.batches).(outcome := Known(w.loop.ok)));
  }

  lemma CountsKeep(w: Writer, step: Step)
    requires LoopOk(w.loop) && CountsOk(w.counts, w.channel, w.loop, w.sync)
    ensures CountsOk(CountsNext(w, step), ChannelNext(w, step), LoopNext(w, step), w.sync)
  {
    if IsSealed(w, step) {
      SealKeeps(w, step);
    } else if IsFsync(w, step) {
      FsyncKeeps(w, step);
    } else if IsAnswer(w, step) {
      AnswerKeeps(w, step);
    } else {
      SealedNext(w, step);
      CurrentStays(w, step);
    }
  }

  lemma NextKeeps(w: Writer, step: Step)
    requires Invariant(w)
    ensures Invariant(Next(w, step))
  {
    LoopKeeps(w, step);
    QueueKeeps(w, step);
    AnswersKeep(w, step);
    ReturnsKeep(w, step);
    LogKeeps(w, step);
    EncodedKeeps(w, step);
    CountsKeep(w, step);
    if w.sync {
      CommittedKeeps(w, step);
      AcksKeepDurable(w, step);
    }
  }

  lemma {:induction false} RunKeeps(sync: bool, steps: seq<Step>)
    ensures Invariant(Run(sync, steps)) && Run(sync, steps).sync == sync
  {
    if steps != [] {
      RunKeeps(sync, steps[..|steps| - 1]);
      NextKeeps(Run(sync, steps[..|steps| - 1]), steps[|steps| - 1]);
    }
  }

  // ---------- what it means ----------

  predicate ReturnedNil(w: Writer, t: nat) { t in w.replies.returned && w.replies.returned[t] == Acked(true) }

  lemma NilIsDurable(w: Writer, t: nat)
    requires Invariant(w) && w.sync && ReturnedNil(w, t)
    ensures t < |w.channel.sent| && Durable(w.disk, w.channel.sent[t])
  {
    AnswersWithin(w.channel, w.loop);
  }

  /** The state after one more step. */
  lemma RunSnoc(sync: bool, steps: seq<Step>, step: Step)
    ensures Run(sync, steps + [step]) == Next(Run(sync, steps), step)
  {
    assert (steps + [step])[..|steps|] == steps;
  }

  /** What is on disk at some moment of a run is there at every later one. */
  lemma {:induction false} DurableLater(sync: bool, steps: seq<Step>, later: seq<Step>, q: Request)
    requires Durable(Run(sync, steps).disk, q)
    ensures Durable(Run(sync, steps + later).disk, q)
    decreases |later|
  {
    if later == [] {
      assert steps + later == steps;
    } else {
      var before, step := steps + later[..|later| - 1], later[|later| - 1];
      DurableLater(sync, steps, later[..|later| - 1], q);
      DurableSnoc(sync, before, step, q);
      assert steps + later == before + [step];
    }
  }

  lemma DurableSnoc(sync: bool, steps: seq<Step>, step: Step, q: Request)
    requires Durable(Run(sync, steps).disk, q)
    ensures Durable(Run(sync, steps + [step]).disk, q)
  {
    RunSnoc(sync, steps, step);
    DurableStays(Run(sync, steps), step, q);
  }

  /** In sync mode a write that returned nil is on disk at that moment and at every later one. */
  lemma NilMeansDurable(steps: seq<Step>, later: seq<Step>, t: nat)
    requires ReturnedNil(Run(true, steps), t)
    ensures t < |Run(true, steps).channel.sent|
    ensures Durable(Run(true, steps + later).disk, Run(true, steps).channel.sent[t])
  {
    RunKeeps(true, steps);
    NilIsDurable(Run(true, steps), t);
    DurableLater(true, steps, later, Run(true, steps).channel.sent[t]);
  }

  /** Entries appear in the order in which they were sent, each at most once. */
  lemma LogInQueueOrder(sync: bool, steps: seq<Step>, i: nat, j: nat)
    requires i < j < |Log(Run(sync, steps).disk)|
    ensures var w := Run(sync, steps); var a, b := Log(w.disk)[i], Log(w.disk)[j];
            a.ticket < b.ticket && IsSent(a, w.channel.sent) && IsSent(b, w.channel.sent)
  {
    RunKeeps(sync, steps);
  }

  /** An acknowledgement is sent only to a request that has none, so each is acknowledged at most once. */
  lemma AckedAtMostOnce(sync: bool, steps: seq<Step>)
    ensures var w := Run(sync, steps);
            w.loop.Acking? && w.loop.j < |w.loop.batch| ==> w.loop.batch[w.loop.j].ticket !in w.replies.acks
  {
    RunKeeps(sync, steps);
    var w := Run(sync, steps);
    if w.loop.Acking? && w.loop.j < |w.loop.batch| { NextAnswer(w.channel, w.loop); }
  }

  /** The batches hold 1 to 256 requests each and together exactly the received ones; each has at most one commit
      fsync, none outside sync mode and exactly one if its requests were told ok in sync mode. */
  lemma OneFsyncPerBatch(sync: bool, steps: seq<Step>, i: nat)
    requires i < |Run(sync, steps).counts.batches|
    ensures var w := Run(sync, steps); var b := w.counts.batches[i];
            && 1 <= |b.requests| <= 256 && b.syncs <= 1 && (!sync ==> b.syncs == 0)
            && (sync && b.outcome == Known(true) ==> b.syncs == 1)
            && w.counts.syncs == SyncSum(w.counts.batches)
            && (w.loop == Idle || w.loop == Stopped ==> Joined(w.counts.batches) + w.channel.queue == w.channel.sent)
  {
    RunKeeps(sync, steps);
  }

  ghost predicate HasTicket(b: Batch, t: nat) { exists k :: 0 <= k < |b.requests| && b.requests[k].ticket == t }

  /** Batch i holds the request and records what it was told. */
  ghost predicate TellsTicket(w: Writer, i: int, t: nat) {
    && 0 <= i < |w.counts.batches| && t in w.replies.acks
    && HasTicket(w.counts.batches[i], t) && w.counts.batches[i].outcome == Known(w.replies.acks[t])
  }

  lemma AckStays(w: Writer, step: Step, t: nat)
    requires QueueOk(w.channel, w.loop) && AnswersOk(w.replies.acks, Answered(w.channel, w.loop)) && t in w.replies.acks
    ensures t in RepliesNext(w, step).acks && RepliesNext(w, step).acks[t] == w.replies.acks[t]
  {
    if IsAnswer(w, step) { NextAnswer(w.channel, w.loop); }
  }

  lemma TellsStays(w: Writer, step: Step, i: int, t: nat)
    requires Invariant(w) && TellsTicket(w, i, t)
    ensures TellsTicket(Next(w, step), i, t)
  {
    AckStays(w, step, t);
    var n, m := w.counts.batches, CountsNext(w, step).batches;
    assert m[i].requests == n[i].requests && m[i].outcome == n[i].outcome;
  }

  /** The request being answered is in the current batch. */
  lemma TellsNew(w: Writer, step: Step, t: nat)
    requires Invariant(w) && t !in w.replies.acks && t in RepliesNext(w, step).acks
    ensures TellsTicket(Next(w, step), |w.counts.batches| - 1, t)
  {
    CurrentBatch(w);
    var b := Last(CountsNext(w, step).batches);
    assert b.requests[w.loop.j].ticket == t;
    assert HasTicket(b, t);
  }

  /** Every acknowledged request is in a batch that records the same answer. */
  lemma {:induction false} AckIsOfBatch(sync: bool, steps: seq<Step>, t: nat)
    requires t in Run(sync, steps).replies.acks
    ensures exists i :: TellsTicket(Run(sync, steps), i, t)
  {
    var init, step := steps[..|steps| - 1], steps[|steps| - 1];
    var w := Run(sync, init);
    RunKeeps(sync, init);
    if t in w.replies.acks {
      AckIsOfBatch(sync, init, t);
      var i :| TellsTicket(w, i, t);
      TellsStays(w, step, i, t);
    } else {
      TellsNew(w, step, t);
    }
  }

  /** In sync mode a request is told nil only in a batch of at most 256 that made exactly one commit fsync. */
  lemma NilCostsOneFsync(steps: seq<Step>, t: nat)
    requires t in Run(true, steps).replies.acks && Run(true, steps).replies.acks[t]
    ensures exists b :: b in Run(true, steps).counts.batches && HasTicket(b, t) && |b.requests| <= MAX_BATCH
              && b.syncs == 1
  {
    AckIsOfBatch(true, steps, t);
    var i :| TellsTicket(Run(true, steps), i, t);
    OneFsyncPerBatch(true, steps, i);
  }

  /** No encode, fsync or rotation fails. */
  predicate IsFailure(step: Step) {
    match step
    case Encode(ok) => !ok
    case Fsync(ok) => !ok
    case Rotate(_, reopened) => !reopened
    case _ => false
  }

  predicate NoneFailed(steps: seq<Step>) {
    steps == [] || (!IsFailure(steps[|steps| - 1]) && NoneFailed(steps[..|steps| - 1]))
  }

  /** The file is open until the goroutine stops, and no error is known. */
  predicate IsHealthy(w: Writer) {
    && (w.loop == Stopped || w.disk.isOpen) && (w.loop.Acking? ==> w.loop.ok)
    && forall t :: t in w.replies.acks ==> w.replies.acks[t]
  }

  lemma StaysHealthy(w: Writer, step: Step)
    requires IsHealthy(w) && !IsFailure(step)
    ensures IsHealthy(Next(w, step))
  {
  }

  /** If nothing fails, every acknowledgement is nil. */
  lemma {:induction false} AllToldNil(sync: bool, steps: seq<Step>)
    requires NoneFailed(steps)
    ensures IsHealthy(Run(sync, steps))
  {
    if steps != [] {
      AllToldNil(sync, steps[..|steps| - 1]);
      StaysHealthy(Run(sync, steps[..|steps| - 1]), steps[|steps| - 1]);
    }
  }

  predicate IsClosing(l: Loop) {
    match l
    case Encoding(_, _, c) => c
    case Rotating(_, c) => c
    case Acking(_, _, _, c) => c
    case _ => l == Draining || l == Stopped
  }

  /** The goroutine drains only after Close, and a write is told that the log is closed only after it stopped. */
  ghost predicate IsOrderly(w: Writer) {
    && (IsClosing(w.loop) ==> w.quit)
    && forall t :: t in w.replies.returned && w.replies.returned[t] == ErrClosed ==> w.loop == Stopped
  }

  /** A batch is committed only once it is full or nothing is queued. */
  lemma SealedWhenDone(w: Writer, step: Step)
    requires LoopOk(w.loop) && IsSealed(w, step)
    ensures w.loop == Draining || (w.loop.Collecting? && (|w.loop.batch| == 256 || w.channel.queue == []))
  {
  }

  lemma {:induction false} StaysOrderly(sync: bool, steps: seq<Step>)
    ensures IsOrderly(Run(sync, steps))
  {
    if steps != [] { StaysOrderly(sync, steps[..|steps| - 1]); }
  }

  /** When the goroutine stops, every received request has been answered. */
  lemma StoppedAnswersAll(sync: bool, steps: seq<Step>, t: nat)
    requires Run(sync, steps).loop == Stopped && t < |Run(sync, steps).channel.sent| - |Run(sync, steps).channel.queue|
    ensures t in Run(sync, steps).replies.acks
  {
    RunKeeps(sync, steps);
  }
}
