/**
 The event queue (internal/core/events.go) driving the event log, as a state machine. Each section
 under one lock is one step, so concurrent Flush and RecoverEvents calls interleave freely with each
 other and with everything else, and a crash may come between any two steps or inside Cleanup.
 */
module EventSystem {
  import opened Common
  import opened EventLog

  datatype Event = Event(id: string, payload: Payload)

  // ----- The queue as a value -----

  /** The record Track persists for an event. */
  function PendingRecord(e: Event): Record {
    Record(e.id, e.payload, Pending, 0)
  }

  function Revive(r: Record): Event {
    Event(r.id, r.payload)
  }

  function EventIds(events: seq<Event>): (ids: seq<string>)
    ensures |ids| == |events| && forall i :: 0 <= i < |ids| ==> ids[i] == events[i].id
  {
    seq(|events|, i requires 0 <= i < |events| => events[i].id)
  }

  function IdSet(events: seq<Event>): set<string> {
    set e | e in events :: e.id
  }

  /** RecoverEvents' loop: each recovered event goes to the front, until the queue is full. */
  function Prepend(queue: seq<Event>, recovered: seq<Record>, maxSize: nat): seq<Event>
    decreases |recovered|
  {
    if recovered == [] || |queue| >= maxSize then queue
    else Prepend([Revive(recovered[0])] + queue, recovered[1..], maxSize)
  }

  function Reversed(records: seq<Record>): (r: seq<Event>)
    ensures |r| == |records|
    ensures forall i :: 0 <= i < |r| ==> r[i] == Revive(records[|records| - 1 - i])
  {
    seq(|records|, i requires 0 <= i < |records| => Revive(records[|records| - 1 - i]))
  }

  lemma ReversedFirst(records: seq<Record>, n: nat, queue: seq<Event>)
    requires 1 <= n <= |records|
    ensures Reversed(records[1..][..n - 1]) + ([Revive(records[0])] + queue) == Reversed(records[..n]) + queue
  {
    var rest := records[1..][..n - 1];
    assert Reversed(records[..n]) == Reversed(rest) + [Revive(records[0])];
  }

  /** How many recovered events fit in the queue. */
  function Fitting(recovered: nat, queued: nat, maxSize: nat): nat {
    if queued < maxSize then Min(recovered, maxSize - queued) else 0
  }

  /** RecoverEvents puts as many recovered events as fit in front, last one first, and keeps the rest of the
      queue. */
  lemma {:induction false} PrependIsReversedPrefix(queue: seq<Event>, recovered: seq<Record>, maxSize: nat)
    ensures Prepend(queue, recovered, maxSize) ==
      Reversed(recovered[..Fitting(|recovered|, |queue|, maxSize)]) + queue
    decreases |recovered|
  {
    if recovered == [] || |queue| >= maxSize {
      assert Reversed(recovered[..0]) + queue == queue;
    } else {
      var head := [Revive(recovered[0])];
      PrependIsReversedPrefix(head + queue, recovered[1..], maxSize);
      ReversedFirst(recovered, Fitting(|recovered|, |queue|, maxSize), queue);
    }
  }

  /** What RecoverEvents does to the queue, event by event: each recovered record that fits gives an event
      with its id and payload, the first one last of them, and the queue there was follows. */
  predicate Recovers(queue: seq<Event>, recovered: seq<Record>, maxSize: nat, after: seq<Event>) {
    var n := Min(|recovered|, Max(maxSize - |queue|, 0));
    && |after| == n + |queue| && after[n..] == queue
    && forall i :: 0 <= i < n ==>
         after[n - 1 - i].id == recovered[i].id && after[n - 1 - i].payload == recovered[i].payload
  }

  lemma ReversedExact(records: seq<Record>, queue: seq<Event>)
    ensures var n, after := |records|, Reversed(records) + queue;
      && |after| == n + |queue| && after[n..] == queue
      && forall i :: 0 <= i < n ==>
           after[n - 1 - i].id == records[i].id && after[n - 1 - i].payload == records[i].payload
  {
    var n, after := |records|, Reversed(records) + queue;
    forall i | 0 <= i < n
      ensures after[n - 1 - i].id == records[i].id && after[n - 1 - i].payload == records[i].payload
    {
      assert after[n - 1 - i] == Reversed(records)[n - 1 - i];
    }
  }

  lemma PrependExact(queue: seq<Event>, recovered: seq<Record>, maxSize: nat)
    ensures Recovers(queue, recovered, maxSize, Prepend(queue, recovered, maxSize))
  {
    var n := Fitting(|recovered|, |queue|, maxSize);
    PrependIsReversedPrefix(queue, recovered, maxSize);
    ReversedExact(recovered[..n], queue);
    assert n == Min(|recovered|, Max(maxSize - |queue|, 0));
    assert forall i :: 0 <= i < n ==> recovered[..n][i] == recovered[i];
  }

  // ----- The state machine -----

  /** `queueCap` is EventQueueConfig.MaxSize, `bufferSize` the persister's. */
  datatype Config = Config(queueCap: nat, bufferSize: nat)

  /** A batch that Flush took off the queue; `marked` once MarkSending was called for it. */
  datatype Batch = Batch(events: seq<Event>, marked: bool)

  /** `recovering` holds what RecoverEvents calls have read and not yet put in the queue. The last three
      fields observe the run: ids Track accepted, ids a sent or failed record was written for, and ids
      lost by a step, as Loss has it. */
  datatype System = System(
    store: Store, queue: seq<Event>, inflight: seq<Batch>, recovering: seq<seq<Record>>,
    accepted: set<string>, terminal: set<string>, lost: set<string>)

  const INIT := System(Store([], [], []), [], [], [], {}, {}, {})

  datatype Op =
    | Track(event: Event, io: FlushIO)
    | Take
    | Abandon(batch: nat)
    | SendStart(batch: nat, mark: MarkIO)
    | SendEnd(batch: nat, delivered: bool, sentAt: int, mark: MarkIO)
    | PersisterFlush(io: FlushIO)
    | RecoverRead(recovered: seq<Record>)
    | RecoverInsert(call: nat)
    | Compact(pending: seq<Record>, faults: Faults)
    | Crash
    | CrashInCleanup(pending: seq<Record>, faults: Faults, steps: nat)

  /** Which steps can come next: event ids are fresh and non-empty, batches and calls exist, and the
      lists that come from ranging over a map hold its entries in some order. */
  ghost predicate Enabled(sys: System, op: Op) {
    match op
    case Track(event, _) => event.id != "" && event.id !in sys.accepted
    case Abandon(b) => b < |sys.inflight| && !sys.inflight[b].marked
    case SendStart(b, _) => b < |sys.inflight| && !sys.inflight[b].marked
    case SendEnd(b, _, _, _) => b < |sys.inflight| && sys.inflight[b].marked
    case RecoverRead(recovered) => Enumerates(recovered, Recovered(sys.store.Log()))
    case RecoverInsert(call) => call < |sys.recovering|
    case Compact(pending, _) => Enumerates(pending, LiveOf(Replay(map[], sys.store.Log())))
    case CrashInCleanup(pending, _, _) => Enumerates(pending, LiveOf(Replay(map[], sys.store.Log())))
    case _ => true
  }

  ghost function Apply(cfg: Config, sys: System, op: Op): System
    requires Enabled(sys, op)
  {
    match op
    case Track(event, io) =>
      if |sys.queue| >= cfg.queueCap then sys
      else sys.(store := PersistStep(sys.store, PendingRecord(event), cfg.bufferSize, io),
                queue := sys.queue + [event], accepted := sys.accepted + {event.id})
    case Take =>
      if sys.queue == [] then sys
      else sys.(queue := [], inflight := sys.inflight + [Batch(sys.queue, false)])
    case Abandon(b) => sys.(inflight := RemoveAt(sys.inflight, b))
    case SendStart(b, mark) =>
      sys.(store := MarkStep(sys.store, EventIds(sys.inflight[b].events), Sending, 0, mark),
           inflight := sys.inflight[b := sys.inflight[b].(marked := true)])
    case SendEnd(b, delivered, sentAt, mark) =>
      var ids := EventIds(sys.inflight[b].events);
      sys.(store := MarkStep(sys.store, ids, if delivered then Sent else Failed, if delivered then sentAt else 0, mark),
           inflight := RemoveAt(sys.inflight, b),
           terminal := sys.terminal + if mark.MarkWrites? then KeptIds(ids, mark.dropped) else {})
    case PersisterFlush(io) => sys.(store := FlushStep(sys.store, io))
    case RecoverRead(recovered) => sys.(recovering := sys.recovering + [recovered])
    case RecoverInsert(call) =>
      sys.(queue := Prepend(sys.queue, sys.recovering[call], cfg.queueCap),
           recovering := RemoveAt(sys.recovering, call))
    case Compact(pending, faults) =>
      var after := CompactStep(sys.store, pending, faults);
      sys.(store := after, lost := sys.lost + Loss(sys, op))
    case Crash =>
      System(CrashStep(sys.store), [], [], [], sys.accepted, sys.terminal, sys.lost + Loss(sys, op))
    case CrashInCleanup(pending, faults, steps) =>
      var cut := CleanupCut(sys.store, pending, faults, steps);
      System(CrashStep(cut), [], [], [], sys.accepted, sys.terminal, sys.lost + Loss(sys, op))
  }

  function RecoverableIds(sys: System): set<string> {
    Recovered(sys.store.Log()).Keys
  }

  /** The ids of events still to be sent: not yet written, or recoverable. */
  function Waiting(sys: System): set<string> {
    Ids(sys.store.buffer) + RecoverableIds(sys)
  }

  function Steps(sys: System, op: Op): nat
    requires op.Compact? || op.CrashInCleanup?
  {
    if op.Compact? then |sys.store.older| + 1 + |op.pending| else op.steps
  }

  /** The ids a step loses: in a crash those only the buffer has; in Cleanup those that do not survive it,
      the buffer being lost only if it crashes too. */
  function Loss(sys: System, op: Op): set<string> {
    match op
    case Crash => Ids(sys.store.buffer) - RecoverableIds(sys)
    case Compact(pending, faults) =>
      RecoverableIds(sys) - Ids(sys.store.buffer) - Survivors(sys.store, pending, faults, Steps(sys, op))
    case CrashInCleanup(pending, faults, steps) =>
      Waiting(sys) - Survivors(sys.store, pending, faults, steps)
    case _ => {}
  }

  ghost predicate Run(cfg: Config, from: System, ops: seq<Op>, to: System)
    decreases |ops|
  {
    if ops == [] then from == to
    else Enabled(from, ops[0]) && Run(cfg, Apply(cfg, from, ops[0]), ops[1..], to)
  }

  // ----- Durability -----

  /** The ids in memory: queued, in a batch, or read by a RecoverEvents call under way. */
  function HeldIds(sys: System): set<string> {
    IdSet(sys.queue) + BatchIds(sys) + RecoveringIds(sys)
  }

  function BatchIds(sys: System): set<string> {
    set b, e | b in sys.inflight && e in b.events :: e.id
  }

  function RecoveringIds(sys: System): set<string> {
    set records, r | records in sys.recovering && r in records :: r.id
  }

  /** Every accepted id is buffered, recoverable, finished or counted as lost, and nothing else is known. */
  ghost predicate Durable(sys: System) {
    Accounted(sys) && HeldIds(sys) <= sys.accepted && Knows(sys.accepted, sys.store.Log())
  }

  /** Every line was written by this code, for an id in the set. */
  predicate Knows(ids: set<string>, log: seq<Line>) {
    forall line :: line in log ==> line.Entry? && line.rec.id in ids
  }

  /** A flush, complete or not, only adds the ids it wrote. */
  lemma FlushRecovers(s: Store, io: FlushIO)
    requires forall r :: r in s.buffer ==> r.id != "" && r.Live()
    ensures var before, after := Recovered(s.Log()).Keys, Recovered(FlushStep(s, io).Log()).Keys;
      && before <= after <= before + Ids(s.buffer)
      && after + Ids(FlushStep(s, io).buffer) == before + Ids(s.buffer)
      && Ids(FlushStep(s, io).buffer) <= Ids(s.buffer)
  {
    var written := s.buffer[..WrittenCount(s.buffer, io)];
    FlushLog(s, io);
    ReplayKeysOfEntries(written);
    assert Ids(written) <= Ids(s.buffer);
    assert Flushes(s.buffer, io) ==> written == s.buffer;
    forall id
      ensures id in Recovered(s.Log() + Entries(written)) <==> id in Ids(written) || id in Recovered(s.Log())
    {
      RecoveredAppend(s.Log(), Entries(written), id);
    }
  }

  lemma PersistRecovers(s: Store, event: Record, bufferSize: nat, io: FlushIO)
    requires forall r :: r in s.buffer ==> r.id != "" && r.Live()
    requires event.id != "" && event.Live()
    ensures var after := PersistStep(s, event, bufferSize, io);
      && Recovered(after.Log()).Keys + Ids(after.buffer) == Recovered(s.Log()).Keys + Ids(s.buffer) + {event.id}
      && (forall r :: r in after.buffer ==> r.id != "" && r.Live())
  {
    var added := s.(buffer := s.buffer + [event]);
    assert Ids(added.buffer) == Ids(s.buffer) + {event.id};
    FlushRecovers(added, io);
  }

  /** A status record that failed to be written changes nothing; one that was written decides its id. */
  lemma MarkRecovers(s: Store, ids: seq<string>, status: Status, sentAt: int, io: MarkIO)
    ensures var before, after := Recovered(s.Log()).Keys, Recovered(MarkStep(s, ids, status, sentAt, io).Log()).Keys;
      var kept := if io.MarkWrites? then KeptIds(ids, io.dropped) - {""} else {};
      after == if status.Pending? || status.Sending? then before + kept else before - kept
  {
    if io.MarkWrites? {
      forall id
        ensures id in Recovered(MarkStep(s, ids, status, sentAt, io).Log()) <==>
          if id in KeptIds(ids, io.dropped) && id != "" then status.Pending? || status.Sending?
          else id in Recovered(s.Log())
      {
        MarkDecides(s, ids, status, sentAt, io, id);
      }
      RecoveredKeyed(s.Log());
    }
  }

  lemma RecoveredKeyed(log: seq<Line>)
    ensures "" !in Recovered(log)
  {
    ReplayKeyed(log);
  }

  lemma InBatch(sys: System, b: nat)
    requires b < |sys.inflight|
    ensures IdSet(sys.inflight[b].events) <= BatchIds(sys)
    ensures forall id :: id in EventIds(sys.inflight[b].events) ==> id in BatchIds(sys)
  {
    assert sys.inflight[b] in sys.inflight;
  }

  lemma BatchStep(cfg: Config, sys: System, op: Op)
    requires Enabled(sys, op) && (op.Take? || op.Abandon? || op.SendStart? || op.SendEnd?)
    ensures var after := Apply(cfg, sys, op);
      IdSet(after.queue) + BatchIds(after) <= IdSet(sys.queue) + BatchIds(sys)
  {
    var after := Apply(cfg, sys, op);
    forall c | c in after.inflight
      ensures c.events == sys.queue || exists d :: d in sys.inflight && d.events == c.events
    {
      var i :| 0 <= i < |after.inflight| && after.inflight[i] == c;
      if op.SendStart? {
        assert sys.inflight[i] in sys.inflight && sys.inflight[i].events == c.events;
      }
    }
  }

  lemma RecoverStep(cfg: Config, sys: System, op: Op)
    requires Enabled(sys, op) && (op.RecoverRead? || op.RecoverInsert?)
    ensures var after := Apply(cfg, sys, op);
      IdSet(after.queue) + RecoveringIds(after) <=
        IdSet(sys.queue) + RecoveringIds(sys) + if op.RecoverRead? then RecoverableIds(sys) else {}
  {
    var after := Apply(cfg, sys, op);
    if op.RecoverRead? {
      assert forall records :: records in after.recovering ==> records in sys.recovering || records == op.recovered;
    } else {
      PrependIds(sys.queue, sys.recovering[op.call], cfg.queueCap);
      assert sys.recovering[op.call] in sys.recovering;
    }
  }

  /** What a step makes the memory hold. */
  lemma HeldStep(cfg: Config, sys: System, op: Op)
    requires Enabled(sys, op)
    ensures HeldIds(Apply(cfg, sys, op)) <= HeldIds(sys)
      + (if op.Track? && |sys.queue| < cfg.queueCap then {op.event.id} else {})
      + (if op.RecoverRead? then RecoverableIds(sys) else {})
  {
    if op.Track? {
      assert forall e :: e in sys.queue + [op.event] ==> e in sys.queue || e == op.event;
    } else if op.Take? || op.Abandon? || op.SendStart? || op.SendEnd? {
      BatchStep(cfg, sys, op);
    } else if op.RecoverRead? || op.RecoverInsert? {
      RecoverStep(cfg, sys, op);
    }
  }

  lemma {:induction false} PrependIds(queue: seq<Event>, recovered: seq<Record>, maxSize: nat)
    ensures IdSet(Prepend(queue, recovered, maxSize)) <= IdSet(queue) + Ids(recovered)
    decreases |recovered|
  {
    if recovered != [] && |queue| < maxSize {
      PrependIds([Revive(recovered[0])] + queue, recovered[1..], maxSize);
      assert recovered[0] in recovered;
    }
  }

  ghost predicate Accounted(sys: System) {
    && (forall r :: r in sys.store.buffer ==> r.id != "" && r.Live())
    && sys.accepted == sys.lost + Waiting(sys) + sys.terminal
  }

  /** Moving ids between the places that account for them keeps them accounted for. */
  lemma Rebalance(sys: System, after: System, moved: set<string>)
    requires Accounted(sys)
    requires forall r :: r in after.store.buffer ==> r.id != "" && r.Live()
    requires Waiting(sys) - moved <= Waiting(after) <= Waiting(sys) + moved
    requires after.accepted == sys.accepted + moved
    requires sys.lost <= after.lost <= sys.lost + moved && sys.terminal <= after.terminal <= sys.terminal + moved
    requires moved <= after.lost + after.terminal + Waiting(after)
    ensures Accounted(after)
  {
    assert sys.accepted == sys.lost + Waiting(sys) + sys.terminal;
    assert after.accepted == after.lost + Waiting(after) + after.terminal;
  }

  lemma SendAccounted(cfg: Config, sys: System, op: Op)
    requires Durable(sys) && Enabled(sys, op) && (op.SendStart? || op.SendEnd?)
    ensures Accounted(Apply(cfg, sys, op))
  {
    InBatch(sys, op.batch);
    var ids := EventIds(sys.inflight[op.batch].events);
    var kept := if op.mark.MarkWrites? then KeptIds(ids, op.mark.dropped) else {};
    RecoveredKeyed(sys.store.Log());
    assert kept <= sys.accepted;
    if op.SendStart? {
      MarkRecovers(sys.store, ids, Sending, 0, op.mark);
      Rebalance(sys, Apply(cfg, sys, op), kept - {""});
    } else {
      MarkRecovers(sys.store, ids,
                   if op.delivered then Sent else Failed, if op.delivered then op.sentAt else 0, op.mark);
      Rebalance(sys, Apply(cfg, sys, op), kept);
    }
  }

  lemma {:induction false} StatusLinesKnown(ids: seq<string>, status: Status, sentAt: int, dropped: set<nat>)
    ensures forall line :: line in StatusLines(ids, status, sentAt, dropped) ==> line.Entry? && line.rec.id in ids
  {
    if ids != [] {
      var last := |ids| - 1;
      StatusLinesKnown(ids[..last], status, sentAt, dropped);
      assert forall id :: id in ids[..last] ==> id in ids;
      assert ids[last] in ids;
    }
  }

  /** Only recorded ids are recoverable. */
  lemma KnownRecovered(ids: set<string>, log: seq<Line>)
    requires Knows(ids, log)
    ensures Recovered(log).Keys <= ids
  {
    forall id | id in Recovered(log)
      ensures id in ids
    {
      var i := LastForExists(log, id);
      if i == -1 {
        ReplayFrame(map[], log, id);
      } else {
        assert log[i] in log;
      }
    }
  }

  lemma KnowsAppend(ids: set<string>, a: seq<Line>, b: seq<Line>)
    ensures Knows(ids, a + b) <==> Knows(ids, a) && Knows(ids, b)
  {
    assert forall line :: line in a + b <==> line in a || line in b;
  }

  lemma FilesKnown(s: Store, faults: Faults, steps: nat, ids: set<string>)
    requires Knows(ids, s.Log())
    ensures Knows(ids, LeftOver(s, faults, steps)) && Knows(ids, Untouched(s, steps))
  {
    StoreSplit(s, steps);
    KnowsAppend(ids, Touched(s, steps), Untouched(s, steps));
    PickedLines((s.older + [s.current])[..Min(steps, |s.older| + 1)], faults.stuck);
  }

  lemma RewrittenKnown(log: seq<Line>, pending: seq<Record>, faults: Faults, attempts: nat, ids: set<string>)
    requires Knows(ids, log) && Enumerates(pending, LiveOf(Replay(map[], log)))
    ensures Knows(ids, Entries(Rewritten(pending, faults, attempts)))
  {
    RewrittenRecovered(log, pending, faults, attempts);
    KnownRecovered(ids, log);
    PendingIds(log, pending);
    assert forall r :: r in pending ==> r.id in Ids(pending);
  }

  lemma CleanupKnows(s: Store, pending: seq<Record>, faults: Faults, steps: nat, ids: set<string>)
    requires Knows(ids, s.Log()) && Enumerates(pending, LiveOf(Replay(map[], s.Log())))
    ensures Knows(ids, CleanupCut(s, pending, faults, steps).Log())
    ensures Recovered(CleanupCut(s, pending, faults, steps).Log()).Keys <= ids
  {
    CleanupCutLog(s, pending, faults, steps);
    FilesKnown(s, faults, steps, ids);
    if steps <= |s.older| {
      KnowsAppend(ids, LeftOver(s, faults, steps), Untouched(s, steps));
    } else {
      var records := Rewritten(pending, faults, steps - |s.older| - 1);
      RewrittenKnown(s.Log(), pending, faults, steps - |s.older| - 1, ids);
      KnowsAppend(ids, LeftOver(s, faults, steps), Entries(records));
    }
    KnownRecovered(ids, CleanupCut(s, pending, faults, steps).Log());
  }

  lemma CrashWaiting(cfg: Config, sys: System)
    ensures Waiting(Apply(cfg, sys, Crash)) == RecoverableIds(sys)
  {
    CrashKeepsLog(sys.store);
    assert Ids([]) == {};
  }

  lemma CrashAccounted(cfg: Config, sys: System)
    requires Durable(sys)
    ensures Accounted(Apply(cfg, sys, Crash))
  {
    CrashWaiting(cfg, sys);
    Rebalance(sys, Apply(cfg, sys, Crash), Ids(sys.store.buffer));
  }

  lemma CompactWaiting(cfg: Config, sys: System, op: Op)
    requires Durable(sys) && Enabled(sys, op) && op.Compact?
    ensures Waiting(Apply(cfg, sys, op)) ==
      Ids(sys.store.buffer) + Survivors(sys.store, op.pending, op.faults, Steps(sys, op))
  {
    var after := Apply(cfg, sys, op);
    assert after.store == CompactStep(sys.store, op.pending, op.faults);
    CleanupSurvivors(sys.store, op.pending, op.faults, Steps(sys, op));
    assert RecoverableIds(after) == Survivors(sys.store, op.pending, op.faults, Steps(sys, op));
  }

  lemma CutWaiting(cfg: Config, sys: System, op: Op)
    requires Durable(sys) && Enabled(sys, op) && op.CrashInCleanup?
    ensures Waiting(Apply(cfg, sys, op)) == Survivors(sys.store, op.pending, op.faults, op.steps)
  {
    var cut := CleanupCut(sys.store, op.pending, op.faults, op.steps);
    CleanupSurvivors(sys.store, op.pending, op.faults, op.steps);
    CrashKeepsLog(cut);
    assert RecoverableIds(Apply(cfg, sys, op)) == Recovered(cut.Log()).Keys;
    assert Ids([]) == {};
  }

  /** What a Cleanup, crashing or not, leaves waiting. */
  lemma CleanupWaiting(cfg: Config, sys: System, op: Op)
    requires Durable(sys) && Enabled(sys, op) && (op.Compact? || op.CrashInCleanup?)
    ensures Waiting(Apply(cfg, sys, op)) == Survivors(sys.store, op.pending, op.faults, Steps(sys, op))
      + if op.Compact? then Ids(sys.store.buffer) else {}
  {
    if op.Compact? {
      CompactWaiting(cfg, sys, op);
    } else {
      CutWaiting(cfg, sys, op);
    }
  }

  lemma CleanupKnown(cfg: Config, sys: System, op: Op)
    requires Durable(sys) && Enabled(sys, op) && (op.Compact? || op.CrashInCleanup?)
    ensures Knows(sys.accepted, Apply(cfg, sys, op).store.Log())
    ensures Survivors(sys.store, op.pending, op.faults, Steps(sys, op)) <= sys.accepted
  {
    CleanupKnows(sys.store, op.pending, op.faults, Steps(sys, op), sys.accepted);
    CleanupSurvivors(sys.store, op.pending, op.faults, Steps(sys, op));
    CrashKeepsLog(CleanupCut(sys.store, op.pending, op.faults, Steps(sys, op)));
  }

  lemma CleanupAccounted(cfg: Config, sys: System, op: Op)
    requires Durable(sys) && Enabled(sys, op) && (op.Compact? || op.CrashInCleanup?)
    ensures Accounted(Apply(cfg, sys, op))
  {
    CleanupWaiting(cfg, sys, op);
    CleanupKnown(cfg, sys, op);
    var back := Survivors(sys.store, op.pending, op.faults, Steps(sys, op)) - RecoverableIds(sys);
    Rebalance(sys, Apply(cfg, sys, op), Loss(sys, op) + back);
  }

  lemma TrackAccounted(cfg: Config, sys: System, op: Op)
    requires Durable(sys) && Enabled(sys, op) && op.Track?
    ensures Accounted(Apply(cfg, sys, op))
  {
    if |sys.queue| < cfg.queueCap {
      PersistRecovers(sys.store, PendingRecord(op.event), cfg.bufferSize, op.io);
      Rebalance(sys, Apply(cfg, sys, op), {op.event.id});
    }
  }

  lemma FlushAccounted(cfg: Config, sys: System, op: Op)
    requires Durable(sys) && Enabled(sys, op) && op.PersisterFlush?
    ensures Accounted(Apply(cfg, sys, op))
  {
    FlushRecovers(sys.store, op.io);
    Rebalance(sys, Apply(cfg, sys, op), {});
  }

  lemma AccountedStep(cfg: Config, sys: System, op: Op)
    requires Durable(sys) && Enabled(sys, op)
    ensures Accounted(Apply(cfg, sys, op))
  {
    if op.Track? {
      TrackAccounted(cfg, sys, op);
    } else if op.SendStart? || op.SendEnd? {
      SendAccounted(cfg, sys, op);
    } else if op.PersisterFlush? {
      FlushAccounted(cfg, sys, op);
    } else if op.Crash? {
      CrashAccounted(cfg, sys);
    } else if op.Compact? || op.CrashInCleanup? {
      CleanupAccounted(cfg, sys, op);
    }
  }

  lemma FlushKnows(s: Store, io: FlushIO, ids: set<string>)
    requires Knows(ids, s.Log()) && Ids(s.buffer) <= ids
    ensures Knows(ids, FlushStep(s, io).Log())
  {
    FlushLog(s, io);
    assert forall r :: r in s.buffer ==> r.id in Ids(s.buffer);
  }

  lemma KnownStep(cfg: Config, sys: System, op: Op)
    requires Durable(sys) && Enabled(sys, op)
    ensures Knows(Apply(cfg, sys, op).accepted, Apply(cfg, sys, op).store.Log())
  {
    if op.Track? && |sys.queue| < cfg.queueCap {
      var added := sys.store.(buffer := sys.store.buffer + [PendingRecord(op.event)]);
      assert Ids(added.buffer) == Ids(sys.store.buffer) + {op.event.id};
      FlushKnows(added, op.io, sys.accepted + {op.event.id});
    } else if op.SendStart? && op.mark.MarkWrites? {
      MarkKnows(sys, op, Sending, 0);
    } else if op.SendEnd? && op.mark.MarkWrites? {
      MarkKnows(sys, op, if op.delivered then Sent else Failed, if op.delivered then op.sentAt else 0);
    } else if op.PersisterFlush? {
      FlushKnows(sys.store, op.io, sys.accepted);
    } else if op.Compact? || op.CrashInCleanup? {
      CleanupKnown(cfg, sys, op);
    } else if op.Crash? {
      CrashKeepsLog(sys.store);
    }
  }

  lemma MarkKnows(sys: System, op: Op, status: Status, sentAt: int)
    requires Durable(sys) && Enabled(sys, op) && (op.SendStart? || op.SendEnd?) && op.mark.MarkWrites?
    ensures var ids := EventIds(sys.inflight[op.batch].events);
      Knows(sys.accepted, MarkStep(sys.store, ids, status, sentAt, op.mark).Log())
  {
    var ids := EventIds(sys.inflight[op.batch].events);
    InBatch(sys, op.batch);
    StatusLinesKnown(ids, status, sentAt, op.mark.dropped);
    AppendedLog(sys.store, StatusLines(ids, status, sentAt, op.mark.dropped));
  }

  /** No step of any component, and no crash, breaks durability, whatever the file operations do. */
  lemma DurableStep(cfg: Config, sys: System, op: Op)
    requires Durable(sys) && Enabled(sys, op)
    ensures Durable(Apply(cfg, sys, op))
  {
    AccountedStep(cfg, sys, op);
    KnownStep(cfg, sys, op);
    HeldStep(cfg, sys, op);
  }

  lemma {:induction false} DurableRun(cfg: Config, from: System, ops: seq<Op>, to: System)
    requires Durable(from) && Run(cfg, from, ops, to)
    ensures Durable(to)
    decreases |ops|
  {
    if ops != [] {
      DurableStep(cfg, from, ops[0]);
      DurableRun(cfg, Apply(cfg, from, ops[0]), ops[1..], to);
    }
  }

  lemma InitDurable()
    ensures Durable(INIT)
  {
    assert INIT.store.Log() == [];
  }

  // ----- What is lost -----

  /** The waiting ids whose sent or failed record a SendEnd writes and which are not buffered any more. */
  function FinishedBy(sys: System, op: Op): set<string>
    requires op.SendEnd? && op.batch < |sys.inflight|
  {
    var ids := EventIds(sys.inflight[op.batch].events);
    if op.mark.MarkWrites? then RecoverableIds(sys) * KeptIds(ids, op.mark.dropped) - Ids(sys.store.buffer) else {}
  }

  lemma SendWaiting(cfg: Config, sys: System, op: Op)
    requires Enabled(sys, op) && (op.SendStart? || op.SendEnd?)
    ensures Waiting(sys) - Waiting(Apply(cfg, sys, op)) == if op.SendEnd? then FinishedBy(sys, op) else {}
  {
    var ids := EventIds(sys.inflight[op.batch].events);
    RecoveredKeyed(sys.store.Log());
    if op.SendStart? {
      MarkRecovers(sys.store, ids, Sending, 0, op.mark);
    } else {
      MarkRecovers(sys.store, ids,
                   if op.delivered then Sent else Failed, if op.delivered then op.sentAt else 0, op.mark);
    }
  }

  lemma StoreWaiting(cfg: Config, sys: System, op: Op)
    requires Durable(sys) && Enabled(sys, op) && (op.Track? || op.PersisterFlush? || op.Crash?)
    ensures Waiting(sys) - Waiting(Apply(cfg, sys, op)) == Loss(sys, op)
  {
    if op.Crash? {
      CrashWaiting(cfg, sys);
    } else if op.PersisterFlush? {
      FlushRecovers(sys.store, op.io);
    } else if |sys.queue| < cfg.queueCap {
      PersistRecovers(sys.store, PendingRecord(op.event), cfg.bufferSize, op.io);
    }
  }

  lemma WaitingStep(cfg: Config, sys: System, op: Op)
    requires Durable(sys) && Enabled(sys, op)
    ensures Waiting(sys) - Waiting(Apply(cfg, sys, op)) == if op.SendEnd? then FinishedBy(sys, op) else Loss(sys, op)
  {
    if op.SendStart? || op.SendEnd? {
      SendWaiting(cfg, sys, op);
    } else if op.Track? || op.PersisterFlush? || op.Crash? {
      StoreWaiting(cfg, sys, op);
    } else if op.Compact? || op.CrashInCleanup? {
      CleanupWaiting(cfg, sys, op);
    } else {
      assert Apply(cfg, sys, op).store == sys.store;
    }
  }

  lemma LostStep(cfg: Config, sys: System, op: Op)
    requires Enabled(sys, op)
    ensures Apply(cfg, sys, op).lost == sys.lost + Loss(sys, op)
  {
    assert sys.lost + {} == sys.lost;
  }

  /** The ids a step adds to the lost ones are exactly those that were waiting and no longer are; only a
      written sent or failed record ends the wait otherwise. */
  lemma LossExact(cfg: Config, sys: System, op: Op)
    requires Durable(sys) && Enabled(sys, op)
    ensures Apply(cfg, sys, op).lost == sys.lost + Loss(sys, op)
    ensures Waiting(sys) - Waiting(Apply(cfg, sys, op)) == if op.SendEnd? then FinishedBy(sys, op) else Loss(sys, op)
  {
    WaitingStep(cfg, sys, op);
    LostStep(cfg, sys, op);
  }

  lemma AllSurvive(s: Store, pending: seq<Record>, faults: Faults)
    requires Enumerates(pending, LiveOf(Replay(map[], s.Log()))) && faults.creates && faults.dropped == {}
    ensures Recovered(s.Log()).Keys <= Survivors(s, pending, faults, |s.older| + 1 + |pending|)
  {
    AllWritten(pending, faults);
    PendingIds(s.Log(), pending);
  }

  /** A Cleanup that creates its file and writes every live record loses nothing, whatever files stay. */
  lemma CompactLosesNothing(cfg: Config, sys: System, op: Op)
    requires Durable(sys) && Enabled(sys, op) && op.Compact? && WritesAll(op)
    ensures Apply(cfg, sys, op).lost == sys.lost
    ensures Waiting(sys) <= Waiting(Apply(cfg, sys, op))
  {
    AllSurvive(sys.store, op.pending, op.faults);
    CleanupWaiting(cfg, sys, op);
  }

  predicate WritesAll(op: Op) {
    op.Compact? ==> op.faults.creates && op.faults.dropped == {}
  }

  /** The ids only the buffer had at the crashes of a run. */
  ghost function LostInCrashes(cfg: Config, from: System, ops: seq<Op>): set<string>
    decreases |ops|
  {
    if ops == [] || !Enabled(from, ops[0]) then {}
    else LostInCrash(from, ops[0]) + LostInCrashes(cfg, Apply(cfg, from, ops[0]), ops[1..])
  }

  function LostInCrash(sys: System, op: Op): set<string> {
    if op.Crash? then Ids(sys.store.buffer) - RecoverableIds(sys) else {}
  }

  function Crashes(ops: seq<Op>): nat {
    if ops == [] then 0 else (if ops[0].Crash? then 1 else 0) + Crashes(ops[1..])
  }

  lemma StepLosesInCrash(cfg: Config, sys: System, op: Op)
    requires Durable(sys) && Enabled(sys, op) && !op.CrashInCleanup? && WritesAll(op)
    ensures Apply(cfg, sys, op).lost == sys.lost + LostInCrash(sys, op)
  {
    if op.Compact? {
      CompactLosesNothing(cfg, sys, op);
    }
  }

  /** While no Cleanup crashes or fails to write, nothing is lost but unwritten events in crashes. */
  lemma {:induction false} LostOnlyInCrashes(cfg: Config, from: System, ops: seq<Op>, to: System)
    requires Durable(from) && Run(cfg, from, ops, to)
    requires forall op :: op in ops ==> !op.CrashInCleanup? && WritesAll(op)
    ensures to.lost == from.lost + LostInCrashes(cfg, from, ops)
    decreases |ops|
  {
    if ops != [] {
      var op, next := ops[0], Apply(cfg, from, ops[0]);
      assert op in ops;
      DurableStep(cfg, from, op);
      LostOnlyInCrashes(cfg, next, ops[1..], to);
      StepLosesInCrash(cfg, from, op);
    }
  }

  /** Durability: in every reachable state each accepted event is still buffered, is returned by Recover,
      has had a sent or failed record written, or was lost; and nothing unknown is held or recovered. If no
      Cleanup crashed or failed to write, the lost events are the unwritten ones at crashes. */
  lemma Durability(cfg: Config, ops: seq<Op>, sys: System)
    requires Run(cfg, INIT, ops, sys)
    ensures HeldIds(sys) <= sys.accepted
    ensures sys.accepted == sys.lost + Ids(sys.store.buffer) + Recovered(sys.store.Log()).Keys + sys.terminal
    ensures (forall op :: op in ops ==> !op.CrashInCleanup? && WritesAll(op)) ==>
      sys.lost == LostInCrashes(cfg, INIT, ops)
  {
    InitDurable();
    DurableRun(cfg, INIT, ops, sys);
    if forall op :: op in ops ==> !op.CrashInCleanup? && WritesAll(op) {
      LostOnlyInCrashes(cfg, INIT, ops, sys);
    }
  }

  lemma BufferStep(cfg: Config, sys: System, op: Op)
    requires |sys.store.buffer| < cfg.bufferSize && Enabled(sys, op) && (op.Track? ==> op.io.Done?)
    ensures |Apply(cfg, sys, op).store.buffer| < cfg.bufferSize
  {
  }

  /** With a persister whose flushes succeed, fewer than bufferSize events wait in the buffer, so a
      crash between steps loses fewer than bufferSize of them. */
  lemma {:induction false} BufferBound(cfg: Config, from: System, ops: seq<Op>, to: System)
    requires |from.store.buffer| < cfg.bufferSize && Run(cfg, from, ops, to)
    requires forall op :: op in ops && op.Track? ==> op.io.Done?
    ensures |to.store.buffer| < cfg.bufferSize
    ensures Apply(cfg, to, Crash).lost == to.lost + (Ids(to.store.buffer) - RecoverableIds(to))
    ensures |Ids(to.store.buffer)| < cfg.bufferSize
    decreases |ops|
  {
    if ops == [] {
      IdsBound(to.store.buffer);
    } else {
      assert ops[0] in ops;
      BufferStep(cfg, from, ops[0]);
      BufferBound(cfg, Apply(cfg, from, ops[0]), ops[1..], to);
    }
  }

  /** So many events for each crash of a run. */
  function PerCrash(ops: seq<Op>, each: nat): nat {
    if ops == [] then 0 else (if ops[0].Crash? then each else 0) + PerCrash(ops[1..], each)
  }

  lemma {:induction false} PerCrashProduct(ops: seq<Op>, each: nat)
    ensures PerCrash(ops, each) == Crashes(ops) * each
  {
    if ops != [] {
      PerCrashProduct(ops[1..], each);
      assert (1 + Crashes(ops[1..])) * each == each + Crashes(ops[1..]) * each;
    }
  }

  /** Over a whole run without failing flushes each crash loses at most bufferSize - 1 events. */
  lemma {:induction false} LossBound(cfg: Config, from: System, ops: seq<Op>)
    requires |from.store.buffer| < cfg.bufferSize
    requires forall op :: op in ops && op.Track? ==> op.io.Done?
    ensures |LostInCrashes(cfg, from, ops)| <= PerCrash(ops, cfg.bufferSize - 1)
    decreases |ops|
  {
    if ops != [] && Enabled(from, ops[0]) {
      var op, next := ops[0], Apply(cfg, from, ops[0]);
      assert op in ops;
      BufferStep(cfg, from, op);
      LossBound(cfg, next, ops[1..]);
      CrashLossSize(cfg, from, op);
      UnionSize(LostInCrash(from, op), LostInCrashes(cfg, next, ops[1..]));
    }
  }

  lemma CrashLossSize(cfg: Config, sys: System, op: Op)
    requires |sys.store.buffer| < cfg.bufferSize
    ensures |LostInCrash(sys, op)| <= if op.Crash? then cfg.bufferSize - 1 else 0
  {
    IdsBound(sys.store.buffer);
    SubsetSize(Ids(sys.store.buffer) - RecoverableIds(sys), Ids(sys.store.buffer));
  }

  lemma UnionSize<T>(a: set<T>, b: set<T>)
    ensures |a + b| <= |a| + |b|
  {
    assert |a + b| == |a| + |b| - |a * b|;
  }

  lemma SubsetSize<T>(part: set<T>, whole: set<T>)
    requires part <= whole
    ensures |part| <= |whole|
  {
    assert whole == part + (whole - part) && part !! (whole - part);
  }

  lemma {:induction false} IdsBound(records: seq<Record>)
    ensures |Ids(records)| <= |records|
  {
    if records != [] {
      var last := |records| - 1;
      IdsBound(records[..last]);
      assert records == records[..last] + [records[last]];
      assert Ids(records) == Ids(records[..last]) + {records[last].id};
    }
  }

  lemma {:induction false} RunMore(cfg: Config, from: System, ops: seq<Op>, mid: System, op: Op)
    requires Run(cfg, from, ops, mid) && Enabled(mid, op)
    ensures Run(cfg, from, ops + [op], Apply(cfg, mid, op))
    decreases |ops|
  {
    if ops == [] {
      assert ops + [op] == [op] && [op][1..] == [];
    } else {
      RunMore(cfg, Apply(cfg, from, ops[0]), ops[1..], mid, op);
      assert (ops + [op])[1..] == ops[1..] + [op];
    }
  }

  /** A sent event that comes back: it is tracked, taken, delivered and marked sent, all without an error,
      before the persister flushes. It is recoverable then unless tracking it filled the buffer. */
  lemma SentComesBack(cfg: Config, event: Event, sentAt: int) returns (ops: seq<Op>, to: System)
    requires event.id != "" && cfg.queueCap >= 1
    ensures Run(cfg, INIT, ops, to) && Take in ops && SendEnd(0, true, sentAt, MarkWrites({}, true)) in ops
    ensures event.id in to.terminal
    ensures event.id in Recovered(to.store.Log()) <==> cfg.bufferSize >= 2
  {
    var mark := MarkWrites({}, true);
    var tracked := Apply(cfg, INIT, Track(event, Done));
    assert [] + [PendingRecord(event)] == [PendingRecord(event)] && [] + [event] == [event];
    var taken := Apply(cfg, tracked, Take);
    var started := Apply(cfg, taken, SendStart(0, mark));
    var ended := Apply(cfg, started, SendEnd(0, true, sentAt, mark));
    to := Apply(cfg, ended, PersisterFlush(Done));
    RunMore(cfg, INIT, [], INIT, Track(event, Done));
    RunMore(cfg, INIT, [] + [Track(event, Done)], tracked, Take);
    RunMore(cfg, INIT, [] + [Track(event, Done)] + [Take], taken, SendStart(0, mark));
    ops := [] + [Track(event, Done)] + [Take] + [SendStart(0, mark)];
    RunMore(cfg, INIT, ops, started, SendEnd(0, true, sentAt, mark));
    ops := ops + [SendEnd(0, true, sentAt, mark)];
    RunMore(cfg, INIT, ops, ended, PersisterFlush(Done));
    ops := ops + [PersisterFlush(Done)];
    assert started.store.buffer == if cfg.bufferSize >= 2 then [PendingRecord(event)] else [];
    assert EventIds(started.inflight[0].events) == [event.id];
    SentAlone(started.store, event, sentAt);
  }

  lemma SentAlone(s: Store, event: Event, sentAt: int)
    requires event.id != "" && (s.buffer == [] || s.buffer == [PendingRecord(event)])
    ensures var after := FlushStep(MarkStep(s, [event.id], Sent, sentAt, MarkWrites({}, true)), Done);
      event.id in Recovered(after.Log()) <==> s.buffer != []
  {
    SentWhileBuffered(s, [event.id], sentAt, event.id);
    assert s.buffer != [] ==> LastFor(Entries(s.buffer), 0, event.id);
  }

  // ----- Status lines and finished ids -----

  /** The ids of sent and failed lines. */
  function FinalIds(lines: seq<Line>): set<string> {
    set line | line in lines && line.Entry? && (line.rec.status.Sent? || line.rec.status.Failed?) :: line.rec.id
  }

  lemma {:induction false} StatusLineIds(ids: seq<string>, status: Status, sentAt: int, dropped: set<nat>)
    requires status.Sent? || status.Failed?
    ensures var lines := StatusLines(ids, status, sentAt, dropped);
      && FinalIds(lines) == KeptIds(ids, dropped)
      && forall line :: line in lines ==>
           line.Entry? && line.rec == Record(line.rec.id, NO_PAYLOAD, status, sentAt)
  {
    if ids != [] {
      var last := |ids| - 1;
      var lines := StatusLines(ids[..last], status, sentAt, dropped);
      StatusLineIds(ids[..last], status, sentAt, dropped);
      KeptLast(ids, dropped);
      if last in dropped {
        assert lines + [] == lines;
      } else {
        assert FinalIds(lines + [StatusLine(ids[last], status, sentAt)]) == FinalIds(lines) + {ids[last]};
      }
    }
  }

  /** A batch that was delivered appends sent lines, one that was not failed lines, and just the ids with
      such a line become finished; no other step finishes any. */
  lemma FinishedAreWritten(cfg: Config, sys: System, op: Op)
    requires Enabled(sys, op)
    ensures !op.SendEnd? ==> Apply(cfg, sys, op).terminal == sys.terminal
    ensures op.SendEnd? ==>
      var before, after := sys.store.Log(), Apply(cfg, sys, op).store.Log();
      && before <= after && Apply(cfg, sys, op).terminal == sys.terminal + FinalIds(after[|before|..])
      && forall line :: line in after[|before|..] ==>
           && line.Entry? && line.rec.payload == NO_PAYLOAD
           && if op.delivered then line.rec.status == Sent && line.rec.sentAt == op.sentAt
              else line.rec.status == Failed && line.rec.sentAt == 0
  {
    if op.SendEnd? {
      var ids := EventIds(sys.inflight[op.batch].events);
      var before, after := sys.store.Log(), Apply(cfg, sys, op).store.Log();
      if op.mark.MarkWrites? {
        var status, at := if op.delivered then Sent else Failed, if op.delivered then op.sentAt else 0;
        var lines := StatusLines(ids, status, at, op.mark.dropped);
        StatusLineIds(ids, status, at, op.mark.dropped);
        AppendedLog(sys.store, lines);
        assert after == before + lines && after[|before|..] == lines;
      } else {
        assert after == before && after[|before|..] == [] && FinalIds([]) == {};
      }
    }
  }

  // ----- An event not sent yet comes back as it was tracked -----

  /** The whole record of the event is in a file. */
  predicate OnDisk(s: Store, e: Event) {
    Entry(Record(e.id, e.payload, Pending, 0)) in s.Log()
  }

  /** Whatever is written or buffered under the event's id is its whole record, and something is. */
  predicate Intact(s: Store, e: Event) {
    && (forall line :: line in s.Log() && line.Entry? && line.rec.id == e.id ==>
          line.rec == Record(e.id, e.payload, Pending, 0))
    && (forall r :: r in s.buffer && r.id == e.id ==> r == Record(e.id, e.payload, Pending, 0))
    && (Record(e.id, e.payload, Pending, 0) in s.buffer || OnDisk(s, e))
  }

  /** The step marks no batch with the event, and it is no crash before the event is on disk and no
      Cleanup that crashes or fails to write. */
  predicate Leaves(sys: System, op: Op, e: Event) {
    match op
    case SendStart(b, _) => b < |sys.inflight| ==> e.id !in EventIds(sys.inflight[b].events)
    case SendEnd(b, _, _, _) => b < |sys.inflight| ==> e.id !in EventIds(sys.inflight[b].events)
    case Compact(_, _) => WritesAll(op)
    case Crash => OnDisk(sys.store, e)
    case CrashInCleanup(_, _, _) => false
    case _ => true
  }

  ghost predicate LeavingRun(cfg: Config, from: System, ops: seq<Op>, to: System, e: Event)
    decreases |ops|
  {
    if ops == [] then from == to
    else
      && Enabled(from, ops[0]) && Leaves(from, ops[0], e)
      && LeavingRun(cfg, Apply(cfg, from, ops[0]), ops[1..], to, e)
  }

  lemma LastNaming(log: seq<Line>, id: string, k: nat) returns (i: nat)
    requires k < |log| && Names(log[k], id)
    ensures LastFor(log, i, id)
  {
    i := |log| - 1;
    while !Names(log[i], id)
      invariant k <= i < |log|
      invariant forall j :: i < j < |log| ==> !Names(log[j], id)
      decreases i
    {
      i := i - 1;
    }
  }

  /** What the log knows of the event. */
  lemma IntactReplay(s: Store, e: Event)
    requires Written(s.Log()) && Intact(s, e) && e.id != ""
    ensures var m := Replay(map[], s.Log());
      if OnDisk(s, e) then e.id in m && m[e.id] == Record(e.id, e.payload, Pending, 0) else e.id !in m
  {
    var log := s.Log();
    if OnDisk(s, e) {
      var k :| 0 <= k < |log| && log[k] == Entry(Record(e.id, e.payload, Pending, 0));
      var i := LastNaming(log, e.id, k);
      assert log[i] in log;
      ReplayFinal(map[], log, e.id, i, i);
    } else {
      forall i | 0 <= i < |log|
        ensures !Names(log[i], e.id)
      {
        assert log[i] in log;
      }
      ReplayFrame(map[], log, e.id);
    }
  }

  /** The files after some lines of other ids, or the event's own record, were appended. */
  lemma IntactAppend(s: Store, after: Store, e: Event, lines: seq<Line>)
    requires Intact(s, e) && after.Log() == s.Log() + lines
    requires forall line :: line in lines && line.Entry? && line.rec.id == e.id ==>
      line.rec == Record(e.id, e.payload, Pending, 0)
    requires forall r :: r in after.buffer && r.id == e.id ==> r == Record(e.id, e.payload, Pending, 0)
    requires Record(e.id, e.payload, Pending, 0) in s.buffer ==>
      Record(e.id, e.payload, Pending, 0) in after.buffer || Entry(Record(e.id, e.payload, Pending, 0)) in lines
    ensures Intact(after, e) && (OnDisk(s, e) ==> OnDisk(after, e))
  {
    assert forall line :: line in after.Log() <==> line in s.Log() || line in lines;
  }

  lemma IntactFlush(s: Store, io: FlushIO, e: Event)
    requires Intact(s, e)
    ensures Intact(FlushStep(s, io), e) && (OnDisk(s, e) ==> OnDisk(FlushStep(s, io), e))
  {
    var written := s.buffer[..WrittenCount(s.buffer, io)];
    FlushLog(s, io);
    assert forall r :: r in written ==> r in s.buffer;
    assert Flushes(s.buffer, io) ==> written == s.buffer;
    EntryIn(written, Record(e.id, e.payload, Pending, 0));
    IntactAppend(s, FlushStep(s, io), e, Entries(written));
  }

  /** Another record joins the buffer. */
  lemma IntactBuffer(s: Store, other: Record, e: Event)
    requires Intact(s, e) && other.id != e.id
    ensures Intact(s.(buffer := s.buffer + [other]), e)
    ensures OnDisk(s, e) ==> OnDisk(s.(buffer := s.buffer + [other]), e)
  {
    assert s.Log() + [] == s.Log();
    IntactAppend(s, s.(buffer := s.buffer + [other]), e, []);
  }

  lemma IntactMark(cfg: Config, sys: System, op: Op, e: Event)
    requires Intact(sys.store, e) && Enabled(sys, op) && Leaves(sys, op, e) && (op.SendStart? || op.SendEnd?)
    ensures Intact(Apply(cfg, sys, op).store, e) && (OnDisk(sys.store, e) ==> OnDisk(Apply(cfg, sys, op).store, e))
  {
    if op.mark.MarkWrites? {
      var ids := EventIds(sys.inflight[op.batch].events);
      var status := if op.SendStart? then Sending else if op.delivered then Sent else Failed;
      var at := if op.SendEnd? && op.delivered then op.sentAt else 0;
      var lines := StatusLines(ids, status, at, op.mark.dropped);
      StatusLinesKnown(ids, status, at, op.mark.dropped);
      AppendedLog(sys.store, lines);
      IntactAppend(sys.store, Apply(cfg, sys, op).store, e, lines);
    }
  }

  lemma CompactLog(s: Store, pending: seq<Record>, faults: Faults)
    requires faults.creates && faults.dropped == {}
    ensures var left := LeftOver(s, faults, |s.older| + 1 + |pending|);
      && CompactStep(s, pending, faults).Log() == left + Entries(pending)
      && forall line :: line in left ==> line in s.Log()
  {
    var steps := |s.older| + 1 + |pending|;
    CleanupCutLog(s, pending, faults, steps);
    StoreSplit(s, steps);
    PickedLines((s.older + [s.current])[..Min(steps, |s.older| + 1)], faults.stuck);
    assert Touched(s, steps) + [] == Touched(s, steps);
    PickedNothing(pending);
    assert pending[..|pending|] == pending;
  }

  lemma PendingIntact(s: Store, pending: seq<Record>, e: Event)
    requires Written(s.Log()) && Intact(s, e) && e.id != ""
    requires Enumerates(pending, LiveOf(Replay(map[], s.Log())))
    ensures forall x :: x in pending && x.id == e.id ==> x == Record(e.id, e.payload, Pending, 0)
    ensures OnDisk(s, e) ==> Record(e.id, e.payload, Pending, 0) in pending
  {
    IntactReplay(s, e);
    if OnDisk(s, e) {
      assert e.id in LiveOf(Replay(map[], s.Log()));
    }
  }

  lemma EntryIn(records: seq<Record>, r: Record)
    ensures r in records ==> Entry(r) in Entries(records)
  {
    if i :| 0 <= i < |records| && records[i] == r {
      assert Entries(records)[i] == Entry(r);
    }
  }

  lemma IntactRewrite(s: Store, after: Store, e: Event, left: seq<Line>, pending: seq<Record>)
    requires Intact(s, e) && after.buffer == s.buffer
    requires after.Log() == left + Entries(pending) && forall line :: line in left ==> line in s.Log()
    requires forall x :: x in pending && x.id == e.id ==> x == Record(e.id, e.payload, Pending, 0)
    requires OnDisk(s, e) ==> Record(e.id, e.payload, Pending, 0) in pending
    ensures Intact(after, e) && (OnDisk(s, e) ==> OnDisk(after, e))
  {
    EntryIn(pending, Record(e.id, e.payload, Pending, 0));
    assert forall line :: line in after.Log() <==> line in left || line in Entries(pending);
  }

  lemma IntactCompact(s: Store, pending: seq<Record>, faults: Faults, e: Event)
    requires Written(s.Log()) && Intact(s, e) && e.id != ""
    requires Enumerates(pending, LiveOf(Replay(map[], s.Log()))) && faults.creates && faults.dropped == {}
    ensures Intact(CompactStep(s, pending, faults), e)
    ensures OnDisk(s, e) ==> OnDisk(CompactStep(s, pending, faults), e)
  {
    PendingIntact(s, pending, e);
    CompactLog(s, pending, faults);
    IntactRewrite(s, CompactStep(s, pending, faults), e, LeftOver(s, faults, |s.older| + 1 + |pending|), pending);
  }

  lemma IntactStep(cfg: Config, sys: System, op: Op, e: Event)
    requires Durable(sys) && Intact(sys.store, e) && e.id in sys.accepted && e.id != ""
    requires Enabled(sys, op) && Leaves(sys, op, e)
    ensures Intact(Apply(cfg, sys, op).store, e) && (OnDisk(sys.store, e) ==> OnDisk(Apply(cfg, sys, op).store, e))
    ensures e.id in Apply(cfg, sys, op).accepted
  {
    if op.Track? && |sys.queue| < cfg.queueCap {
      TrackIntact(sys.store, PendingRecord(op.event), cfg.bufferSize, op.io, e);
    } else if op.SendStart? || op.SendEnd? {
      IntactMark(cfg, sys, op, e);
    } else if op.PersisterFlush? {
      IntactFlush(sys.store, op.io, e);
    } else if op.Compact? {
      IntactCompact(sys.store, op.pending, op.faults, e);
    } else if op.Crash? {
      CrashKeepsLog(sys.store);
    }
  }

  /** Tracking another event. */
  lemma TrackIntact(s: Store, other: Record, bufferSize: nat, io: FlushIO, e: Event)
    requires Intact(s, e) && other.id != e.id
    ensures Intact(PersistStep(s, other, bufferSize, io), e)
    ensures OnDisk(s, e) ==> OnDisk(PersistStep(s, other, bufferSize, io), e)
  {
    IntactBuffer(s, other, e);
    IntactFlush(s.(buffer := s.buffer + [other]), io, e);
  }

  lemma BufferedIntact(sys: System, e: Event)
    requires Durable(sys) && e.id !in sys.accepted
    ensures Intact(sys.store.(buffer := sys.store.buffer + [Record(e.id, e.payload, Pending, 0)]), e)
  {
    assert forall x :: x in sys.store.buffer ==> x.id in Ids(sys.store.buffer);
    assert forall line :: line in sys.store.Log() ==> line.rec.id != e.id;
  }

  /** Tracking an event leaves its whole record in the buffer or in a file. */
  lemma TrackedIntact(cfg: Config, sys: System, e: Event, io: FlushIO)
    requires Durable(sys) && Enabled(sys, Track(e, io)) && |sys.queue| < cfg.queueCap
    ensures Intact(Apply(cfg, sys, Track(e, io)).store, e)
  {
    BufferedIntact(sys, e);
    IntactFlush(sys.store.(buffer := sys.store.buffer + [Record(e.id, e.payload, Pending, 0)]), io, e);
  }

  lemma {:induction false} LeftIntact(cfg: Config, from: System, ops: seq<Op>, to: System, e: Event)
    requires Durable(from) && Intact(from.store, e) && e.id in from.accepted && e.id != ""
    requires LeavingRun(cfg, from, ops, to, e)
    ensures Durable(to) && Intact(to.store, e) && e.id in to.accepted
    decreases |ops|
  {
    if ops != [] {
      DurableStep(cfg, from, ops[0]);
      IntactStep(cfg, from, ops[0], e);
      LeftIntact(cfg, Apply(cfg, from, ops[0]), ops[1..], to, e);
    }
  }

  /** Flush, crash and recovery at the next start. */
  function Restart(sys: System, recovered: seq<Record>): seq<Op> {
    [PersisterFlush(Done), Crash, RecoverRead(recovered), RecoverInsert(0)]
  }

  lemma RunFirst(cfg: Config, from: System, op: Op, more: seq<Op>, to: System)
    requires Run(cfg, from, [op] + more, to)
    ensures Enabled(from, op) && Run(cfg, Apply(cfg, from, op), more, to)
  {
    assert ([op] + more)[1..] == more;
  }

  lemma RestartSteps(cfg: Config, sys: System, recovered: seq<Record>, to: System)
    requires Run(cfg, sys, Restart(sys, recovered), to)
    ensures var crashed := Apply(cfg, Apply(cfg, sys, PersisterFlush(Done)), Crash);
      && Enumerates(recovered, Recovered(crashed.store.Log()))
      && to.queue == Prepend([], recovered, cfg.queueCap)
  {
    var flush, insert: Op := PersisterFlush(Done), RecoverInsert(0);
    var read := RecoverRead(recovered);
    assert Restart(sys, recovered) == [flush] + ([Crash] + ([read] + ([insert] + [])));
    RunFirst(cfg, sys, flush, [Crash] + ([read] + ([insert] + [])), to);
    var flushed := Apply(cfg, sys, flush);
    RunFirst(cfg, flushed, Crash, [read] + ([insert] + []), to);
    var crashed := Apply(cfg, flushed, Crash);
    RunFirst(cfg, crashed, read, [insert] + [], to);
    RunFirst(cfg, Apply(cfg, crashed, read), insert, [], to);
    assert ([] + [recovered])[0] == recovered;
  }

  lemma RestartIntact(cfg: Config, sys: System, e: Event)
    requires Durable(sys) && Intact(sys.store, e) && e.id != "" && e.id in sys.accepted
    ensures var crashed := Apply(cfg, Apply(cfg, sys, PersisterFlush(Done)), Crash);
      && e.id in Recovered(crashed.store.Log())
      && Recovered(crashed.store.Log())[e.id] == Record(e.id, e.payload, Pending, 0)
  {
    var flushed := Apply(cfg, sys, PersisterFlush(Done));
    DurableStep(cfg, sys, PersisterFlush(Done));
    IntactFlush(sys.store, Done, e);
    FlushedOnDisk(cfg, sys, e);
    DurableStep(cfg, flushed, Crash);
    IntactStep(cfg, flushed, Crash, e);
    IntactReplay(Apply(cfg, flushed, Crash).store, e);
  }

  lemma InEither<T>(a: seq<T>, b: seq<T>, x: T)
    ensures x in a + b <==> x in a || x in b
  {
  }

  lemma FlushedOnDisk(cfg: Config, sys: System, e: Event)
    requires Intact(sys.store, e)
    ensures OnDisk(Apply(cfg, sys, PersisterFlush(Done)).store, e)
  {
    var r, buffer := Record(e.id, e.payload, Pending, 0), sys.store.buffer;
    FlushLog(sys.store, Done);
    assert buffer[..|buffer|] == buffer;
    EntryIn(buffer, r);
    InEither(sys.store.Log(), Entries(buffer), Entry(r));
  }

  lemma QueuedAgain(recovered: seq<Record>, maxSize: nat, e: Event)
    requires Record(e.id, e.payload, Pending, 0) in recovered && |recovered| <= maxSize
    ensures e in Prepend([], recovered, maxSize)
  {
    PrependExact([], recovered, maxSize);
    var i :| 0 <= i < |recovered| && recovered[i] == Record(e.id, e.payload, Pending, 0);
    assert Prepend([], recovered, maxSize)[|recovered| - 1 - i] == e;
  }

  /** An event that was tracked at any time comes back as the same event: whatever happens until the process
      crashes, as long as no batch with it is marked and no Cleanup crashes or fails to write, the
      next start queues it again with its type, data, context and timestamp, if the queue has room. */
  lemma ComesBackAsTracked(cfg: Config, ops: seq<Op>, sys: System, e: Event, io: FlushIO, later: seq<Op>,
                           before: System, recovered: seq<Record>, to: System)
    requires Run(cfg, INIT, ops, sys)
    requires Enabled(sys, Track(e, io)) && |sys.queue| < cfg.queueCap
    requires LeavingRun(cfg, Apply(cfg, sys, Track(e, io)), later, before, e)
    requires Run(cfg, before, Restart(before, recovered), to) && |recovered| <= cfg.queueCap
    ensures e in to.queue
  {
    InitDurable();
    DurableRun(cfg, INIT, ops, sys);
    DurableStep(cfg, sys, Track(e, io));
    TrackedIntact(cfg, sys, e, io);
    LeftIntact(cfg, Apply(cfg, sys, Track(e, io)), later, before, e);
    RestartSteps(cfg, before, recovered, to);
    RestartIntact(cfg, before, e);
    QueuedAgain(recovered, cfg.queueCap, e);
  }

  // ----- A finished event is never sent again -----

  /** Nothing will ever bring this id back: it is in no buffer, log, queue or batch. */
  ghost predicate Gone(sys: System, id: string) {
    && id in sys.accepted
    && id !in Ids(sys.store.buffer)
    && id !in Recovered(sys.store.Log())
    && id !in HeldIds(sys)
  }

  /** A Cleanup brings the id back: the files it leaves behind make it recoverable on their own, and no
      file it did not come to mentions it. */
  predicate Returns(s: Store, faults: Faults, steps: nat, id: string) {
    id in Recovered(LeftOver(s, faults, steps)) && !Mentions(Untouched(s, steps), id)
  }

  predicate Spares(sys: System, op: Op, id: string) {
    match op
    case Compact(_, faults) => !Returns(sys.store, faults, Steps(sys, op), id)
    case CrashInCleanup(_, faults, steps) => !Returns(sys.store, faults, steps, id)
    case _ => true
  }

  /** Only a file that cannot be removed can bring an id back. */
  lemma UnstuckSpares(sys: System, op: Op, id: string)
    requires (op.Compact? || op.CrashInCleanup?) && op.faults.stuck == {}
    ensures Spares(sys, op, id)
  {
    UnstuckLog(sys.store, op.pending, op.faults, Steps(sys, op));
  }

  lemma CleanupGone(s: Store, pending: seq<Record>, faults: Faults, steps: nat, id: string)
    requires Written(s.Log()) && Enumerates(pending, LiveOf(Replay(map[], s.Log()))) && id !in Recovered(s.Log())
    ensures id in Recovered(CleanupCut(s, pending, faults, steps).Log()) <==> Returns(s, faults, steps, id)
  {
    SurvivesCut(s, pending, faults, steps, id);
    if steps > |s.older| {
      RewrittenRecovered(s.Log(), pending, faults, steps - |s.older| - 1);
      PendingIds(s.Log(), pending);
    }
  }

  /** An id stays gone through a step exactly when the step is no Cleanup that brings it back. */
  lemma GoneStep(cfg: Config, sys: System, op: Op, id: string)
    requires Durable(sys) && Gone(sys, id) && Enabled(sys, op)
    ensures Gone(Apply(cfg, sys, op), id) <==> Spares(sys, op, id)
  {
    HeldStep(cfg, sys, op);
    if op.Track? && |sys.queue| < cfg.queueCap {
      PersistRecovers(sys.store, PendingRecord(op.event), cfg.bufferSize, op.io);
    } else if op.SendStart? {
      InBatch(sys, op.batch);
      MarkRecovers(sys.store, EventIds(sys.inflight[op.batch].events), Sending, 0, op.mark);
    } else if op.SendEnd? {
      MarkRecovers(sys.store, EventIds(sys.inflight[op.batch].events),
                   if op.delivered then Sent else Failed, if op.delivered then op.sentAt else 0, op.mark);
    } else if op.PersisterFlush? {
      FlushRecovers(sys.store, op.io);
    } else if op.Crash? {
      CrashKeepsLog(sys.store);
    } else if op.Compact? || op.CrashInCleanup? {
      GoneCleanup(cfg, sys, op, id);
    }
  }

  lemma GoneCleanup(cfg: Config, sys: System, op: Op, id: string)
    requires Durable(sys) && Gone(sys, id) && Enabled(sys, op) && (op.Compact? || op.CrashInCleanup?)
    ensures Gone(Apply(cfg, sys, op), id) <==> Spares(sys, op, id)
  {
    HeldStep(cfg, sys, op);
    CleanupGone(sys.store, op.pending, op.faults, Steps(sys, op), id);
    CrashKeepsLog(CleanupCut(sys.store, op.pending, op.faults, Steps(sys, op)));
  }

  /** A run in which no Cleanup brings the id back. */
  ghost predicate SparingRun(cfg: Config, from: System, ops: seq<Op>, to: System, id: string)
    decreases |ops|
  {
    if ops == [] then from == to
    else
      && Enabled(from, ops[0]) && Spares(from, ops[0], id)
      && SparingRun(cfg, Apply(cfg, from, ops[0]), ops[1..], to, id)
  }

  /** As long as every file can be removed, every run is such a run. */
  lemma {:induction false} UnstuckRun(cfg: Config, from: System, ops: seq<Op>, to: System, id: string)
    requires Run(cfg, from, ops, to)
    requires forall op :: op in ops && (op.Compact? || op.CrashInCleanup?) ==> op.faults.stuck == {}
    ensures SparingRun(cfg, from, ops, to, id)
    decreases |ops|
  {
    if ops != [] {
      var op := ops[0];
      assert op in ops;
      if op.Compact? || op.CrashInCleanup? {
        UnstuckSpares(from, op, id);
      }
      UnstuckRun(cfg, Apply(cfg, from, op), ops[1..], to, id);
    }
  }

  lemma {:induction false} GoneRun(cfg: Config, from: System, ops: seq<Op>, to: System, id: string)
    requires Durable(from) && Gone(from, id) && SparingRun(cfg, from, ops, to, id)
    ensures Gone(to, id)
    decreases |ops|
  {
    if ops != [] {
      GoneStep(cfg, from, ops[0], id);
      DurableStep(cfg, from, ops[0]);
      GoneRun(cfg, Apply(cfg, from, ops[0]), ops[1..], to, id);
    }
  }

  // ----- Nothing is held twice -----

  function EventLists(batches: seq<Batch>): (lists: seq<seq<Event>>)
    ensures |lists| == |batches|
  {
    seq(|batches|, i requires 0 <= i < |batches| => batches[i].events)
  }

  function Concat(batches: seq<Batch>): seq<Event> {
    Flatten(EventLists(batches))
  }

  /** Every event in a batch or in the queue, in the order the queue gave it out. */
  function Held(sys: System): seq<Event> {
    Concat(sys.inflight) + sys.queue
  }

  ghost predicate DistinctIds(events: seq<Event>) {
    forall i, j :: 0 <= i < j < |events| ==> events[i].id != events[j].id
  }

  lemma ConcatAppend(a: seq<Batch>, b: seq<Batch>)
    ensures Concat(a + b) == Concat(a) + Concat(b)
  {
    assert EventLists(a + b) == EventLists(a) + EventLists(b);
    FlattenAppend(EventLists(a), EventLists(b));
  }

  lemma ConcatSingle(batch: Batch)
    ensures Concat([batch]) == batch.events
  {
    var lists := EventLists([batch]);
    assert lists == [batch.events] && lists[..0] == [];
    assert Flatten(lists) == [] + batch.events == batch.events;
  }

  lemma ConcatLast(batches: seq<Batch>, last: Batch)
    ensures Concat(batches + [last]) == Concat(batches) + last.events
  {
    ConcatAppend(batches, [last]);
    ConcatSingle(last);
  }

  lemma ConcatSplit(batches: seq<Batch>, b: nat)
    requires b < |batches|
    ensures Concat(batches) == Concat(batches[..b]) + batches[b].events + Concat(batches[b + 1..])
  {
    SplitAt(batches, b);
    ConcatThree(batches[..b], batches[b], batches[b + 1..]);
  }

  lemma SplitAt<T>(s: seq<T>, i: nat)
    requires i < |s|
    ensures s == s[..i] + [s[i]] + s[i + 1..]
  {
  }

  lemma ConcatThree(head: seq<Batch>, batch: Batch, tail: seq<Batch>)
    ensures Concat(head + [batch] + tail) == Concat(head) + batch.events + Concat(tail)
  {
    ConcatAppend(head + [batch], tail);
    ConcatAppend(head, [batch]);
    ConcatSingle(batch);
  }

  lemma {:induction false} ConcatIds(batches: seq<Batch>)
    ensures forall id :: id in IdSet(Concat(batches)) <==> exists b, e :: b in batches && e in b.events && e.id == id
  {
    if batches != [] {
      var last := |batches| - 1;
      ConcatIds(batches[..last]);
      assert batches == batches[..last] + [batches[last]];
      ConcatLast(batches[..last], batches[last]);
      assert IdSet(Concat(batches)) == IdSet(Concat(batches[..last])) + IdSet(batches[last].events);
      forall id
        ensures id in IdSet(Concat(batches)) <==> exists b, e :: b in batches && e in b.events && e.id == id
      {
        if id in IdSet(batches[last].events) {
          var e :| e in batches[last].events && e.id == id;
          assert batches[last] in batches;
        }
      }
    }
  }

  lemma HeldIdsAreHeld(sys: System)
    ensures IdSet(sys.queue) + BatchIds(sys) == IdSet(Held(sys))
  {
    ConcatIds(sys.inflight);
    assert IdSet(Held(sys)) == IdSet(Concat(sys.inflight)) + IdSet(sys.queue);
    assert forall id :: id in BatchIds(sys) <==> exists b, e :: b in sys.inflight && e in b.events && e.id == id;
    assert BatchIds(sys) == IdSet(Concat(sys.inflight));
  }

  /** client.go recovers once, when the process starts and nothing is queued yet, and goes on when that is
      done; until then only the background tasks of the persister run. */
  predicate StartupRecovery(sys: System, op: Op) {
    && (op.RecoverRead? ==> sys.queue == [] && sys.inflight == [] && sys.recovering == [])
    && (sys.recovering != [] ==>
          op.RecoverInsert? || op.PersisterFlush? || op.Compact? || op.Crash? || op.CrashInCleanup?)
  }

  ghost predicate StartupRun(cfg: Config, from: System, ops: seq<Op>, to: System)
    decreases |ops|
  {
    if ops == [] then from == to
    else
      && Enabled(from, ops[0]) && StartupRecovery(from, ops[0])
      && StartupRun(cfg, Apply(cfg, from, ops[0]), ops[1..], to)
  }

  /** What no step at the right time breaks: nothing is held twice, and while events are being recovered
      there are no others in memory. */
  ghost predicate Settled(sys: System) {
    && DistinctIds(Held(sys))
    && (sys.recovering != [] ==>
          && sys.queue == [] && sys.inflight == [] && |sys.recovering| == 1
          && forall i, j :: 0 <= i < j < |sys.recovering[0]| ==> sys.recovering[0][i].id != sys.recovering[0][j].id)
  }

  lemma RecoveredDistinct(recovered: seq<Record>, maxSize: nat)
    requires forall i, j :: 0 <= i < j < |recovered| ==> recovered[i].id != recovered[j].id
    ensures DistinctIds(Prepend([], recovered, maxSize))
  {
    PrependIsReversedPrefix([], recovered, maxSize);
  }

  /** Taking one batch out of the middle leaves the rest distinct, and disjoint from it. */
  lemma DistinctWithout(a: seq<Event>, mid: seq<Event>, b: seq<Event>)
    requires DistinctIds(a + mid + b)
    ensures DistinctIds(a + b)
    ensures IdSet(mid) !! IdSet(a + b)
  {
    var all := a + mid + b;
    assert forall i :: 0 <= i < |a| ==> (a + b)[i] == all[i];
    assert forall i :: |a| <= i < |a| + |b| ==> (a + b)[i] == all[i + |mid|];
    forall x, y | x in mid && y in a + b
      ensures x.id != y.id
    {
      var i :| 0 <= i < |mid| && mid[i] == x;
      var j :| 0 <= j < |a + b| && (a + b)[j] == y;
      assert all[|a| + i] == x;
      var k := if j < |a| then j else j + |mid|;
      assert all[k] == y;
    }
  }

  lemma HeldWithout(sys: System, b: nat)
    requires b < |sys.inflight|
    ensures var a, mid := Concat(sys.inflight[..b]), sys.inflight[b].events;
      var c := Concat(sys.inflight[b + 1..]) + sys.queue;
      Held(sys) == a + mid + c && Held(sys.(inflight := RemoveAt(sys.inflight, b))) == a + c
  {
    ConcatSplit(sys.inflight, b);
    ConcatAppend(sys.inflight[..b], sys.inflight[b + 1..]);
  }

  lemma ConcatUpdate(batches: seq<Batch>, b: nat)
    requires b < |batches|
    ensures Concat(batches[b := batches[b].(marked := true)]) == Concat(batches)
  {
    assert EventLists(batches[b := batches[b].(marked := true)]) == EventLists(batches);
  }

  lemma DistinctFinish(cfg: Config, sys: System, op: Op)
    requires DistinctIds(Held(sys)) && Enabled(sys, op) && (op.Abandon? || op.SendEnd?)
    ensures DistinctIds(Held(Apply(cfg, sys, op)))
  {
    HeldWithout(sys, op.batch);
    DistinctWithout(Concat(sys.inflight[..op.batch]), sys.inflight[op.batch].events,
                    Concat(sys.inflight[op.batch + 1..]) + sys.queue);
    assert Held(Apply(cfg, sys, op)) == Held(sys.(inflight := RemoveAt(sys.inflight, op.batch)));
  }

  lemma SettledInsert(cfg: Config, sys: System, op: Op)
    requires Settled(sys) && Enabled(sys, op) && op.RecoverInsert?
    ensures Settled(Apply(cfg, sys, op))
  {
    var after := Apply(cfg, sys, op);
    assert op.call == 0 && after.recovering == [] && after.inflight == [];
    assert after.queue == Prepend([], sys.recovering[0], cfg.queueCap);
    RecoveredDistinct(sys.recovering[0], cfg.queueCap);
    assert Held(after) == [] + after.queue == after.queue;
  }

  lemma DistinctStep(cfg: Config, sys: System, op: Op)
    requires Durable(sys) && Settled(sys) && Enabled(sys, op) && StartupRecovery(sys, op)
    ensures Settled(Apply(cfg, sys, op))
  {
    if op.Track? {
      DistinctTrack(cfg, sys, op);
    } else if op.Take? {
      HeldTake(cfg, sys, op);
    } else if op.SendStart? {
      ConcatUpdate(sys.inflight, op.batch);
    } else if op.Abandon? || op.SendEnd? {
      DistinctFinish(cfg, sys, op);
    } else if op.RecoverInsert? {
      SettledInsert(cfg, sys, op);
    }
  }

  lemma HeldTake(cfg: Config, sys: System, op: Op)
    requires op.Take?
    ensures Held(Apply(cfg, sys, op)) == Held(sys)
  {
    ConcatLast(sys.inflight, Batch(sys.queue, false));
    assert Concat(sys.inflight) + sys.queue + [] == Concat(sys.inflight) + sys.queue;
  }

  lemma DistinctTrack(cfg: Config, sys: System, op: Op)
    requires Durable(sys) && DistinctIds(Held(sys)) && Enabled(sys, op) && op.Track?
    ensures DistinctIds(Held(Apply(cfg, sys, op)))
  {
    if |sys.queue| < cfg.queueCap {
      HeldIdsAreHeld(sys);
      var held := Held(sys);
      assert Held(Apply(cfg, sys, op)) == held + [op.event];
      assert forall i :: 0 <= i < |held| ==> held[i].id in IdSet(held);
    }
  }

  lemma {:induction false} DistinctRun(cfg: Config, from: System, ops: seq<Op>, to: System)
    requires Durable(from) && Settled(from) && StartupRun(cfg, from, ops, to)
    ensures Durable(to) && Settled(to)
    decreases |ops|
  {
    if ops != [] {
      DurableStep(cfg, from, ops[0]);
      DistinctStep(cfg, from, ops[0]);
      DistinctRun(cfg, Apply(cfg, from, ops[0]), ops[1..], to);
    }
  }

  /** Finishing a batch whose status line is written makes an event of it gone, if and only if no record of
      it is left in the buffer and no RecoverEvents call under way has read it. */
  lemma FinishMakesGone(cfg: Config, sys: System, op: Op, id: string)
    requires Durable(sys) && DistinctIds(Held(sys))
    requires op.SendEnd? && Enabled(sys, op) && op.mark.MarkWrites?
    requires id in KeptIds(EventIds(sys.inflight[op.batch].events), op.mark.dropped)
    ensures Gone(Apply(cfg, sys, op), id) <==> id !in Ids(sys.store.buffer) && id !in RecoveringIds(sys)
  {
    var b, mid := op.batch, sys.inflight[op.batch].events;
    InBatch(sys, b);
    HeldWithout(sys, b);
    DistinctWithout(Concat(sys.inflight[..b]), mid, Concat(sys.inflight[b + 1..]) + sys.queue);
    HeldIdsAreHeld(sys.(inflight := RemoveAt(sys.inflight, b)));
    assert id in IdSet(mid);
    MarkRecovers(sys.store, EventIds(mid),
                 if op.delivered then Sent else Failed, if op.delivered then op.sentAt else 0, op.mark);
    RecoveredKeyed(Apply(cfg, sys, op).store.Log());
  }

  lemma SettledFinish(cfg: Config, sys: System, finish: Op, id: string)
    requires Durable(sys) && Settled(sys)
    requires finish.SendEnd? && Enabled(sys, finish) && finish.mark.MarkWrites?
    requires id in KeptIds(EventIds(sys.inflight[finish.batch].events), finish.mark.dropped)
    requires id !in Ids(sys.store.buffer)
    ensures Durable(Apply(cfg, sys, finish)) && Gone(Apply(cfg, sys, finish), id)
  {
    assert RecoveringIds(sys) == {};
    FinishMakesGone(cfg, sys, finish, id);
    DurableStep(cfg, sys, finish);
  }

  /** From the first start of the process: an event whose batch was reported sent or failed, with its
      record already out of the buffer, is never queued, sent or recovered again in any later run, with
      recoveries at any time, unless a Cleanup leaves behind a file that brings it back. */
  lemma FinishedStaysFinished(cfg: Config, ops: seq<Op>, sys: System, finish: Op, id: string,
                              later: seq<Op>, to: System)
    requires StartupRun(cfg, INIT, ops, sys)
    requires finish.SendEnd? && Enabled(sys, finish) && finish.mark.MarkWrites?
    requires id in KeptIds(EventIds(sys.inflight[finish.batch].events), finish.mark.dropped)
    requires id !in Ids(sys.store.buffer)
    requires SparingRun(cfg, Apply(cfg, sys, finish), later, to, id)
    ensures id in to.accepted && id !in Recovered(to.store.Log()) && id !in HeldIds(to)
  {
    InitDurable();
    DistinctRun(cfg, INIT, ops, sys);
    SettledFinish(cfg, sys, finish, id);
    GoneRun(cfg, Apply(cfg, sys, finish), later, to, id);
  }
}
