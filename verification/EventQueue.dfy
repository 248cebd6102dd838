/**
 The event queue object of internal/core/events.go. Its events live in the front part of an array that
 Flush keeps and later appends overwrite, as a Go slice truncated to length 0 is.
 */
module EventQueue {
  import opened Common
  import opened EventLog
  import opened EventPersistence
  import opened EventSystem

  class EventQueue {
    const maxSize: nat
    const batchSize: nat
    const hasClient: bool
    var events: array<Event>
    var count: nat
    var flushSignal: bool
    const persister: EventPersistence
    const persistEnabled: bool

    ghost predicate Valid()
      reads this
    {
      count <= events.Length
    }

    ghost function Contents(): seq<Event>
      requires Valid()
      reads this, events
    {
      events[..count]
    }

    constructor (maxSize: nat, batchSize: nat, hasClient: bool, persister: EventPersistence, persistEnabled: bool)
      ensures Valid() && Contents() == [] && fresh(events)
      ensures this.maxSize == maxSize && this.batchSize == batchSize && this.hasClient == hasClient
      ensures this.persister == persister && this.persistEnabled == persistEnabled
    {
      this.maxSize, this.batchSize, this.hasClient := maxSize, batchSize, hasClient;
      this.persister, this.persistEnabled := persister, persistEnabled;
      events, count, flushSignal := new Event[maxSize], 0, false;
    }

    /** Go's append: into the spare part of the array, or into a larger copy. */
    method Append(event: Event)
      requires Valid()
      modifies this`events, this`count, events
      ensures Valid() && Contents() == old(Contents()) + [event]
      ensures events == old(events) || fresh(events)
    {
      if count == events.Length {
        var grown := new Event[2 * count + 1];
        forall i | 0 <= i < count {
          grown[i] := events[i];
        }
        events := grown;
      }
      events[count] := event;
      count := count + 1;
    }

    /** Track and TrackWithContext; the context is part of the event's payload. */
    method Track(event: Event, io: FlushIO)
      requires Valid() && event.id != ""
      modifies this, events, persister
      ensures Valid() && (events == old(events) || fresh(events))
      ensures Contents() == if |old(Contents())| >= maxSize then old(Contents()) else old(Contents()) + [event]
      ensures persister.View() ==
        if persistEnabled && |old(Contents())| < maxSize
        then PersistStep(old(persister.View()), PendingRecord(event), persister.bufferSize, io)
        else old(persister.View())
      ensures flushSignal <==> old(flushSignal) || (|old(Contents())| < maxSize && |Contents()| >= batchSize)
    {
      if count >= maxSize {
        return;
      }
      if persistEnabled {
        var _ := persister.Persist(PendingRecord(event), "", event.payload.timestamp, io);
      }
      Append(event);
      if count >= batchSize {
        flushSignal := true;
      }
    }

    /** The locked part of Flush: copy the events out and truncate the slice, keeping its array. */
    method TakeBatch() returns (batch: array?<Event>)
      requires Valid()
      modifies this`count
      ensures Valid() && Contents() == []
      ensures batch == null <==> old(Contents()) == []
      ensures batch != null ==> fresh(batch) && batch[..] == old(Contents())
    {
      if count == 0 {
        return null;
      }
      batch := new Event[count];
      forall i | 0 <= i < count {
        batch[i] := events[i];
      }
      count := 0;
    }

    /** Marks the batch sending, posts it, and marks it by the outcome. */
    method SendEvents(batch: array<Event>, delivered: bool, now: int, before: MarkIO, after: MarkIO)
      modifies persister
      ensures persister.View() ==
        if hasClient && persistEnabled
        then MarkStep(MarkStep(old(persister.View()), EventIds(batch[..]), Sending, 0, before), EventIds(batch[..]),
                      if delivered then Sent else Failed, if delivered then now else 0, after)
        else old(persister.View())
    {
      if !hasClient || !persistEnabled {
        return;
      }
      var ids := EventIds(batch[..]);
      var _ := persister.MarkSending(ids, before);
      if !delivered {
        if |ids| > 0 {
          var _ := persister.MarkFailed(ids, after);
        }
        return;
      }
      if |ids| > 0 {
        var _ := persister.MarkSent(ids, now, after);
      }
    }

    method Flush(delivered: bool, now: int, before: MarkIO, after: MarkIO)
      requires Valid()
      modifies this`count, persister
      ensures Valid() && Contents() == []
      ensures persister.View() ==
        if hasClient && persistEnabled && old(Contents()) != []
        then MarkStep(MarkStep(old(persister.View()), EventIds(old(Contents())), Sending, 0, before),
                      EventIds(old(Contents())),
                      if delivered then Sent else Failed, if delivered then now else 0, after)
        else old(persister.View())
    {
      var batch := TakeBatch();
      if batch != null {
        SendEvents(batch, delivered, now, before, after);
      }
    }

    /** append([]Event{event}, eq.events...). */
    method PushFront(event: Event)
      requires Valid()
      modifies this`events, this`count
      ensures Valid() && fresh(events) && Contents() == [event] + old(Contents())
    {
      var joined := new Event[count + 1];
      joined[0] := event;
      forall j | 0 <= j < count {
        joined[j + 1] := events[j];
      }
      events, count := joined, count + 1;
    }

    /** The insertion, under the queue's lock. */
    method InsertRecovered(recovered: seq<Record>)
      requires Valid()
      modifies this`events, this`count
      ensures Valid() && (events == old(events) || fresh(events))
      ensures Contents() == Prepend(old(Contents()), recovered, maxSize)
    {
      var i := 0;
      while i < |recovered| && count < maxSize
        invariant 0 <= i <= |recovered|
        invariant Valid() && (events == old(events) || fresh(events))
        invariant Prepend(Contents(), recovered[i..], maxSize) == Prepend(old(Contents()), recovered, maxSize)
      {
        assert recovered[i..][0] == recovered[i] && recovered[i..][1..] == recovered[i + 1..];
        PushFront(Revive(recovered[i]));
        i := i + 1;
      }
      assert i == |recovered| ==> recovered[i..] == [];
    }

    /** Recovered events go in front of the queue, the last one recovered first, as many as fit; the
        store is untouched, so those that did not fit stay recoverable. */
    method RecoverEvents(opens: bool) returns (ok: bool, recovered: seq<Record>)
      requires Valid()
      modifies this`events, this`count
      ensures Valid() && (events == old(events) || fresh(events))
      ensures ok <==> !persistEnabled || opens
      ensures persistEnabled && ok ==> Enumerates(recovered, Recovered(persister.View().Log()))
      ensures Contents() == Prepend(old(Contents()), recovered, maxSize)
      ensures Recovers(old(Contents()), recovered, maxSize, Contents())
    {
      ghost var queued := Contents();
      PrependExact(queued, [], maxSize);
      if !persistEnabled {
        return true, [];
      }
      ok, recovered := persister.Recover(opens);
      PrependExact(queued, recovered, maxSize);
      if !ok {
        return;
      }
      InsertRecovered(recovered);
    }
  }

  // ----- The methods and the state machine -----

  /** What the contract of Track promises of queue and store is what the step of the state machine does. */
  lemma TrackIsStep(cfg: Config, sys: System, event: Event, io: FlushIO)
    requires Enabled(sys, EventSystem.Op.Track(event, io))
    ensures var tracked := Apply(cfg, sys, EventSystem.Op.Track(event, io));
      var full := |sys.queue| >= cfg.queueCap;
      && tracked.queue == (if full then sys.queue else sys.queue + [event])
      && tracked.store ==
           if full then sys.store else PersistStep(sys.store, PendingRecord(event), cfg.bufferSize, io)
  {
  }

  /** And so for Flush and its three steps, when nothing comes between them. */
  lemma FlushIsSteps(cfg: Config, sys: System, delivered: bool, now: int, before: MarkIO, after: MarkIO)
    requires sys.inflight == [] && sys.queue != []
    ensures var ids := EventIds(sys.queue);
      var started := Apply(cfg, Apply(cfg, sys, Take), SendStart(0, before));
      var ended := Apply(cfg, started, SendEnd(0, delivered, now, after));
      && ended.queue == [] && ended.inflight == []
      && ended.store == MarkStep(MarkStep(sys.store, ids, Sending, 0, before), ids,
                                 if delivered then Sent else Failed, if delivered then now else 0, after)
  {
    var taken := Apply(cfg, sys, Take);
    assert taken.inflight == [Batch(sys.queue, false)];
    assert Apply(cfg, taken, SendStart(0, before)).inflight == [Batch(sys.queue, true)];
  }

  /** And for RecoverEvents and its two steps. */
  lemma RecoverIsSteps(cfg: Config, sys: System, recovered: seq<Record>)
    requires sys.recovering == [] && Enabled(sys, RecoverRead(recovered))
    ensures var done := Apply(cfg, Apply(cfg, sys, RecoverRead(recovered)), RecoverInsert(0));
      done.queue == Prepend(sys.queue, recovered, cfg.queueCap) && done.store == sys.store && done.recovering == []
  {
    assert Apply(cfg, sys, RecoverRead(recovered)).recovering == [recovered];
  }

  // ----- Conservation over whole runs -----

  datatype QueueOp = Put(event: Event, io: FlushIO) | Hand

  /** The events Track accepts: those that find fewer than `cap` events waiting since the last hand-over. */
  function Accepted(ops: seq<QueueOp>, waiting: nat, cap: nat): seq<Event> {
    if ops == [] then []
    else match ops[0]
      case Hand => Accepted(ops[1..], 0, cap)
      case Put(event, _) =>
        if waiting >= cap then Accepted(ops[1..], waiting, cap) else [event] + Accepted(ops[1..], waiting + 1, cap)
  }

  function Contents(batches: seq<array<Event>>): (r: seq<seq<Event>>)
    reads batches
    ensures |r| == |batches| && forall i :: 0 <= i < |r| ==> r[i] == batches[i][..]
  {
    if batches == [] then [] else Contents(batches[..|batches| - 1]) + [batches[|batches| - 1][..]]
  }

  /** The part of the accepted events already decided: handed out, or waiting. */
  ghost predicate Conserved(handed: seq<seq<Event>>, waiting: seq<Event>, rest: seq<QueueOp>,
                            ops: seq<QueueOp>, cap: nat)
  {
    Flatten(handed) + waiting + Accepted(rest, |waiting|, cap) == Accepted(ops, 0, cap)
  }

  lemma ConservedPut(handed: seq<seq<Event>>, waiting: seq<Event>, rest: seq<QueueOp>, ops: seq<QueueOp>, cap: nat)
    requires rest != [] && rest[0].Put? && Conserved(handed, waiting, rest, ops, cap)
    ensures Conserved(handed, if |waiting| >= cap then waiting else waiting + [rest[0].event], rest[1..], ops, cap)
  {
    if |waiting| < cap {
      assert Flatten(handed) + waiting + Accepted(rest, |waiting|, cap)
        == Flatten(handed) + (waiting + [rest[0].event]) + Accepted(rest[1..], |waiting| + 1, cap);
    }
  }

  lemma ConservedHand(handed: seq<seq<Event>>, waiting: seq<Event>, rest: seq<QueueOp>, ops: seq<QueueOp>, cap: nat)
    requires rest != [] && rest[0].Hand? && Conserved(handed, waiting, rest, ops, cap)
    ensures Conserved(if waiting == [] then handed else handed + [waiting], [], rest[1..], ops, cap)
  {
    assert (handed + [waiting])[..|handed|] == handed;
    assert Flatten(handed + [waiting]) + [] == Flatten(handed) + waiting;
    assert waiting == [] ==> Flatten(handed) + [] == Flatten(handed) + waiting;
  }

  /** Any run of Track and Flush on an empty queue: the batches handed out, as they read at the end of
      the run and after every later append into the shared array, followed by the queue, are the
      accepted events in order, each once; and the queue never exceeds its bound. */
  method RunQueue(q: EventQueue, ops: seq<QueueOp>) returns (batches: seq<array<Event>>)
    requires q.Valid() && q.Contents() == []
    requires forall op :: op in ops && op.Put? ==> op.event.id != ""
    modifies q, q.events, q.persister
    ensures q.Valid()
    ensures Flatten(Contents(batches)) + q.Contents() == Accepted(ops, 0, q.maxSize)
    ensures |q.Contents()| <= q.maxSize
  {
    batches := [];
    ghost var handed: seq<seq<Event>> := [];
    for i := 0 to |ops|
      invariant q.Valid() && (q.events == old(q.events) || fresh(q.events))
      invariant |q.Contents()| <= q.maxSize
      invariant |batches| == |handed|
      invariant forall k :: 0 <= k < |batches| ==>
        fresh(batches[k]) && batches[k] != q.events && batches[k][..] == handed[k]
      invariant Conserved(handed, q.Contents(), ops[i..], ops, q.maxSize)
    {
      assert ops[i..][0] == ops[i] && ops[i..][1..] == ops[i + 1..];
      ghost var waiting := q.Contents();
      match ops[i] {
        case Put(event, io) =>
          ConservedPut(handed, waiting, ops[i..], ops, q.maxSize);
          assert ops[i] in ops;
          q.Track(event, io);
        case Hand =>
          ConservedHand(handed, waiting, ops[i..], ops, q.maxSize);
          var batch := q.TakeBatch();
          if batch != null {
            batches, handed := batches + [batch], handed + [waiting];
          }
      }
    }
    assert ops[|ops|..] == [];
    assert Contents(batches) == handed;
    assert Flatten(handed) + q.Contents() + [] == Flatten(handed) + q.Contents();
  }
}
