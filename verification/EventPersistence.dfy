/** The persister object of internal/persistence/event_persistence.go, proved against EventLog's steps. */
module EventPersistence {
  import opened Common
  import opened EventLog

  const BUFFER_SIZE := 100

  /** A missing id, timestamp or status is filled in; everything else is kept. */
  function Defaulted(event: Record, freshId: string, now: int): (r: Record)
    ensures r.id == if event.id == "" then freshId else event.id
    ensures r.payload.timestamp == if event.payload.timestamp == 0 then now else event.payload.timestamp
    ensures r.status == if event.status.Unset? then Pending else event.status
    ensures r.sentAt == event.sentAt && r.payload.(timestamp := 0) == event.payload.(timestamp := 0)
    ensures event.id != "" && event.payload.timestamp != 0 && !event.status.Unset? ==> r == event
  {
    var r := if event.id == "" then event.(id := freshId) else event;
    var s := if r.payload.timestamp == 0 then r.(payload := r.payload.(timestamp := now)) else r;
    if s.status.Unset? then s.(status := Pending) else s
  }

  class EventPersistence {
    const bufferSize: nat
    /** Event files on disk, oldest first, without the current one. */
    var older: seq<seq<Line>>
    /** Content of the current file, empty while it does not exist. */
    var current: seq<Line>
    var buffer: seq<Record>

    function View(): Store
      reads this
    {
      Store(older, current, buffer)
    }

    constructor (files: seq<seq<Line>>)
      ensures View() == Store(files, [], []) && bufferSize == BUFFER_SIZE
    {
      bufferSize := BUFFER_SIZE;
      older, current, buffer := files, [], [];
    }

    method Persist(event: Record, freshId: string, now: int, io: FlushIO) returns (ok: bool)
      modifies this
      ensures View() == PersistStep(old(View()), Defaulted(event, freshId, now), bufferSize, io)
      ensures ok && bufferSize > 0 ==> |buffer| < bufferSize
      ensures !ok ==> buffer == old(buffer) + [Defaulted(event, freshId, now)]
    {
      buffer := buffer + [Defaulted(event, freshId, now)];
      ok := true;
      if |buffer| >= bufferSize {
        ok := FlushLocked(io);
      }
    }

    method Flush(io: FlushIO) returns (ok: bool)
      modifies this
      ensures View() == FlushStep(old(View()), io)
      ensures ok == Flushes(old(buffer), io)
    {
      ok := FlushLocked(io);
    }

    method FlushLocked(io: FlushIO) returns (ok: bool)
      modifies this
      ensures View() == FlushStep(old(View()), io)
      ensures ok == Flushes(old(buffer), io)
    {
      if |buffer| == 0 {
        return true;
      }
      if io.OpenFails? {
        return false;
      }
      for i := 0 to |buffer|
        invariant older == old(older) && buffer == old(buffer)
        invariant current == old(current) + Entries(buffer[..i])
        invariant io.WriteFails? ==> i <= io.at
      {
        if io.WriteFails? && io.at == i {
          return false;
        }
        current := current + [Entry(buffer[i])];
      }
      assert buffer[..|buffer|] == buffer;
      if io.SyncFails? {
        return false;
      }
      buffer := [];
      ok := true;
    }

    method MarkSent(ids: seq<string>, now: int, io: MarkIO) returns (ok: bool)
      modifies this
      ensures View() == MarkStep(old(View()), ids, Sent, now, io)
      ensures ok <==> ids == [] || (io.MarkWrites? && io.synced)
    {
      ok := WriteStatusLines(ids, Sent, now, io);
    }

    method MarkSending(ids: seq<string>, io: MarkIO) returns (ok: bool)
      modifies this
      ensures View() == MarkStep(old(View()), ids, Sending, 0, io)
      ensures ok <==> ids == [] || (io.MarkWrites? && io.synced)
    {
      ok := WriteStatusLines(ids, Sending, 0, io);
    }

    method MarkFailed(ids: seq<string>, io: MarkIO) returns (ok: bool)
      modifies this
      ensures View() == MarkStep(old(View()), ids, Failed, 0, io)
      ensures ok <==> ids == [] || (io.MarkWrites? && io.synced)
    {
      ok := WriteStatusLines(ids, Failed, 0, io);
    }

    /** The body the three Mark methods share. A line that cannot be written is skipped. */
    method WriteStatusLines(ids: seq<string>, status: Status, sentAt: int, io: MarkIO) returns (ok: bool)
      modifies this
      ensures View() == MarkStep(old(View()), ids, status, sentAt, io)
      ensures ok <==> ids == [] || (io.MarkWrites? && io.synced)
    {
      if |ids| == 0 {
        return true;
      }
      if io.MarkOpenFails? {
        return false;
      }
      for i := 0 to |ids|
        invariant older == old(older) && buffer == old(buffer)
        invariant current == old(current) + StatusLines(ids[..i], status, sentAt, io.dropped)
      {
        assert ids[..i + 1][..i] == ids[..i];
        if i !in io.dropped {
          current := current + [StatusLine(ids[i], status, sentAt)];
        }
      }
      assert ids[..|ids|] == ids;
      ok := io.synced;
    }

    /** Reads one file into the event map. */
    method ReadEventsFromFile(lines: seq<Line>, eventMap: Index) returns (r: Index)
      ensures r == Replay(eventMap, lines)
    {
      r := eventMap;
      for i := 0 to |lines|
        invariant r == Replay(eventMap, lines[..i])
      {
        assert lines[..i + 1][..i] == lines[..i];
        match lines[i] {
          case Entry(rec) =>
            if rec.id != "" {
              r := r[rec.id := rec];
            }
          case Update(id, status, sentAt) =>
            if id in r {
              r := r[id := r[id].(status := status, sentAt := sentAt)];
            }
          case Junk =>
        }
      }
      assert lines[..|lines|] == lines;
    }

    method ReadAll() returns (m: Index)
      ensures m == Replay(map[], View().Log())
    {
      m := map[];
      var files := older + [current];
      for i := 0 to |files|
        invariant m == Replay(map[], Flatten(files[..i]))
      {
        ReplayAppend(map[], Flatten(files[..i]), files[i]);
        assert files[..i + 1][..i] == files[..i];
        m := ReadEventsFromFile(files[i], m);
      }
      assert files[..|files|] == files;
      assert files[..|older|] == older;
    }

    /** Ranging over the event map: the live records, each once, in any order. */
    method CollectLive(m: Index, reset: bool) returns (r: seq<Record>)
      requires forall id :: id in m ==> m[id].id == id
      ensures Enumerates(r, if reset then Reset(LiveOf(m)) else LiveOf(m))
    {
      r := [];
      var todo := m.Keys;
      ghost var target := if reset then Reset(LiveOf(m)) else LiveOf(m);
      while todo != {}
        invariant todo <= m.Keys
        invariant forall i :: 0 <= i < |r| ==> r[i].id !in todo && r[i].id in target && target[r[i].id] == r[i]
        invariant forall id :: id in target && id !in todo ==> target[id] in r
        invariant forall i, j :: 0 <= i < j < |r| ==> r[i].id != r[j].id
        decreases todo
      {
        var id :| id in todo;
        var event := m[id];
        if event.Live() {
          var kept := if reset then event.(status := Pending) else event;
          assert target[id] == kept;
          r := r + [kept];
        }
        todo := todo - {id};
      }
    }

    /** Recover: every id whose last record is live, once, as pending; the store is not changed. */
    method Recover(opens: bool) returns (ok: bool, events: seq<Record>)
      ensures ok == opens
      ensures ok ==> Enumerates(events, Recovered(View().Log()))
      ensures !ok ==> events == []
    {
      if !opens {
        return false, [];
      }
      var eventMap := ReadAll();
      ReplayKeyed(View().Log());
      events := CollectLive(eventMap, true);
      ok := true;
    }

    /** Cleanup, stopped by a crash after `steps` file operations unless it is done before. A file that
        cannot be removed and a record that cannot be written are logged and otherwise ignored; a new file
        that cannot be created or synced is an error. */
    method Cleanup(opens: bool, faults: Faults, steps: nat, synced: bool) returns (ok: bool, pending: seq<Record>)
      modifies this
      ensures opens ==>
        && Enumerates(pending, LiveOf(Replay(map[], old(View().Log()))))
        && View() == CleanupCut(old(View()), pending, faults, steps)
      ensures !opens ==> View() == old(View()) && pending == []
      ensures ok <==>
        opens && steps >= |old(older)| + 1 + |pending| && (pending == [] || (faults.creates && synced))
    {
      if !opens {
        return false, [];
      }
      var eventMap := ReadAll();
      ReplayKeyed(View().Log());
      pending := CollectLive(eventMap, false);
      var files := |older| + 1;
      var removed := RemoveFiles(steps, faults.stuck);
      ok := false;
      if removed == files {
        ok := WriteCompacted(pending, faults, steps - removed, synced);
      }
    }

    /** Removes the files in the order they are listed, the current one last. What is then still there of
        the old files comes before the new current file. */
    method RemoveFiles(steps: nat, stuck: set<nat>) returns (removed: nat)
      modifies this
      ensures removed == Min(steps, |old(older)| + 1)
      ensures buffer == old(buffer)
      ensures steps <= |old(older)| ==>
        older == Picked(old(older)[..steps], stuck, true) + old(older)[steps..] && current == old(current)
      ensures steps > |old(older)| ==> older == Picked(old(older) + [old(current)], stuck, true) && current == []
    {
      var files := older;
      var kept: seq<seq<Line>> := [];
      removed := 0;
      while removed < |files| && removed < steps
        invariant removed <= |files| && removed <= steps && files == old(older)
        invariant kept == Picked(files[..removed], stuck, true) && older == kept + files[removed..]
        invariant current == old(current) && buffer == old(buffer)
      {
        PickedNext(files, removed, stuck, true);
        if removed in stuck {
          kept := kept + [files[removed]];
        }
        older, removed := kept + files[removed + 1..], removed + 1;
      }
      assert removed == |files| ==> files[..removed] == files && kept == older;
      if removed < steps {
        PickedMore(files, current, stuck, true);
        older := kept + if removed in stuck then [current] else [];
        current, removed := [], removed + 1;
      }
    }

    /** Writes the compacted file, record by record. */
    method WriteCompacted(pending: seq<Record>, faults: Faults, attempts: nat, synced: bool) returns (ok: bool)
      requires current == []
      modifies this
      ensures older == old(older) && buffer == old(buffer)
      ensures current == Entries(Rewritten(pending, faults, attempts))
      ensures ok <==> attempts >= |pending| && (pending == [] || (faults.creates && synced))
    {
      if |pending| == 0 {
        return true;
      }
      if !faults.creates {
        return false;
      }
      for i := 0 to |pending|
        invariant older == old(older) && buffer == old(buffer)
        invariant current == Entries(Picked(pending[..i], faults.dropped, false)) && i <= attempts
      {
        if i == attempts {
          return false;
        }
        PickedNext(pending, i, faults.dropped, false);
        if i !in faults.dropped {
          current := current + [Entry(pending[i])];
        }
      }
      ok := synced;
    }
  }
}
