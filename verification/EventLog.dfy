/**
 The write-ahead event log of internal/persistence/event_persistence.go as values: the lines of the
 event files, the fold that recovery runs over them, and what each operation leaves behind.
 */
module EventLog {
  import opened Common

  /** Everything an event carries besides its id and status; data and context are JSON text. */
  datatype Payload = Payload(kind: string, data: string, context: string, timestamp: int)

  const NO_PAYLOAD := Payload("", "", "", 0)

  datatype Status = Unset | Pending | Sending | Sent | Failed | Other(text: string)

  datatype Record = Record(id: string, payload: Payload, status: Status, sentAt: int) {
    predicate Live() {
      status.Pending? || status.Sending?
    }
  }

  /** A line by how it decodes: as a whole record, only as a status update, or as neither. */
  datatype Line =
    | Entry(rec: Record)
    | Update(id: string, status: Status, sentAt: int)
    | Junk

  /** The line MarkSending, MarkSent and MarkFailed write. Its JSON object decodes as a whole record
      whose other fields are zero. */
  function StatusLine(id: string, status: Status, sentAt: int): Line {
    Entry(Record(id, NO_PAYLOAD, status, sentAt))
  }

  type Index = map<string, Record>

  // ----- Recovery as a fold -----

  function ReadLine(m: Index, line: Line): Index {
    match line
    case Entry(rec) => if rec.id != "" then m[rec.id := rec] else m
    case Update(id, status, sentAt) =>
      if id in m then m[id := m[id].(status := status, sentAt := sentAt)] else m
    case Junk => m
  }

  function Replay(m: Index, log: seq<Line>): Index {
    if log == [] then m else ReadLine(Replay(m, log[..|log| - 1]), log[|log| - 1])
  }

  function LiveOf(m: Index): Index {
    map id | id in m && m[id].Live() :: m[id]
  }

  function Reset(m: Index): Index {
    map id | id in m :: m[id].(status := Pending)
  }

  /** What Recover returns, by id. */
  function Recovered(log: seq<Line>): Index {
    Reset(LiveOf(Replay(map[], log)))
  }

  predicate IsEntry(line: Line, id: string) {
    line.Entry? && line.rec.id == id
  }

  predicate Names(line: Line, id: string) {
    IsEntry(line, id) || (line.Update? && line.id == id)
  }

  /** Every line this code writes decodes as a whole record. */
  predicate Written(log: seq<Line>) {
    forall i :: 0 <= i < |log| ==> log[i].Entry?
  }

  lemma {:induction false} ReplayAppend(m: Index, a: seq<Line>, b: seq<Line>)
    ensures Replay(m, a + b) == Replay(Replay(m, a), b)
  {
    if b == [] {
      assert a + b == a;
    } else {
      ReplayAppend(m, a, b[..|b| - 1]);
      assert (a + b)[..|a + b| - 1] == a + b[..|b| - 1];
    }
  }

  lemma {:induction false} ReplayFrame(m: Index, log: seq<Line>, id: string)
    requires forall i :: 0 <= i < |log| ==> !Names(log[i], id)
    ensures id in Replay(m, log) <==> id in m
    ensures id in m ==> Replay(m, log)[id] == m[id]
  {
    if log != [] {
      ReplayFrame(m, log[..|log| - 1], id);
    }
  }

  /** Only an entry brings an id in; the last entry fixes its payload and the last line its status. */
  lemma {:induction false} ReplayFinal(m: Index, log: seq<Line>, id: string, i: nat, j: nat)
    requires id != "" && i <= j < |log| && IsEntry(log[i], id) && Names(log[j], id)
    requires forall k :: i < k < |log| ==> !IsEntry(log[k], id)
    requires forall k :: j < k < |log| ==> !Names(log[k], id)
    ensures id in Replay(m, log)
    ensures Replay(m, log)[id] ==
      if i == j then log[i].rec else log[i].rec.(status := log[j].status, sentAt := log[j].sentAt)
  {
    var last := |log| - 1;
    if j < last {
      ReplayFinal(m, log[..last], id, i, j);
    } else if i < j {
      ReplayUpdated(m, log[..last], id, i);
    }
  }

  lemma {:induction false} ReplayUpdated(m: Index, log: seq<Line>, id: string, i: nat)
    requires id != "" && i < |log| && IsEntry(log[i], id)
    requires forall k :: i < k < |log| ==> !IsEntry(log[k], id)
    ensures id in Replay(m, log)
    ensures exists status, sentAt :: Replay(m, log)[id] == log[i].rec.(status := status, sentAt := sentAt)
  {
    var last := |log| - 1;
    if i < last {
      ReplayUpdated(m, log[..last], id, i);
      var status, sentAt :| Replay(m, log[..last])[id] == log[i].rec.(status := status, sentAt := sentAt);
      var before := Replay(m, log[..last])[id];
      if Names(log[last], id) {
        assert Replay(m, log)[id] == log[i].rec.(status := log[last].status, sentAt := log[last].sentAt);
      } else {
        assert Replay(m, log)[id] == before;
      }
    } else {
      assert Replay(m, log)[id] == log[i].rec.(status := log[i].rec.status, sentAt := log[i].rec.sentAt);
    }
  }

  lemma {:induction false} ReplayKeyed(log: seq<Line>)
    ensures forall id :: id in Replay(map[], log) ==> id != "" && Replay(map[], log)[id].id == id
  {
    if log != [] {
      ReplayKeyed(log[..|log| - 1]);
    }
  }

  ghost predicate LastFor(log: seq<Line>, i: int, id: string) {
    0 <= i < |log| && Names(log[i], id) && forall k :: i < k < |log| ==> !Names(log[k], id)
  }

  lemma {:induction false} LastForExists(log: seq<Line>, id: string) returns (i: int)
    ensures i == -1 ==> forall k :: 0 <= k < |log| ==> !Names(log[k], id)
    ensures i != -1 ==> LastFor(log, i, id)
  {
    i := |log| - 1;
    while i >= 0 && !Names(log[i], id)
      invariant -1 <= i < |log|
      invariant forall k :: i < k < |log| ==> !Names(log[k], id)
    {
      i := i - 1;
    }
  }

  /** Recover returns exactly the ids whose last record is pending or sending, as that record set to pending. */
  lemma RecoveryIsLastRecord(log: seq<Line>, id: string)
    requires Written(log)
    ensures id in Recovered(log) <==> id != "" && exists i :: LastFor(log, i, id) && log[i].rec.Live()
    ensures forall i :: LastFor(log, i, id) && id in Recovered(log) ==>
      Recovered(log)[id] == log[i].rec.(status := Pending)
  {
    var i := LastForExists(log, id);
    if i == -1 {
      ReplayFrame(map[], log, id);
    } else if id != "" {
      ReplayFinal(map[], log, id, i, i);
      assert forall j :: LastFor(log, j, id) ==> j == i;
    } else {
      ReplayKeyed(log);
    }
  }

  /** Lines this code writes overwrite: replaying them merges their own index over the old one. */
  lemma {:induction false} ReplayMerge(m: Index, log: seq<Line>)
    requires Written(log)
    ensures Replay(m, log) == m + Replay(map[], log)
  {
    if log != [] {
      ReplayMerge(m, log[..|log| - 1]);
    }
  }

  /** What a suffix of the log knows of an id is what the whole log knows of it. */
  lemma {:induction false} ReplayShadow(m: Index, log: seq<Line>)
    ensures forall id :: id in Replay(map[], log) ==>
      id in Replay(m, log) && Replay(m, log)[id] == Replay(map[], log)[id]
  {
    if log != [] {
      ReplayShadow(m, log[..|log| - 1]);
    }
  }

  /** Dead entries do not matter to what is read later. */
  lemma {:induction false} ReplayLive(m: Index, n: Index, log: seq<Line>)
    requires Written(log) && LiveOf(m) == LiveOf(n)
    ensures LiveOf(Replay(m, log)) == LiveOf(Replay(n, log))
  {
    if log != [] {
      ReplayLive(m, n, log[..|log| - 1]);
      var a, b := Replay(m, log[..|log| - 1]), Replay(n, log[..|log| - 1]);
      LiveStep(a, b, log[|log| - 1]);
    }
  }

  lemma LiveStep(a: Index, b: Index, line: Line)
    requires line.Entry? && LiveOf(a) == LiveOf(b)
    ensures LiveOf(ReadLine(a, line)) == LiveOf(ReadLine(b, line))
  {
    forall id
      ensures id in LiveOf(ReadLine(a, line)) <==> id in LiveOf(ReadLine(b, line))
      ensures id in LiveOf(ReadLine(a, line)) ==> LiveOf(ReadLine(a, line))[id] == LiveOf(ReadLine(b, line))[id]
    {
      assert id in LiveOf(a) <==> id in LiveOf(b);
      assert id in LiveOf(a) ==> LiveOf(a)[id] == LiveOf(b)[id];
    }
  }

  // ----- Lists of records and the lines they are written as -----

  function Entries(records: seq<Record>): (log: seq<Line>)
    ensures |log| == |records| && Written(log)
    ensures forall i :: 0 <= i < |log| ==> log[i] == Entry(records[i])
  {
    seq(|records|, i requires 0 <= i < |records| => Entry(records[i]))
  }

  function Ids(records: seq<Record>): set<string> {
    set r | r in records :: r.id
  }

  /** The records lists the entries of m, each once, in some order: what ranging over a Go map yields. */
  ghost predicate Enumerates(records: seq<Record>, m: Index) {
    && (forall i :: 0 <= i < |records| ==> records[i].id in m && m[records[i].id] == records[i])
    && (forall id :: id in m ==> m[id] in records && m[id].id == id)
    && (forall i, j :: 0 <= i < j < |records| ==> records[i].id != records[j].id)
  }

  lemma ReplayEntries(records: seq<Record>)
    requires forall r :: r in records ==> r.id != ""
    requires forall i, j :: 0 <= i < j < |records| ==> records[i].id != records[j].id
    ensures Replay(map[], Entries(records)).Keys == Ids(records)
    ensures forall r :: r in records ==> Replay(map[], Entries(records))[r.id] == r
  {
    ReplayKeysOfEntries(records);
    forall r | r in records
      ensures Replay(map[], Entries(records))[r.id] == r
    {
      var i :| 0 <= i < |records| && records[i] == r;
      ReplayFinal(map[], Entries(records), r.id, i, i);
    }
  }

  /** Writing out the live records and reading them back gives the live records. */
  lemma LiveRoundTrip(log: seq<Line>, pending: seq<Record>)
    requires Enumerates(pending, LiveOf(Replay(map[], log)))
    ensures Replay(map[], Entries(pending)) == LiveOf(Replay(map[], log))
  {
    ReplayKeyed(log);
    ReplayEntries(pending);
  }

  // ----- The store and its operations -----

  /** Files in the order Glob lists them, the current one last; the buffer is what is not yet written. */
  datatype Store = Store(older: seq<seq<Line>>, current: seq<Line>, buffer: seq<Record>) {
    function Log(): seq<Line> {
      Flatten(older) + current
    }
  }

  /** How a flush fares: the lock or the file cannot be opened, a write fails, the sync fails, or none. */
  datatype FlushIO = Done | OpenFails | WriteFails(at: nat) | SyncFails

  function WrittenCount(buffer: seq<Record>, io: FlushIO): (n: nat)
    ensures n <= |buffer|
  {
    if io.OpenFails? then 0 else if io.WriteFails? && io.at < |buffer| then io.at else |buffer|
  }

  predicate Flushes(buffer: seq<Record>, io: FlushIO) {
    buffer == [] || io.Done? || (io.WriteFails? && io.at >= |buffer|)
  }

  function FlushStep(s: Store, io: FlushIO): Store {
    Store(s.older, s.current + Entries(s.buffer[..WrittenCount(s.buffer, io)]),
          if Flushes(s.buffer, io) then [] else s.buffer)
  }

  function PersistStep(s: Store, event: Record, bufferSize: nat, io: FlushIO): Store {
    var added := s.(buffer := s.buffer + [event]);
    if |added.buffer| >= bufferSize then FlushStep(added, io) else added
  }

  /** How a Mark* call fares: nothing can be opened, or the lines at the dropped positions fail. */
  datatype MarkIO = MarkOpenFails | MarkWrites(dropped: set<nat>, synced: bool)

  function StatusLines(ids: seq<string>, status: Status, sentAt: int, dropped: set<nat>): (log: seq<Line>)
    ensures Written(log)
  {
    if ids == [] then []
    else
      var last := |ids| - 1;
      StatusLines(ids[..last], status, sentAt, dropped)
        + if last in dropped then [] else [StatusLine(ids[last], status, sentAt)]
  }

  function MarkStep(s: Store, ids: seq<string>, status: Status, sentAt: int, io: MarkIO): Store {
    if io.MarkOpenFails? then s
    else s.(current := s.current + StatusLines(ids, status, sentAt, io.dropped))
  }

  /** How a run of Cleanup fares: the positions of the files it cannot remove, whether the new file can
      be created, and the positions of the live records it cannot write. It goes on after each fault. */
  datatype Faults = Faults(stuck: set<nat>, creates: bool, dropped: set<nat>)

  const NO_FAULTS := Faults({}, true, {})

  /** The elements whose position is in the set, or is not. */
  function Picked<T>(items: seq<T>, at: set<nat>, inside: bool): seq<T> {
    if items == [] then []
    else
      var last := |items| - 1;
      Picked(items[..last], at, inside) + if (last in at) == inside then [items[last]] else []
  }

  /** What Cleanup has written of the live records after so many attempts. */
  function Rewritten(pending: seq<Record>, faults: Faults, attempts: nat): seq<Record> {
    if faults.creates then Picked(pending[..Min(attempts, |pending|)], faults.dropped, false) else []
  }

  /** The store when Cleanup stops after so many file operations: it tries to remove every file in the
      order they are listed, the current one last, and then to write the live records to a new one. */
  function CleanupCut(s: Store, pending: seq<Record>, faults: Faults, steps: nat): Store {
    if steps <= |s.older| then s.(older := Picked(s.older[..steps], faults.stuck, true) + s.older[steps..])
    else
      Store(Picked(s.older + [s.current], faults.stuck, true),
            Entries(Rewritten(pending, faults, steps - |s.older| - 1)), s.buffer)
  }

  /** A completed Cleanup. */
  function CompactStep(s: Store, pending: seq<Record>, faults: Faults): Store {
    CleanupCut(s, pending, faults, |s.older| + 1 + |pending|)
  }

  /** A completed Cleanup without faults. */
  function CleanupStep(s: Store, pending: seq<Record>): Store {
    CompactStep(s, pending, NO_FAULTS)
  }

  lemma PickedNext<T>(items: seq<T>, n: nat, at: set<nat>, inside: bool)
    requires n < |items|
    ensures Picked(items[..n + 1], at, inside) ==
      Picked(items[..n], at, inside) + if (n in at) == inside then [items[n]] else []
  {
    assert items[..n + 1][..n] == items[..n];
  }

  lemma PickedMore<T>(items: seq<T>, more: T, at: set<nat>, inside: bool)
    ensures Picked(items + [more], at, inside) ==
      Picked(items, at, inside) + if (|items| in at) == inside then [more] else []
  {
    assert (items + [more])[..|items|] == items;
  }

  lemma {:induction false} PickedNothing<T>(items: seq<T>)
    ensures Picked(items, {}, true) == []
    ensures Picked(items, {}, false) == items
  {
    if items != [] {
      var last := |items| - 1;
      PickedNothing(items[..last]);
      assert items == items[..last] + [items[last]];
    }
  }

  lemma {:induction false} PickedRecords(records: seq<Record>, at: set<nat>, inside: bool)
    requires forall i, j :: 0 <= i < j < |records| ==> records[i].id != records[j].id
    ensures var r := Picked(records, at, inside);
      && (forall x :: x in r ==> x in records)
      && forall i, j :: 0 <= i < j < |r| ==> r[i].id != r[j].id
  {
    if records != [] {
      var last := |records| - 1;
      PickedRecords(records[..last], at, inside);
      assert forall x :: x in records[..last] ==> x in records && x.id != records[last].id;
    }
  }

  lemma {:induction false} PickedLines(files: seq<seq<Line>>, at: set<nat>)
    ensures forall line :: line in Flatten(Picked(files, at, true)) ==> line in Flatten(files)
  {
    if files != [] {
      var last := |files| - 1;
      PickedLines(files[..last], at);
      var before := Picked(files[..last], at, true);
      assert (before + [files[last]])[..|before|] == before && before + [] == before;
    }
  }

  /** A crash loses the buffer; the next process starts a new file after the old ones. */
  function CrashStep(s: Store): Store {
    Store(s.older + [s.current], [], [])
  }

  lemma CrashKeepsLog(s: Store)
    ensures CrashStep(s).Log() == s.Log()
  {
    FlattenAppend(s.older, [s.current]);
    assert Flatten([s.current]) == s.current;
  }

  // ----- Compaction -----

  lemma LiveOfTwice(m: Index)
    ensures LiveOf(LiveOf(m)) == LiveOf(m)
  {
  }

  /** Compaction cannot be noticed: whatever is appended afterwards, recovery sees the same records. */
  lemma CleanupCongruence(log: seq<Line>, pending: seq<Record>, later: seq<Line>)
    requires Enumerates(pending, LiveOf(Replay(map[], log))) && Written(later)
    ensures Recovered(Entries(pending) + later) == Recovered(log + later)
    ensures |Entries(pending)| == |LiveOf(Replay(map[], log))|
  {
    LiveRoundTrip(log, pending);
    LiveOfTwice(Replay(map[], log));
    ReplayAppend(map[], Entries(pending), later);
    ReplayAppend(map[], log, later);
    ReplayLive(Replay(map[], Entries(pending)), Replay(map[], log), later);
    EnumerationLength(pending, LiveOf(Replay(map[], log)));
  }

  lemma EnumerationLength(records: seq<Record>, m: Index)
    requires Enumerates(records, m)
    ensures |records| == |m|
  {
    assert forall id :: id in m ==> id in Ids(records) by {
      forall id | id in m ensures id in Ids(records) { assert m[id] in records; }
    }
    assert m.Keys == Ids(records);
    IdsSize(records);
    assert |m.Keys| == |m|;
  }

  lemma {:induction false} IdsSize(records: seq<Record>)
    requires forall i, j :: 0 <= i < j < |records| ==> records[i].id != records[j].id
    ensures |Ids(records)| == |records|
  {
    if records != [] {
      var last := |records| - 1;
      IdsSize(records[..last]);
      assert records == records[..last] + [records[last]];
      assert Ids(records) == Ids(records[..last]) + {records[last].id};
      assert records[last].id !in Ids(records[..last]);
    }
  }

  /** What Cleanup leaves of the files it came to. */
  function LeftOver(s: Store, faults: Faults, steps: nat): seq<Line> {
    Flatten(Picked((s.older + [s.current])[..Min(steps, |s.older| + 1)], faults.stuck, true))
  }

  /** The files Cleanup did not come to. */
  function Untouched(s: Store, steps: nat): seq<Line> {
    if steps <= |s.older| then Flatten(s.older[steps..]) + s.current else []
  }

  /** The files Cleanup came to, as they were. */
  function Touched(s: Store, steps: nat): seq<Line> {
    Flatten((s.older + [s.current])[..Min(steps, |s.older| + 1)])
  }

  lemma StoreSplit(s: Store, steps: nat)
    ensures s.Log() == Touched(s, steps) + Untouched(s, steps)
  {
    var files := s.older + [s.current];
    if steps <= |s.older| {
      assert files[..steps] == s.older[..steps] && s.older == s.older[..steps] + s.older[steps..];
      FlattenAppend(s.older[..steps], s.older[steps..]);
      assert Touched(s, steps) + Flatten(s.older[steps..]) + s.current == Touched(s, steps) + Untouched(s, steps);
    } else {
      assert files[..|files|] == files;
      CrashKeepsLog(s);
      assert Touched(s, steps) + [] == Touched(s, steps);
    }
  }

  lemma CutEarly(s: Store, pending: seq<Record>, faults: Faults, steps: nat)
    requires steps <= |s.older|
    ensures CleanupCut(s, pending, faults, steps).Log() == LeftOver(s, faults, steps) + Untouched(s, steps)
  {
    var kept, rest := Picked(s.older[..steps], faults.stuck, true), s.older[steps..];
    assert (s.older + [s.current])[..steps] == s.older[..steps];
    FlattenAppend(kept, rest);
    assert Flatten(kept) + Flatten(rest) + s.current == Flatten(kept) + (Flatten(rest) + s.current);
  }

  lemma CleanupCutLog(s: Store, pending: seq<Record>, faults: Faults, steps: nat)
    ensures CleanupCut(s, pending, faults, steps).Log() ==
      LeftOver(s, faults, steps) +
      if steps <= |s.older| then Untouched(s, steps) else Entries(Rewritten(pending, faults, steps - |s.older| - 1))
  {
    if steps <= |s.older| {
      CutEarly(s, pending, faults, steps);
    } else {
      var files := s.older + [s.current];
      assert files[..|files|] == files;
    }
  }

  lemma CleanupLog(s: Store, pending: seq<Record>)
    ensures CleanupStep(s, pending).Log() == Entries(pending)
  {
    PickedNothing(s.older + [s.current]);
    PickedNothing(pending);
    assert pending[..|pending|] == pending;
  }

  /** A second Cleanup rewrites the same live records. */
  lemma CleanupIdempotent(s: Store, pending: seq<Record>, again: seq<Record>)
    requires Enumerates(pending, LiveOf(Replay(map[], s.Log())))
    requires Enumerates(again, LiveOf(Replay(map[], CleanupStep(s, pending).Log())))
    ensures Enumerates(again, LiveOf(Replay(map[], s.Log())))
    ensures Replay(map[], CleanupStep(CleanupStep(s, pending), again).Log()) ==
      Replay(map[], CleanupStep(s, pending).Log())
  {
    CleanupLog(s, pending);
    CleanupLog(CleanupStep(s, pending), again);
    LiveRoundTrip(s.Log(), pending);
    LiveOfTwice(Replay(map[], s.Log()));
    LiveRoundTrip(Entries(pending), again);
  }

  predicate Mentions(log: seq<Line>, id: string) {
    exists i :: 0 <= i < |log| && Names(log[i], id)
  }

  /** The ids of the live records that Cleanup has not written after so many attempts. */
  function Unwritten(pending: seq<Record>, faults: Faults, attempts: nat): set<string> {
    set i: nat | i < |pending| && (!faults.creates || i >= attempts || i in faults.dropped) :: pending[i].id
  }

  lemma {:induction false} PickedIds(records: seq<Record>, at: set<nat>)
    ensures Ids(Picked(records, at, false)) == set i: nat | i < |records| && i !in at :: records[i].id
  {
    if records != [] {
      var last := |records| - 1;
      PickedIds(records[..last], at);
      var before := Picked(records[..last], at, false);
      if last in at {
        assert before + [] == before;
      } else {
        assert Ids(before + [records[last]]) == Ids(before) + {records[last].id};
      }
    }
  }

  lemma RewrittenIds(pending: seq<Record>, faults: Faults, attempts: nat)
    requires forall i, j :: 0 <= i < j < |pending| ==> pending[i].id != pending[j].id
    ensures Ids(Rewritten(pending, faults, attempts)) == Ids(pending) - Unwritten(pending, faults, attempts)
  {
    var tried := pending[..Min(attempts, |pending|)];
    PickedIds(tried, faults.dropped);
    var kept := set i: nat | i < |tried| && i !in faults.dropped :: tried[i].id;
    forall id
      ensures id in Ids(pending) - Unwritten(pending, faults, attempts) <==> faults.creates && id in kept
    {
      if id in Ids(pending) {
        var i: nat :| i < |pending| && pending[i].id == id;
        assert id in Unwritten(pending, faults, attempts) <==> !faults.creates || i >= attempts || i in faults.dropped;
        assert id in kept <==> i < |tried| && tried[i].id == id && i !in faults.dropped;
      }
    }
  }

  lemma EntriesSurvive(left: seq<Line>, records: seq<Record>, id: string)
    requires Recovered(Entries(records)).Keys == Ids(records) && forall r :: r in records ==> r.id != ""
    ensures id in Recovered(left + Entries(records)) <==> id in Recovered(left) || id in Ids(records)
  {
    ReplayKeysOfEntries(records);
    RecoveredAppend(left, Entries(records), id);
  }

  lemma RewriteSurvivors(log: seq<Line>, left: seq<Line>, pending: seq<Record>, faults: Faults, attempts: nat,
                         id: string)
    requires Enumerates(pending, LiveOf(Replay(map[], log)))
    ensures id in Recovered(left + Entries(Rewritten(pending, faults, attempts))) <==>
      id in Recovered(left) || (id in Ids(pending) && id !in Unwritten(pending, faults, attempts))
  {
    RewrittenRecovered(log, pending, faults, attempts);
    RewrittenIds(pending, faults, attempts);
    EntriesSurvive(left, Rewritten(pending, faults, attempts), id);
  }

  lemma UntouchedSurvivors(s: Store, pending: seq<Record>, faults: Faults, steps: nat, id: string)
    requires Written(s.Log()) && steps <= |s.older|
    ensures id in Recovered(CleanupCut(s, pending, faults, steps).Log()) <==>
      if Mentions(Untouched(s, steps), id) then id in Recovered(s.Log())
      else id in Recovered(LeftOver(s, faults, steps))
  {
    CleanupCutLog(s, pending, faults, steps);
    StoreSplit(s, steps);
    SuffixDecides(LeftOver(s, faults, steps), Touched(s, steps), Untouched(s, steps), id);
  }

  /** What Cleanup leaves recoverable when it stops, with whatever faults: once it came to every file, the
      live ids but those it did not write, and the ids the left-over files make recoverable on their own.
      Before that, the ids which files not yet come to mention are as before; the others are as the
      left-over files have them. */
  predicate Survives(s: Store, pending: seq<Record>, faults: Faults, steps: nat, id: string) {
    if steps > |s.older|
    then
      || id in Recovered(LeftOver(s, faults, steps))
      || (id in Ids(pending) && id !in Unwritten(pending, faults, steps - |s.older| - 1))
    else if Mentions(Untouched(s, steps), id) then id in Recovered(s.Log())
    else id in Recovered(LeftOver(s, faults, steps))
  }

  lemma RewrittenSurvivors(s: Store, pending: seq<Record>, faults: Faults, steps: nat, id: string)
    requires Enumerates(pending, LiveOf(Replay(map[], s.Log()))) && steps > |s.older|
    ensures id in Recovered(CleanupCut(s, pending, faults, steps).Log()) <==>
      || id in Recovered(LeftOver(s, faults, steps))
      || (id in Ids(pending) && id !in Unwritten(pending, faults, steps - |s.older| - 1))
  {
    CleanupCutLog(s, pending, faults, steps);
    RewriteSurvivors(s.Log(), LeftOver(s, faults, steps), pending, faults, steps - |s.older| - 1, id);
  }

  lemma SurvivesCut(s: Store, pending: seq<Record>, faults: Faults, steps: nat, id: string)
    requires Written(s.Log()) && Enumerates(pending, LiveOf(Replay(map[], s.Log())))
    ensures id in Recovered(CleanupCut(s, pending, faults, steps).Log()) <==> Survives(s, pending, faults, steps, id)
  {
    if steps <= |s.older| {
      UntouchedSurvivors(s, pending, faults, steps, id);
    } else {
      RewrittenSurvivors(s, pending, faults, steps, id);
    }
  }

  function Survivors(s: Store, pending: seq<Record>, faults: Faults, steps: nat): set<string> {
    set id | id in Recovered(LeftOver(s, faults, steps)).Keys + Ids(pending) + Recovered(s.Log()).Keys &&
      Survives(s, pending, faults, steps, id)
  }

  /** Exactly the survivors are recoverable afterwards. */
  lemma CleanupSurvivors(s: Store, pending: seq<Record>, faults: Faults, steps: nat)
    requires Written(s.Log()) && Enumerates(pending, LiveOf(Replay(map[], s.Log())))
    ensures Recovered(CleanupCut(s, pending, faults, steps).Log()).Keys == Survivors(s, pending, faults, steps)
  {
    forall id
      ensures id in Recovered(CleanupCut(s, pending, faults, steps).Log()).Keys <==>
        id in Survivors(s, pending, faults, steps)
    {
      SurvivesCut(s, pending, faults, steps, id);
    }
  }

  lemma SuffixDecides(left: seq<Line>, gone: seq<Line>, kept: seq<Line>, id: string)
    requires Written(gone + kept)
    ensures id in Recovered(left + kept) <==>
      if Mentions(kept, id) then id in Recovered(gone + kept) else id in Recovered(left)
  {
    assert forall i :: 0 <= i < |kept| ==> kept[i] == (gone + kept)[|gone| + i];
    SuffixSurvivors(gone, kept, id);
    RecoveredAppend(left, kept, id);
    ReplayKeyed(left + kept);
    ReplayKeyed(gone + kept);
    var i := LastForExists(kept, id);
    if i == -1 {
      ReplayFrame(map[], kept, id);
    } else if id != "" {
      ReplayFinal(map[], kept, id, i, i);
    }
  }

  lemma UnstuckLog(s: Store, pending: seq<Record>, faults: Faults, steps: nat)
    requires faults.stuck == {}
    ensures LeftOver(s, faults, steps) == []
    ensures CleanupCut(s, pending, faults, steps).Log() ==
      if steps <= |s.older| then Untouched(s, steps) else Entries(Rewritten(pending, faults, steps - |s.older| - 1))
  {
    CleanupCutLog(s, pending, faults, steps);
    PickedNothing((s.older + [s.current])[..Min(steps, |s.older| + 1)]);
  }

  /** Everything recovered from one log is recovered from the other as it is. */
  ghost predicate RecoveredWithin(after: seq<Line>, before: seq<Line>) {
    forall id :: id in Recovered(after) ==> id in Recovered(before) && Recovered(after)[id] == Recovered(before)[id]
  }

  lemma CutEarlyWithin(s: Store, pending: seq<Record>, faults: Faults, steps: nat)
    requires faults.stuck == {} && steps <= |s.older|
    ensures RecoveredWithin(CleanupCut(s, pending, faults, steps).Log(), s.Log())
  {
    UnstuckLog(s, pending, faults, steps);
    StoreSplit(s, steps);
    SuffixShadow(Touched(s, steps), Untouched(s, steps));
  }

  lemma SameLog(a: seq<Line>, b: seq<Line>, before: seq<Line>, ids: set<string>)
    requires a == b && RecoveredWithin(b, before) && Recovered(b).Keys == ids
    ensures RecoveredWithin(a, before) && Recovered(a).Keys == ids
  {
  }

  lemma CutLateWithin(s: Store, pending: seq<Record>, faults: Faults, steps: nat)
    requires Enumerates(pending, LiveOf(Replay(map[], s.Log()))) && faults.stuck == {} && steps > |s.older|
    ensures var after := CleanupCut(s, pending, faults, steps).Log();
      && RecoveredWithin(after, s.Log())
      && Recovered(after).Keys == Ids(Rewritten(pending, faults, steps - |s.older| - 1))
  {
    var records := Rewritten(pending, faults, steps - |s.older| - 1);
    UnstuckLog(s, pending, faults, steps);
    RewrittenRecovered(s.Log(), pending, faults, steps - |s.older| - 1);
    SameLog(CleanupCut(s, pending, faults, steps).Log(), Entries(records), s.Log(), Ids(records));
  }

  /** Without stuck files, recovery after Cleanup stopped returns nothing it would not have returned before;
      and once the old files are gone it returns exactly the live records rewritten. */
  lemma CleanupCutNeverResurrects(s: Store, pending: seq<Record>, faults: Faults, steps: nat)
    requires Enumerates(pending, LiveOf(Replay(map[], s.Log()))) && faults.stuck == {}
    ensures var after := CleanupCut(s, pending, faults, steps).Log();
      && RecoveredWithin(after, s.Log())
      && (steps > |s.older| ==> Recovered(after).Keys == Ids(Rewritten(pending, faults, steps - |s.older| - 1)))
  {
    if steps <= |s.older| {
      CutEarlyWithin(s, pending, faults, steps);
    } else {
      CutLateWithin(s, pending, faults, steps);
    }
  }

  lemma SuffixShadow(gone: seq<Line>, kept: seq<Line>)
    ensures RecoveredWithin(kept, gone + kept)
  {
    ReplayAppend(map[], gone, kept);
    ReplayShadow(Replay(map[], gone), kept);
  }

  lemma RewrittenRecovered(log: seq<Line>, pending: seq<Record>, faults: Faults, attempts: nat)
    requires Enumerates(pending, LiveOf(Replay(map[], log)))
    ensures var records := Rewritten(pending, faults, attempts);
      && Recovered(Entries(records)).Keys == Ids(records)
      && (forall r :: r in records ==> r in pending && r.id != "")
      && RecoveredWithin(Entries(records), log)
  {
    ReplayKeyed(log);
    var tried, records := pending[..Min(attempts, |pending|)], Rewritten(pending, faults, attempts);
    assert forall r :: r in tried ==> r in pending;
    PickedRecords(tried, faults.dropped, false);
    assert records == if faults.creates then Picked(tried, faults.dropped, false) else [];
    ReplayEntries(records);
    forall id | id in Ids(records)
      ensures id in Recovered(Entries(records)) && id in Recovered(log)
      ensures Recovered(log)[id] == Recovered(Entries(records))[id]
    {
      var r :| r in records && r.id == id;
      assert Replay(map[], Entries(records))[r.id] == r;
    }
  }

  /** Cleanup ignores a file it cannot remove. If it wrote every live record, exactly the ids recoverable
      before are recoverable afterwards, and those the files left behind make recoverable on their own. */
  lemma StuckFilesResurrect(s: Store, pending: seq<Record>, stuck: set<nat>, id: string)
    requires Written(s.Log()) && Enumerates(pending, LiveOf(Replay(map[], s.Log())))
    ensures id in Recovered(CompactStep(s, pending, Faults(stuck, true, {})).Log()) <==>
      id in Recovered(s.Log()) || id in Recovered(Flatten(Picked(s.older + [s.current], stuck, true)))
  {
    var steps, files := |s.older| + 1 + |pending|, s.older + [s.current];
    SurvivesCut(s, pending, Faults(stuck, true, {}), steps, id);
    assert files[..|files|] == files;
    AllWritten(pending, Faults(stuck, true, {}));
    PendingIds(s.Log(), pending);
  }

  lemma AllWritten(pending: seq<Record>, faults: Faults)
    requires faults.creates && faults.dropped == {}
    ensures Unwritten(pending, faults, |pending|) == {}
  {
  }

  lemma PendingIds(log: seq<Line>, pending: seq<Record>)
    requires Enumerates(pending, LiveOf(Replay(map[], log)))
    ensures Ids(pending) == Recovered(log).Keys
  {
    forall id | id in LiveOf(Replay(map[], log))
      ensures id in Ids(pending)
    {
      assert LiveOf(Replay(map[], log))[id] in pending;
    }
  }

  lemma FlattenOne(file: seq<Line>)
    ensures Flatten([file]) == file
  {
    assert [file][..0] == [];
    assert Flatten([file]) == [] + file;
  }

  /** So a sent event can come back: its record is in a file that stays, its status line in one that goes. */
  lemma StuckFileExample(r: Record)
    requires r.id != "" && r.Live()
    ensures var s := Store([[Entry(r)]], [StatusLine(r.id, Sent, 0)], []);
      r.id !in Recovered(s.Log()) && r.id in Recovered(CompactStep(s, [], Faults({0}, true, {})).Log())
  {
    var file, status := [Entry(r)], StatusLine(r.id, Sent, 0);
    assert [] + [Entry(r)] == file && [] + [file] == [file];
    ReplayMore([], Entry(r));
    ReplayMore(file, status);
    PickedMore([], file, {0}, true);
    PickedMore([file], [status], {0}, true);
    FlattenOne(file);
    assert [file] + [] == [file] && file + Entries([]) == file;
  }

  /** What survives the removal of a prefix of the files: the recoverable ids a later file still records. */
  lemma SuffixSurvivors(gone: seq<Line>, kept: seq<Line>, id: string)
    requires Written(gone + kept)
    ensures id in Recovered(kept) <==>
      id in Recovered(gone + kept) && exists i :: 0 <= i < |kept| && Names(kept[i], id)
  {
    assert forall i :: 0 <= i < |kept| ==> kept[i] == (gone + kept)[|gone| + i];
    var i := LastForExists(kept, id);
    RecoveryIsLastRecord(kept, id);
    RecoveryIsLastRecord(gone + kept, id);
    if i != -1 {
      assert LastFor(gone + kept, |gone| + i, id);
      assert forall j :: LastFor(gone + kept, j, id) ==> j == |gone| + i;
      assert forall j :: LastFor(kept, j, id) ==> j == i;
    }
  }

  // ----- Flushing -----

  function FlushRun(s: Store, attempts: seq<FlushIO>): Store {
    if attempts == [] then s else FlushStep(FlushRun(s, attempts[..|attempts| - 1]), attempts[|attempts| - 1])
  }

  lemma {:induction false} FlushRunShape(s: Store, attempts: seq<FlushIO>)
    requires forall i :: 0 <= i < |attempts| ==> !Flushes(s.buffer, attempts[i])
    ensures FlushRun(s, attempts).buffer == s.buffer
    ensures FlushRun(s, attempts).older == s.older
    ensures Replay(map[], FlushRun(s, attempts).Log()) + Replay(map[], Entries(s.buffer)) ==
      Replay(map[], s.Log()) + Replay(map[], Entries(s.buffer))
  {
    if attempts != [] {
      var last := |attempts| - 1;
      FlushRunShape(s, attempts[..last]);
      var t := FlushRun(s, attempts[..last]);
      FailedFlush(t, attempts[last]);
    }
  }

  /** A failed flush leaves traces of the buffer only: merging the whole buffer hides them. */
  lemma FailedFlush(t: Store, io: FlushIO)
    requires !Flushes(t.buffer, io)
    ensures Replay(map[], FlushStep(t, io).Log()) + Replay(map[], Entries(t.buffer)) ==
      Replay(map[], t.Log()) + Replay(map[], Entries(t.buffer))
  {
    var n := WrittenCount(t.buffer, io);
    FlushLog(t, io);
    PartHidden(t.Log(), t.buffer, n);
  }

  lemma PartHidden(log: seq<Line>, records: seq<Record>, n: nat)
    requires n <= |records|
    ensures Replay(map[], log + Entries(records[..n])) + Replay(map[], Entries(records)) ==
      Replay(map[], log) + Replay(map[], Entries(records))
  {
    var head, tail := Entries(records[..n]), Entries(records[n..]);
    ReplayAppend(map[], log, head);
    assert Entries(records) == head + tail;
    PrefixHidden(Replay(map[], log), head, tail);
  }

  lemma PrefixHidden(m: Index, head: seq<Line>, tail: seq<Line>)
    requires Written(head) && Written(tail)
    ensures Replay(m, head) + Replay(map[], head + tail) == m + Replay(map[], head + tail)
  {
    ReplayMerge(m, head);
    ReplayAppend(map[], head, tail);
    ReplayMerge(Replay(map[], head), tail);
    Absorb(m, Replay(map[], head), Replay(map[], tail));
  }

  lemma Absorb(m: Index, a: Index, b: Index)
    ensures (m + a) + (a + b) == m + (a + b)
  {
  }

  lemma FlushLog(t: Store, io: FlushIO)
    ensures FlushStep(t, io).Log() == t.Log() + Entries(t.buffer[..WrittenCount(t.buffer, io)])
  {
  }

  /** Any number of failed flushes, each after any prefix, then a full one, recover like one full flush. */
  lemma RetriedFlush(s: Store, attempts: seq<FlushIO>)
    requires forall i :: 0 <= i < |attempts| ==> !Flushes(s.buffer, attempts[i])
    ensures Recovered(FlushStep(FlushRun(s, attempts), Done).Log()) == Recovered(FlushStep(s, Done).Log())
  {
    FlushRunShape(s, attempts);
    FullFlush(FlushRun(s, attempts));
    FullFlush(s);
  }

  lemma FullFlush(t: Store)
    ensures FlushStep(t, Done).Log() == t.Log() + Entries(t.buffer)
    ensures Replay(map[], FlushStep(t, Done).Log()) == Replay(map[], t.Log()) + Replay(map[], Entries(t.buffer))
  {
    FlushLog(t, Done);
    assert t.buffer[..|t.buffer|] == t.buffer;
    ReplayAppend(map[], t.Log(), Entries(t.buffer));
    ReplayMerge(Replay(map[], t.Log()), Entries(t.buffer));
  }

  /** Recovery after more lines of this code: the ids they name are decided by them alone. */
  lemma RecoveredAppend(log: seq<Line>, more: seq<Line>, id: string)
    requires Written(more)
    ensures id in Recovered(log + more) <==>
      if id in Replay(map[], more) then id in Recovered(more) else id in Recovered(log)
    ensures id in Recovered(log + more) ==>
      Recovered(log + more)[id] == if id in Replay(map[], more) then Recovered(more)[id] else Recovered(log)[id]
  {
    ReplayAppend(map[], log, more);
    ReplayMerge(Replay(map[], log), more);
  }

  lemma {:induction false} ReplayKeysOfEntries(records: seq<Record>)
    ensures Replay(map[], Entries(records)).Keys == Ids(records) - {""}
    ensures forall id :: id in Replay(map[], Entries(records)) ==> Replay(map[], Entries(records))[id] in records
  {
    if records != [] {
      var last := |records| - 1;
      ReplayKeysOfEntries(records[..last]);
      assert Entries(records)[..last] == Entries(records[..last]);
      assert records == records[..last] + [records[last]];
      assert Ids(records) == Ids(records[..last]) + {records[last].id};
    }
  }

  /** What a flush does with a non-empty buffer: it keeps it unless every record was written and synced, and
      writes records from the first on until a write fails. */
  lemma FlushOutcomes(s: Store, io: FlushIO)
    requires s.buffer != []
    ensures var after := FlushStep(s, io);
      match io
      case Done => after == Store(s.older, s.current + Entries(s.buffer), [])
      case OpenFails => after == s
      case SyncFails => after == Store(s.older, s.current + Entries(s.buffer), s.buffer)
      case WriteFails(at) =>
        at < |s.buffer| ==> after == Store(s.older, s.current + Entries(s.buffer[..at]), s.buffer)
  {
    assert s.buffer[..|s.buffer|] == s.buffer && s.current + Entries(s.buffer[..0]) == s.current;
  }

  function PersistRun(s: Store, events: seq<Record>, bufferSize: nat): Store {
    if events == [] then s
    else PersistStep(PersistRun(s, events[..|events| - 1], bufferSize), events[|events| - 1], bufferSize, Done)
  }

  /** The remainder of n by the buffer size: how far a count that starts again when the buffer is full gets. */
  function Buffered(n: nat, bufferSize: nat): (r: nat)
    requires bufferSize >= 1
    ensures r < bufferSize && r <= n
  {
    if n == 0 || Buffered(n - 1, bufferSize) + 1 == bufferSize then 0 else Buffered(n - 1, bufferSize) + 1
  }

  lemma {:induction false} BufferedIsRemainder(n: nat, bufferSize: nat) returns (flushes: nat)
    requires bufferSize >= 1
    ensures n == flushes * bufferSize + Buffered(n, bufferSize)
  {
    flushes := 0;
    if n > 0 {
      var before := BufferedIsRemainder(n - 1, bufferSize);
      flushes := if Buffered(n, bufferSize) == 0 then before + 1 else before;
      assert (before + 1) * bufferSize == before * bufferSize + bufferSize;
    }
  }

  /** The store when all events but the last ones, n modulo bufferSize, are in the log, in order. */
  function InOrder(s: Store, events: seq<Record>, bufferSize: nat): Store
    requires bufferSize >= 1
  {
    var k := |events| - Buffered(|events|, bufferSize);
    Store(s.older, s.current + Entries(events[..k]), events[k..])
  }

  lemma SplitNext(s: Store, events: seq<Record>, last: Record, bufferSize: nat)
    requires bufferSize >= 1
    ensures PersistStep(InOrder(s, events, bufferSize), last, bufferSize, Done) ==
      InOrder(s, events + [last], bufferSize)
  {
    var n := |events|;
    var k := n - Buffered(n, bufferSize);
    var all, buffer := events + [last], events[k..] + [last];
    assert all[..k] == events[..k] && all[k..] == buffer;
    if |buffer| == bufferSize {
      FlushOutcomes(Store(s.older, s.current + Entries(events[..k]), buffer), Done);
      assert s.current + Entries(events[..k]) + Entries(buffer) == s.current + Entries(all);
      assert all[..n + 1] == all && all[n + 1..] == [];
    }
  }

  /** While flushes succeed the buffer is written whenever it is full and not before: of n persisted events
      the last ones, n modulo bufferSize, are buffered and all others are in the log, in order. */
  lemma {:induction false} PersistedInOrder(s: Store, events: seq<Record>, bufferSize: nat)
    requires s.buffer == [] && bufferSize >= 1
    ensures PersistRun(s, events, bufferSize) == InOrder(s, events, bufferSize)
  {
    if events == [] {
      assert s.current + Entries([]) == s.current;
    } else {
      var init, last := events[..|events| - 1], events[|events| - 1];
      PersistedInOrder(s, init, bufferSize);
      SplitNext(s, init, last, bufferSize);
      assert events == init + [last];
    }
  }

  // ----- Status records -----

  function KeptIds(ids: seq<string>, dropped: set<nat>): set<string> {
    set i: nat | i < |ids| && i !in dropped :: ids[i]
  }

  lemma ReplayMore(log: seq<Line>, line: Line)
    ensures Replay(map[], log + [line]) == ReadLine(Replay(map[], log), line)
  {
    assert (log + [line])[..|log|] == log;
  }

  lemma KeptLast(ids: seq<string>, dropped: set<nat>)
    requires ids != []
    ensures var last := |ids| - 1;
      KeptIds(ids, dropped) == KeptIds(ids[..last], dropped) + if last in dropped then {} else {ids[last]}
  {
  }

  /** The index holds just the status records of these ids. */
  ghost predicate HoldsStatus(m: Index, ids: set<string>, status: Status, sentAt: int) {
    m.Keys == ids - {""} && forall id :: id in m ==> m[id] == Record(id, NO_PAYLOAD, status, sentAt)
  }

  lemma HoldsOneMore(m: Index, ids: set<string>, status: Status, sentAt: int, id: string)
    requires HoldsStatus(m, ids, status, sentAt)
    ensures HoldsStatus(ReadLine(m, StatusLine(id, status, sentAt)), ids + {id}, status, sentAt)
  {
  }

  lemma {:induction false} ReplayStatusLines(ids: seq<string>, status: Status, sentAt: int, dropped: set<nat>)
    ensures HoldsStatus(Replay(map[], StatusLines(ids, status, sentAt, dropped)), KeptIds(ids, dropped), status, sentAt)
  {
    if ids == [] {
      assert KeptIds(ids, dropped) == {};
    } else {
      var last := |ids| - 1;
      var lines := StatusLines(ids[..last], status, sentAt, dropped);
      ReplayStatusLines(ids[..last], status, sentAt, dropped);
      KeptLast(ids, dropped);
      if last in dropped {
        assert lines + [] == lines && KeptIds(ids[..last], dropped) + {} == KeptIds(ids[..last], dropped);
      } else {
        ReplayMore(lines, StatusLine(ids[last], status, sentAt));
        HoldsOneMore(Replay(map[], lines), KeptIds(ids[..last], dropped), status, sentAt, ids[last]);
      }
    }
  }

  /** Marking decides the recovery of the ids whose line was written, and of no others. A marked id that
      is still recoverable comes back without its type, data, context and timestamp. */
  lemma MarkDecides(s: Store, ids: seq<string>, status: Status, sentAt: int, io: MarkIO, id: string)
    requires io.MarkWrites?
    ensures var before, after := Recovered(s.Log()), Recovered(MarkStep(s, ids, status, sentAt, io).Log());
      if id in KeptIds(ids, io.dropped) && id != ""
      then
        && (id in after <==> status.Pending? || status.Sending?)
        && (id in after ==> after[id].payload == NO_PAYLOAD)
      else
        && (id in after <==> id in before)
        && (id in after ==> after[id] == before[id])
  {
    var lines := StatusLines(ids, status, sentAt, io.dropped);
    AppendedLog(s, lines);
    StatusDecides(s.Log(), ids, status, sentAt, io.dropped, id);
  }

  lemma AppendedLog(s: Store, lines: seq<Line>)
    ensures s.(current := s.current + lines).Log() == s.Log() + lines
  {
  }

  lemma StatusDecides(log: seq<Line>, ids: seq<string>, status: Status, sentAt: int, dropped: set<nat>, id: string)
    ensures var after := Recovered(log + StatusLines(ids, status, sentAt, dropped));
      if id in KeptIds(ids, dropped) - {""}
      then (id in after <==> status.Pending? || status.Sending?) && (id in after ==> after[id].payload == NO_PAYLOAD)
      else (id in after <==> id in Recovered(log)) && (id in after ==> after[id] == Recovered(log)[id])
  {
    ReplayStatusLines(ids, status, sentAt, dropped);
    RecoveredAppend(log, StatusLines(ids, status, sentAt, dropped), id);
  }

  /** An event marked sent while its record is still in the buffer comes back after the next flush:
      a sent id is recovered then if and only if the last buffered record of that id is live. */
  lemma SentWhileBuffered(s: Store, ids: seq<string>, sentAt: int, id: string)
    requires id in ids && id != ""
    ensures id in Recovered(FlushStep(MarkStep(s, ids, Sent, sentAt, MarkWrites({}, true)), Done).Log()) <==>
      exists i :: LastFor(Entries(s.buffer), i, id) && s.buffer[i].Live()
  {
    var marked := MarkStep(s, ids, Sent, sentAt, MarkWrites({}, true));
    MarkDecides(s, ids, Sent, sentAt, MarkWrites({}, true), id);
    var k :| 0 <= k < |ids| && ids[k] == id;
    assert id in KeptIds(ids, {});
    var w := Entries(s.buffer);
    FullFlush(marked);
    RecoveredAppend(marked.Log(), w, id);
    RecoveryIsLastRecord(w, id);
    var i := LastForExists(w, id);
    if i == -1 {
      ReplayFrame(map[], w, id);
    } else {
      ReplayFinal(map[], w, id, i, i);
    }
  }
}
