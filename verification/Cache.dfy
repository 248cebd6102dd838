/** The flag cache of internal/core/cache.go: a bounded map with eviction of the oldest entry. */
module Cache {
  import opened Common

  /** `value` is the flag's value as JSON text. */
  datatype FlagState =
    FlagState(key: string, value: string, enabled: bool, version: int, flagType: string, lastModified: string)

  datatype Entry = Entry(flag: FlagState, fetchedAt: int, expiresAt: int)

  type Entries = map<string, Entry>

  ghost predicate IsOldest(entries: Entries, key: string) {
    key in entries && forall k :: k in entries ==> entries[key].fetchedAt <= entries[k].fetchedAt
  }

  /** evictOldest deletes an oldest entry, unless the key it settled on is empty. */
  ghost predicate Evicts(entries: Entries, after: Entries) {
    if entries == map[] then after == entries
    else exists key :: IsOldest(entries, key) && after == if key == "" then entries else entries - {key}
  }

  ghost predicate MakesRoom(maxSize: int, entries: Entries, key: string, room: Entries) {
    if |entries| >= maxSize && key !in entries then Evicts(entries, room) else room == entries
  }

  /** One Set. Among equally old entries the one found first in map order goes. */
  ghost predicate Sets(maxSize: int, entries: Entries, key: string, entry: Entry, after: Entries) {
    exists room :: MakesRoom(maxSize, entries, key, room) && after == room[key := entry]
  }

  class Cache {
    var entries: Entries
    const ttl: int
    const maxSize: int

    constructor (ttl: int, maxSize: int)
      ensures entries == map[] && this.ttl == ttl && this.maxSize == maxSize
    {
      entries, this.ttl, this.maxSize := map[], ttl, maxSize;
    }

    method Get(key: string, now: int) returns (flag: Option<FlagState>)
      ensures flag == if key in entries && now <= entries[key].expiresAt then Some(entries[key].flag) else None
    {
      if key !in entries {
        return None;
      }
      if now > entries[key].expiresAt {
        return None;
      }
      flag := Some(entries[key].flag);
    }

    method GetStale(key: string) returns (flag: Option<FlagState>)
      ensures flag == if key in entries then Some(entries[key].flag) else None
    {
      flag := if key in entries then Some(entries[key].flag) else None;
    }

    method Set(key: string, flag: FlagState, ttlOverride: Option<int>, now: int)
      modifies this
      ensures Sets(maxSize, old(entries), key,
                   Entry(flag, now, now + if ttlOverride.Some? then ttlOverride.value else ttl), entries)
    {
      if |entries| >= maxSize {
        if key !in entries {
          EvictOldest();
        }
      }
      ghost var room := entries;
      assert MakesRoom(maxSize, old(entries), key, room);
      var cacheTTL := if ttlOverride.Some? then ttlOverride.value else ttl;
      entries := entries[key := Entry(flag, now, now + cacheTTL)];
    }

    method Delete(key: string) returns (found: bool)
      modifies this
      ensures found == (key in old(entries)) && entries == old(entries) - {key}
    {
      if key in entries {
        entries := entries - {key};
        return true;
      }
      assert entries - {key} == entries;
      return false;
    }

    method Clear()
      modifies this
      ensures entries == map[]
    {
      entries := map[];
    }

    /** The scan ranges over the map in any order. */
    method EvictOldest()
      modifies this
      ensures Evicts(old(entries), entries)
    {
      var oldestKey := "";
      var oldestTime := 0;
      var first := true;
      var todo := entries.Keys;
      while todo != {}
        invariant entries == old(entries) && todo <= entries.Keys
        invariant first <==> todo == entries.Keys
        invariant first ==> oldestKey == ""
        invariant !first ==> oldestKey in entries && oldestKey !in todo && oldestTime == entries[oldestKey].fetchedAt
        invariant !first ==> forall k :: k in entries && k !in todo ==> oldestTime <= entries[k].fetchedAt
        decreases todo
      {
        var key :| key in todo;
        if first || entries[key].fetchedAt < oldestTime {
          oldestKey, oldestTime, first := key, entries[key].fetchedAt, false;
        }
        todo := todo - {key};
      }
      if oldestKey != "" {
        entries := entries - {oldestKey};
      }
      assert !first ==> IsOldest(old(entries), oldestKey);
    }
  }

  /** SetMany: one Set after another, each at its own reading of the clock. */
  method SetMany(c: Cache, flags: seq<FlagState>, ttlOverride: Option<int>, times: seq<int>)
    returns (ghost states: seq<Entries>)
    requires |times| == |flags|
    modifies c
    ensures |states| == |flags| + 1 && states[0] == old(c.entries) && states[|flags|] == c.entries
    ensures Trace(c.maxSize, states, SetOps(flags, times, if ttlOverride.Some? then ttlOverride.value else c.ttl))
    ensures forall key :: key in c.entries ==>
      || (key in old(c.entries) && c.entries[key] == old(c.entries)[key])
      || exists i :: 0 <= i < |flags| && flags[i].key == key && c.entries[key] ==
           Entry(flags[i], times[i], times[i] + if ttlOverride.Some? then ttlOverride.value else c.ttl)
    ensures flags != [] ==> flags[|flags| - 1].key in c.entries
  {
    states := [c.entries];
    ghost var ops := SetOps(flags, times, if ttlOverride.Some? then ttlOverride.value else c.ttl);
    for i := 0 to |flags|
      invariant |states| == i + 1 && states[0] == old(c.entries) && states[i] == c.entries
      invariant forall j :: 0 <= j < i ==> Steps(c.maxSize, states[j], ops[j], states[j + 1])
      invariant forall key :: key in c.entries ==>
        || (key in old(c.entries) && c.entries[key] == old(c.entries)[key])
        || exists j :: 0 <= j < i && flags[j].key == key && c.entries[key] ==
             Entry(flags[j], times[j], times[j] + if ttlOverride.Some? then ttlOverride.value else c.ttl)
      invariant i > 0 ==> flags[i - 1].key in c.entries
    {
      c.Set(flags[i].key, flags[i], ttlOverride, times[i]);
      states := states + [c.entries];
    }
  }

  // ----- Runs of the cache -----

  datatype Op = Set(key: string, entry: Entry) | Delete(key: string) | Clear

  function SetOps(flags: seq<FlagState>, times: seq<int>, ttl: int): seq<Op>
    requires |times| == |flags|
  {
    seq(|flags|, i requires 0 <= i < |flags| => Set(flags[i].key, Entry(flags[i], times[i], times[i] + ttl)))
  }

  ghost predicate Steps(maxSize: int, before: Entries, op: Op, after: Entries) {
    match op
    case Set(key, entry) => Sets(maxSize, before, key, entry, after)
    case Delete(key) => after == before - {key}
    case Clear => after == map[]
  }

  /** A run from the empty cache, with whatever choices the map scans made. */
  ghost predicate Trace(maxSize: int, states: seq<Entries>, ops: seq<Op>) {
    && |states| == |ops| + 1
    && forall i :: 0 <= i < |ops| ==> Steps(maxSize, states[i], ops[i], states[i + 1])
  }

  /** The clock moves on between writes. */
  ghost predicate Ticking(ops: seq<Op>) {
    forall i, j :: 0 <= i < j < |ops| && ops[i].Set? && ops[j].Set? ==> ops[i].entry.fetchedAt < ops[j].entry.fetchedAt
  }

  /** Operation i is the last one to write the key. */
  ghost predicate LastWrite(ops: seq<Op>, i: int, key: string) {
    && 0 <= i < |ops| && ops[i].Set? && ops[i].key == key
    && forall j :: i < j < |ops| ==> !(ops[j].Set? && ops[j].key == key)
  }

  /** Every cached entry is the last one written for its key. */
  lemma {:induction false} EntriesAreLastWrites(maxSize: int, states: seq<Entries>, ops: seq<Op>, key: string)
    returns (i: int)
    requires Trace(maxSize, states, ops) && states[0] == map[] && key in states[|ops|]
    ensures LastWrite(ops, i, key) && states[|ops|][key] == ops[i].entry
  {
    var last := |ops| - 1;
    if ops[last].Set? && ops[last].key == key {
      i := last;
    } else {
      assert key in states[last] && states[last][key] == states[|ops|][key];
      i := EntriesAreLastWrites(maxSize, states[..|ops|], ops[..last], key);
    }
  }

  // ----- The cached keys, most recently written first -----

  ghost predicate Distinct(order: seq<string>) {
    forall i, j :: 0 <= i < j < |order| ==> order[i] != order[j]
  }

  function IndexOf(order: seq<string>, key: string): (i: nat)
    ensures i <= |order| && (i < |order| ==> order[i] == key) && (i == |order| <==> key !in order)
  {
    if order == [] || order[0] == key then 0 else IndexOf(order[1..], key) + 1
  }

  function Without(order: seq<string>, key: string): seq<string> {
    if key in order then RemoveAt(order, IndexOf(order, key)) else order
  }

  /** The cache cannot be made smaller than one entry. */
  function Capacity(maxSize: int): nat {
    if maxSize < 1 then 1 else maxSize
  }

  function Take(order: seq<string>, n: nat): seq<string> {
    if |order| <= n then order else order[..n]
  }

  /** What the operations do to the list: a new key in a full cache takes the place of the last one, unless
      that is the empty string. */
  function ListStep(maxSize: int, order: seq<string>, op: Op): seq<string> {
    match op
    case Set(key, _) =>
      if key !in order && |order| >= Capacity(maxSize) && order[|order| - 1] != "" then [key] + order[..|order| - 1]
      else [key] + Without(order, key)
    case Delete(key) => Without(order, key)
    case Clear => []
  }

  function ListRun(maxSize: int, ops: seq<Op>): seq<string> {
    if ops == [] then [] else ListStep(maxSize, ListRun(maxSize, ops[..|ops| - 1]), ops[|ops| - 1])
  }

  /** The specification: a recency list cut off at the capacity. */
  function Spec(maxSize: int, order: seq<string>, op: Op): seq<string> {
    match op
    case Set(key, _) => Take([key] + Without(order, key), Capacity(maxSize))
    case Delete(key) => Without(order, key)
    case Clear => []
  }

  function SpecRun(maxSize: int, ops: seq<Op>): seq<string> {
    if ops == [] then [] else Spec(maxSize, SpecRun(maxSize, ops[..|ops| - 1]), ops[|ops| - 1])
  }

  function WrittenAt(entries: Entries, key: string): int {
    if key in entries then entries[key].fetchedAt else 0
  }

  ghost predicate NewestFirst(order: seq<string>, entries: Entries) {
    forall i, j :: 0 <= i < j < |order| ==> WrittenAt(entries, order[i]) > WrittenAt(entries, order[j])
  }

  /** The list names the keys of the map, each once, newest first. */
  ghost predicate Lists(order: seq<string>, entries: Entries) {
    Elements(order) == entries.Keys && Distinct(order) && NewestFirst(order, entries)
  }

  lemma {:induction false} DistinctSize(order: seq<string>)
    requires Distinct(order)
    ensures |Elements(order)| == |order|
  {
    if order != [] {
      var last := |order| - 1;
      DistinctSize(order[..last]);
      assert Elements(order) == Elements(order[..last]) + {order[last]};
    }
  }

  lemma DistinctRemoveAt(order: seq<string>, i: nat)
    requires i < |order| && Distinct(order)
    ensures var r := RemoveAt(order, i);
      && Distinct(r) && order[i] !in r && Elements(r) == Elements(order) - {order[i]}
      && forall j :: 0 <= j < |r| ==> r[j] == order[if j < i then j else j + 1]
  {
    var r := RemoveAt(order, i);
    assert order == order[..i] + [order[i]] + order[i + 1..];
    assert forall j :: 0 <= j < |r| ==> r[j] == order[if j < i then j else j + 1];
    assert Elements(order) == Elements(r) + {order[i]};
  }

  lemma RemoveKeepsNewest(order: seq<string>, r: seq<string>, entries: Entries, i: nat)
    requires i < |order| && |r| == |order| - 1 && NewestFirst(order, entries) && order[i] !in r
    requires forall j :: 0 <= j < |r| ==> r[j] == order[if j < i then j else j + 1]
    ensures NewestFirst(r, entries - {order[i]})
  {
    forall j | 0 <= j < |r|
      ensures WrittenAt(entries - {order[i]}, r[j]) == WrittenAt(entries, order[if j < i then j else j + 1])
    {
      assert r[j] in r;
    }
  }

  lemma ListsRemoveAt(order: seq<string>, entries: Entries, i: nat)
    requires i < |order| && Lists(order, entries)
    ensures Lists(RemoveAt(order, i), entries - {order[i]})
  {
    DistinctRemoveAt(order, i);
    RemoveKeepsNewest(order, RemoveAt(order, i), entries, i);
    assert forall k :: k in RemoveAt(order, i) ==> k in Elements(RemoveAt(order, i));
  }

  lemma ListsWithout(order: seq<string>, entries: Entries, key: string)
    requires Lists(order, entries)
    ensures Lists(Without(order, key), entries - {key})
    ensures |Without(order, key)| == |order| - if key in order then 1 else 0
  {
    if key in order {
      ListsRemoveAt(order, entries, IndexOf(order, key));
    } else {
      assert key !in Elements(order);
      assert entries - {key} == entries;
    }
  }

  lemma ListsPush(order: seq<string>, entries: Entries, key: string, entry: Entry)
    requires Lists(order, entries) && key !in order
    requires forall k :: k in entries ==> entry.fetchedAt > entries[k].fetchedAt
    ensures Lists([key] + order, entries[key := entry])
  {
    var pushed, more := [key] + order, entries[key := entry];
    assert Elements(pushed) == {key} + Elements(order);
    assert forall i :: 0 <= i < |order| ==> order[i] in Elements(order);
    assert forall i :: 0 <= i < |order| ==> WrittenAt(more, order[i]) == WrittenAt(entries, order[i]);
    assert forall i :: 0 <= i < |order| ==> WrittenAt(more, key) > WrittenAt(entries, order[i]);
  }

  lemma ListsDropLast(order: seq<string>, entries: Entries)
    requires Lists(order, entries) && order != []
    ensures Lists(order[..|order| - 1], entries - {order[|order| - 1]})
  {
    var last := |order| - 1;
    ListsRemoveAt(order, entries, last);
    assert RemoveAt(order, last) == order[..last];
  }

  /** With strictly increasing times the only oldest entry is the last of the list. */
  lemma OldestIsLast(order: seq<string>, entries: Entries, key: string)
    requires Lists(order, entries)
    ensures IsOldest(entries, key) <==> order != [] && key == order[|order| - 1]
  {
    var n := |order| - 1;
    if IsOldest(entries, key) {
      assert key in Elements(order);
      var i :| 0 <= i < |order| && order[i] == key;
      assert order[n] in Elements(order);
      assert WrittenAt(entries, key) <= WrittenAt(entries, order[n]);
    }
    if order != [] && key == order[n] {
      forall k | k in entries
        ensures entries[key].fetchedAt <= entries[k].fetchedAt
      {
        assert k in Elements(order);
        var i :| 0 <= i < |order| && order[i] == k;
        assert WrittenAt(entries, k) >= WrittenAt(entries, key);
      }
      assert key in Elements(order);
    }
  }

  lemma EvictsLast(order: seq<string>, entries: Entries, room: Entries)
    requires Lists(order, entries) && order != [] && Evicts(entries, room)
    ensures room == if order[|order| - 1] == "" then entries else entries - {order[|order| - 1]}
  {
    assert order[0] in Elements(order);
    assert entries != map[];
    var key :| IsOldest(entries, key) && room == if key == "" then entries else entries - {key};
    OldestIsLast(order, entries, key);
  }

  lemma PushNew(maxSize: int, order: seq<string>, entries: Entries, key: string, entry: Entry, room: Entries)
    requires Lists(order, entries) && key !in entries && key !in order
    requires forall k :: k in entries ==> entry.fetchedAt > entries[k].fetchedAt
    requires MakesRoom(maxSize, entries, key, room)
    ensures Lists(ListStep(maxSize, order, Set(key, entry)), room[key := entry])
  {
    SameSize(order, entries);
    if |order| >= Capacity(maxSize) {
      EvictsLast(order, entries, room);
      if order[|order| - 1] != "" {
        ListsDropLast(order, entries);
        ListsPush(order[..|order| - 1], room, key, entry);
      } else {
        ListsPush(order, entries, key, entry);
      }
    } else {
      EmptyMap(order, entries);
      ListsPush(order, room, key, entry);
    }
  }

  lemma EmptyMap(order: seq<string>, entries: Entries)
    requires Lists(order, entries)
    ensures order == [] ==> entries == map[]
  {
    assert order == [] ==> entries.Keys == {};
  }

  lemma SameSize(order: seq<string>, entries: Entries)
    requires Lists(order, entries)
    ensures |entries| == |order|
  {
    DistinctSize(order);
    assert |entries.Keys| == |order|;
  }

  lemma Rewrite(order: seq<string>, before: Entries, key: string, entry: Entry)
    requires Lists(order, before) && key in before
    requires forall k :: k in before ==> entry.fetchedAt > before[k].fetchedAt
    ensures Lists([key] + Without(order, key), before[key := entry])
  {
    ListsWithout(order, before, key);
    NotListed(Without(order, key), before - {key}, key);
    ListsPush(Without(order, key), before - {key}, key, entry);
    PutBack(before, key, entry);
  }

  lemma NotListed(order: seq<string>, entries: Entries, key: string)
    requires Lists(order, entries) && key !in entries
    ensures key !in order
  {
    assert key in order ==> key in Elements(order);
  }

  lemma PutBack(entries: Entries, key: string, entry: Entry)
    ensures (entries - {key})[key := entry] == entries[key := entry]
  {
  }

  lemma StepLists(maxSize: int, order: seq<string>, before: Entries, op: Op, after: Entries)
    requires Lists(order, before) && Steps(maxSize, before, op, after)
    requires op.Set? ==> forall k :: k in before ==> op.entry.fetchedAt > before[k].fetchedAt
    ensures Lists(ListStep(maxSize, order, op), after)
  {
    match op {
      case Set(key, entry) =>
        assert key in order <==> key in Elements(order);
        if key in before {
          Rewrite(order, before, key, entry);
        } else {
          var room :| MakesRoom(maxSize, before, key, room) && after == room[key := entry];
          PushNew(maxSize, order, before, key, entry, room);
        }
      case Delete(key) => ListsWithout(order, before, key);
      case Clear =>
    }
  }

  /** Whatever the map scans choose, the cached keys are the list, whatever the keys. */
  lemma {:induction false} CacheRefinesList(maxSize: int, states: seq<Entries>, ops: seq<Op>)
    requires Trace(maxSize, states, ops) && states[0] == map[] && Ticking(ops)
    ensures Lists(ListRun(maxSize, ops), states[|ops|]) && |states[|ops|]| == |ListRun(maxSize, ops)|
  {
    if ops == [] {
      assert states[0] == map[];
    } else {
      var last := |ops| - 1;
      CacheRefinesList(maxSize, states[..|ops|], ops[..last]);
      if ops[last].Set? {
        NewestWrite(maxSize, states, ops);
      }
      StepLists(maxSize, ListRun(maxSize, ops[..last]), states[last], ops[last], states[|ops|]);
    }
    SameSize(ListRun(maxSize, ops), states[|ops|]);
  }

  lemma NewestWrite(maxSize: int, states: seq<Entries>, ops: seq<Op>)
    requires Trace(maxSize, states, ops) && states[0] == map[] && Ticking(ops)
    requires ops != [] && ops[|ops| - 1].Set?
    ensures var before, now := states[|ops| - 1], ops[|ops| - 1].entry.fetchedAt;
      forall k :: k in before ==> now > before[k].fetchedAt
  {
    var last := |ops| - 1;
    forall k | k in states[last]
      ensures ops[last].entry.fetchedAt > states[last][k].fetchedAt
    {
      var i := EntriesAreLastWrites(maxSize, states[..|ops|], ops[..last], k);
    }
  }

  // ----- When the bound holds -----

  /** A new key comes to a full cache whose oldest key is the empty string, which evictOldest keeps. */
  ghost predicate Grows(maxSize: int, entries: Entries, op: Op) {
    op.Set? && |entries| >= Capacity(maxSize) && op.key !in entries && IsOldest(entries, "")
  }

  ghost predicate Fits(maxSize: int, states: seq<Entries>) {
    forall i :: 0 <= i < |states| ==> |states[i]| <= Capacity(maxSize)
  }

  ghost predicate NeverGrows(maxSize: int, states: seq<Entries>, ops: seq<Op>)
    requires |states| == |ops| + 1
  {
    forall i :: 0 <= i < |ops| ==> !Grows(maxSize, states[i], ops[i])
  }

  lemma ListSetSize(maxSize: int, order: seq<string>, key: string, entry: Entry)
    requires Distinct(order) && |order| <= Capacity(maxSize)
    ensures var grows := key !in order && |order| == Capacity(maxSize) && order[|order| - 1] == "";
      && (|ListStep(maxSize, order, Set(key, entry))| <= Capacity(maxSize) <==> !grows)
      && (!grows ==> ListStep(maxSize, order, Set(key, entry)) == Spec(maxSize, order, Set(key, entry)))
  {
    if key !in order && |order| == Capacity(maxSize) {
      TakePush(key, order, |order| - 1);
    }
  }

  lemma ListStepSize(maxSize: int, order: seq<string>, entries: Entries, op: Op)
    requires Lists(order, entries) && |entries| == |order| <= Capacity(maxSize)
    ensures |ListStep(maxSize, order, op)| <= Capacity(maxSize) <==> !Grows(maxSize, entries, op)
    ensures !Grows(maxSize, entries, op) ==> ListStep(maxSize, order, op) == Spec(maxSize, order, op)
  {
    OldestIsLast(order, entries, "");
    if op.Set? {
      assert op.key in order <==> op.key in Elements(order);
      ListSetSize(maxSize, order, op.key, op.entry);
    }
  }

  lemma LastState(maxSize: int, states: seq<Entries>, ops: seq<Op>)
    requires |states| == |ops| + 1 && ops != []
    ensures var last := |ops| - 1;
      && (Fits(maxSize, states) <==> Fits(maxSize, states[..|ops|]) && |states[|ops|]| <= Capacity(maxSize))
      && (Fits(maxSize, states[..|ops|]) ==> |states[last]| <= Capacity(maxSize))
      && (NeverGrows(maxSize, states, ops) <==>
            NeverGrows(maxSize, states[..|ops|], ops[..last]) && !Grows(maxSize, states[last], ops[last]))
  {
    var before, last := states[..|ops|], |ops| - 1;
    assert forall i :: 0 <= i < |before| ==> before[i] == states[i];
    assert forall i :: 0 <= i < last ==> ops[..last][i] == ops[i];
    assert before[last] == states[last];
  }

  lemma {:induction false} FitsRun(maxSize: int, states: seq<Entries>, ops: seq<Op>)
    requires Trace(maxSize, states, ops) && states[0] == map[] && Ticking(ops)
    ensures Fits(maxSize, states) <==> NeverGrows(maxSize, states, ops)
    ensures Fits(maxSize, states) ==> ListRun(maxSize, ops) == SpecRun(maxSize, ops)
  {
    if ops != [] {
      var last := |ops| - 1;
      FitsRun(maxSize, states[..|ops|], ops[..last]);
      CacheRefinesList(maxSize, states[..|ops|], ops[..last]);
      CacheRefinesList(maxSize, states, ops);
      LastState(maxSize, states, ops);
      if Fits(maxSize, states[..|ops|]) {
        ListStepSize(maxSize, ListRun(maxSize, ops[..last]), states[last], ops[last]);
      }
    }
  }

  /** The same by the list alone. */
  predicate ListGrows(maxSize: int, order: seq<string>, op: Op) {
    op.Set? && |order| >= Capacity(maxSize) && op.key !in order && order[|order| - 1] == ""
  }

  predicate NeverListGrows(maxSize: int, ops: seq<Op>) {
    forall i :: 0 <= i < |ops| ==> !ListGrows(maxSize, ListRun(maxSize, ops[..i]), ops[i])
  }

  lemma GrowsAsListed(maxSize: int, order: seq<string>, entries: Entries, op: Op)
    requires Lists(order, entries) && |entries| == |order|
    ensures Grows(maxSize, entries, op) <==> ListGrows(maxSize, order, op)
  {
    OldestIsLast(order, entries, "");
    assert op.Set? ==> (op.key in order <==> op.key in Elements(order));
  }

  lemma GrowsByList(maxSize: int, states: seq<Entries>, ops: seq<Op>, i: nat)
    requires Trace(maxSize, states, ops) && states[0] == map[] && Ticking(ops) && i < |ops|
    ensures Grows(maxSize, states[i], ops[i]) <==> ListGrows(maxSize, ListRun(maxSize, ops[..i]), ops[i])
  {
    assert states[..i + 1][|ops[..i]|] == states[i];
    CacheRefinesList(maxSize, states[..i + 1], ops[..i]);
    GrowsAsListed(maxSize, ListRun(maxSize, ops[..i]), states[i], ops[i]);
  }

  /** The cache stays within its bound through a whole run if and only if no new key ever comes to a full
      cache whose oldest key is the empty string; which is decided by the operations alone. */
  lemma FitsIff(maxSize: int, states: seq<Entries>, ops: seq<Op>)
    requires Trace(maxSize, states, ops) && states[0] == map[] && Ticking(ops)
    ensures Fits(maxSize, states) <==> NeverGrows(maxSize, states, ops)
    ensures Fits(maxSize, states) <==> NeverListGrows(maxSize, ops)
  {
    FitsRun(maxSize, states, ops);
    forall i | 0 <= i < |ops|
      ensures Grows(maxSize, states[i], ops[i]) <==> ListGrows(maxSize, ListRun(maxSize, ops[..i]), ops[i])
    {
      GrowsByList(maxSize, states, ops, i);
    }
  }

  /** Then the cached keys are the recency list cut off at the capacity, whatever the map scans choose. */
  lemma CacheRefinesRecency(maxSize: int, states: seq<Entries>, ops: seq<Op>)
    requires Trace(maxSize, states, ops) && states[0] == map[] && Ticking(ops) && NeverGrows(maxSize, states, ops)
    ensures Lists(SpecRun(maxSize, ops), states[|ops|]) && Fits(maxSize, states)
  {
    FitsRun(maxSize, states, ops);
    CacheRefinesList(maxSize, states, ops);
  }

  /** Without an empty key the cache never grows past its bound. */
  lemma NonEmptyKeysFit(maxSize: int, states: seq<Entries>, ops: seq<Op>)
    requires Trace(maxSize, states, ops) && states[0] == map[]
    requires forall i :: 0 <= i < |ops| && ops[i].Set? ==> ops[i].key != ""
    ensures NeverGrows(maxSize, states, ops)
  {
    forall i | 0 <= i < |ops|
      ensures !Grows(maxSize, states[i], ops[i])
    {
      if "" in states[i] {
        var j := EntriesAreLastWrites(maxSize, states[..i + 1], ops[..i], "");
      }
    }
  }

  /** The distinct keys of a history of writes, most recently written first. */
  function Recent(ops: seq<Op>): seq<string> {
    if ops == [] then []
    else
      var rest := Recent(ops[..|ops| - 1]);
      if ops[|ops| - 1].Set? then [ops[|ops| - 1].key] + Without(rest, ops[|ops| - 1].key) else rest
  }

  lemma TakeWithout(order: seq<string>, key: string, n: nat)
    requires Distinct(order)
    ensures Take(Without(Take(order, n + 1), key), n) == Take(Without(order, key), n)
  {
    if |order| > n + 1 {
      var cut := order[..n + 1];
      if key in cut {
        SameIndex(order, n + 1, key);
        var j := IndexOf(cut, key);
        assert RemoveAt(cut, j) == RemoveAt(order, j)[..n];
      } else if key in order {
        assert forall j :: 0 <= j < |cut| ==> order[j] == cut[j] && cut[j] in cut;
        assert IndexOf(order, key) >= |cut|;
        assert RemoveAt(order, IndexOf(order, key))[..n] == cut[..n];
      }
    }
  }

  lemma SameIndex(order: seq<string>, n: nat, key: string)
    requires Distinct(order) && n <= |order| && key in order[..n]
    ensures key in order && IndexOf(order, key) == IndexOf(order[..n], key)
  {
    var i, j := IndexOf(order, key), IndexOf(order[..n], key);
    assert order[j] == order[..n][j] == key;
    assert order[i] == order[j];
  }

  lemma PushDistinct(order: seq<string>, key: string)
    requires Distinct(order)
    ensures Distinct([key] + Without(order, key))
  {
    if key in order {
      DistinctRemoveAt(order, IndexOf(order, key));
    }
  }

  lemma {:induction false} RecentDistinct(ops: seq<Op>)
    ensures Distinct(Recent(ops))
  {
    if ops != [] {
      var rest := Recent(ops[..|ops| - 1]);
      RecentDistinct(ops[..|ops| - 1]);
      if ops[|ops| - 1].Set? {
        PushDistinct(rest, ops[|ops| - 1].key);
      }
    }
  }

  lemma TakePush(key: string, order: seq<string>, n: nat)
    ensures Take([key] + order, n + 1) == [key] + Take(order, n)
  {
  }

  lemma {:induction false} SpecIsRecent(maxSize: int, ops: seq<Op>)
    requires forall op :: op in ops ==> op.Set?
    ensures SpecRun(maxSize, ops) == Take(Recent(ops), Capacity(maxSize))
  {
    if ops != [] {
      var last := |ops| - 1;
      SpecIsRecent(maxSize, ops[..last]);
      assert ops[last] in ops;
      var rest, n, key := Recent(ops[..last]), Capacity(maxSize), ops[last].key;
      RecentDistinct(ops[..last]);
      TakeWithout(rest, key, n - 1);
      TakePush(key, Without(Take(rest, n), key), n - 1);
      TakePush(key, Without(rest, key), n - 1);
    }
  }

  // ----- Growing past the bound -----

  ghost predicate NoTies(entries: Entries) {
    forall j, k :: j in entries && k in entries && j != k ==> entries[j].fetchedAt != entries[k].fetchedAt
  }

  /** A cache that is full, or already over its bound, gets one entry larger exactly when a new key comes
      while the oldest key is the empty string; it never gets smaller. */
  lemma GrowthIff(maxSize: int, entries: Entries, key: string, entry: Entry, after: Entries)
    requires Sets(maxSize, entries, key, entry, after) && |entries| >= Capacity(maxSize) && NoTies(entries)
    ensures |after| == |entries| + if Grows(maxSize, entries, Set(key, entry)) then 1 else 0
  {
    var room :| MakesRoom(maxSize, entries, key, room) && after == room[key := entry];
    AddSize(room, key, entry);
    if key !in entries {
      assert entries != map[];
      var oldest :| IsOldest(entries, oldest) && room == if oldest == "" then entries else entries - {oldest};
      OldestUnique(entries, oldest);
      RemoveSize(entries, oldest);
    }
  }

  /** Sets from some state on, at increasing times after those in the cache. */
  ghost predicate Later(entries: Entries, ops: seq<Op>) {
    && Ticking(ops)
    && forall op :: op in ops ==> op.Set? && forall k :: k in entries ==> entries[k].fetchedAt < op.entry.fetchedAt
  }

  ghost predicate NewKeys(entries: Entries, ops: seq<Op>) {
    && (forall i :: 0 <= i < |ops| && ops[i].Set? ==> ops[i].key !in entries)
    && forall i, j :: 0 <= i < j < |ops| && ops[i].Set? && ops[j].Set? ==> ops[i].key != ops[j].key
  }

  lemma GrowStep(maxSize: int, entries: Entries, after: Entries, ops: seq<Op>)
    requires ops != [] && Steps(maxSize, entries, ops[0], after)
    requires |entries| >= Capacity(maxSize) && IsOldest(entries, "") && NoTies(entries)
    requires Later(entries, ops) && NewKeys(entries, ops)
    ensures |after| == |entries| + 1 && IsOldest(after, "") && NoTies(after)
    ensures Later(after, ops[1..]) && NewKeys(after, ops[1..])
  {
    var op := ops[0];
    assert op in ops;
    assert Grows(maxSize, entries, op);
    GrowthIff(maxSize, entries, op.key, op.entry, after);
    assert after == entries[op.key := op.entry] by {
      var room :| MakesRoom(maxSize, entries, op.key, room) && after == room[op.key := op.entry];
      assert entries != map[];
      var oldest :| IsOldest(entries, oldest) && room == if oldest == "" then entries else entries - {oldest};
      OldestUnique(entries, oldest);
    }
    forall later | later in ops[1..]
      ensures later.Set? && forall k :: k in after ==> after[k].fetchedAt < later.entry.fetchedAt
    {
      assert later in ops;
    }
  }

  /** Once the empty string is the oldest key of a full cache, every new key makes the cache one entry
      larger: there is no bound. */
  lemma {:induction false} GrowsWithoutBound(maxSize: int, states: seq<Entries>, ops: seq<Op>)
    requires Trace(maxSize, states, ops)
    requires |states[0]| >= Capacity(maxSize) && IsOldest(states[0], "") && NoTies(states[0])
    requires Later(states[0], ops) && NewKeys(states[0], ops)
    ensures |states[|ops|]| == |states[0]| + |ops|
    decreases |ops|
  {
    if ops != [] {
      GrowStep(maxSize, states[0], states[1], ops);
      GrowsWithoutBound(maxSize, states[1..], ops[1..]);
    }
  }

  /** A cache over its bound stays over it, whatever is written later. */
  lemma {:induction false} StaysOver(maxSize: int, states: seq<Entries>, ops: seq<Op>)
    requires Trace(maxSize, states, ops) && |states[0]| >= Capacity(maxSize)
    requires forall op :: op in ops ==> op.Set?
    ensures |states[|ops|]| >= |states[0]|
  {
    if ops != [] {
      var last := |ops| - 1;
      assert ops[last] in ops;
      StaysOver(maxSize, states[..|ops|], ops[..last]);
      SetNeverShrinks(maxSize, states[last], ops[last].key, ops[last].entry, states[|ops|]);
    }
  }

  lemma SetNeverShrinks(maxSize: int, entries: Entries, key: string, entry: Entry, after: Entries)
    requires Sets(maxSize, entries, key, entry, after)
    ensures |after| >= |entries|
  {
    var room :| MakesRoom(maxSize, entries, key, room) && after == room[key := entry];
    AddSize(room, key, entry);
    if |entries| >= maxSize && key !in entries && entries != map[] {
      var oldest :| IsOldest(entries, oldest) && room == if oldest == "" then entries else entries - {oldest};
      RemoveSize(entries, oldest);
    }
  }

  /** A cache for one entry that holds two: the empty key is written first. */
  lemma GrowthExample(empty: FlagState, other: FlagState, ttl: int, states: seq<Entries>)
    requires empty.key == "" && other.key != ""
    requires Trace(1, states, SetOps([empty, other], [0, 1], ttl)) && states[0] == map[]
    ensures |states[1]| == 1 && |states[2]| == 2
  {
    var ops := SetOps([empty, other], [0, 1], ttl);
    var room :| MakesRoom(1, states[0], "", room) && states[1] == room[ops[0].key := ops[0].entry];
    AddSize(map[], "", ops[0].entry);
    GrowthIff(1, states[1], ops[1].key, ops[1].entry, states[2]);
  }

  lemma OldestUnique(entries: Entries, oldest: string)
    requires IsOldest(entries, oldest) && NoTies(entries)
    ensures IsOldest(entries, "") <==> oldest == ""
  {
  }

  lemma AddSize(entries: Entries, key: string, entry: Entry)
    ensures |entries[key := entry]| == |entries| + if key in entries then 0 else 1
  {
    assert entries[key := entry].Keys == entries.Keys + {key};
    assert |entries[key := entry].Keys| == |entries[key := entry]| && |entries.Keys| == |entries|;
  }

  lemma RemoveSize(entries: Entries, key: string)
    requires key in entries
    ensures |entries - {key}| == |entries| - 1
  {
    assert (entries - {key}).Keys == entries.Keys - {key};
    assert |(entries - {key}).Keys| == |entries - {key}| && |entries.Keys| == |entries|;
  }

  // ----- What a cache holds -----

  lemma GrownHoldsMore(maxSize: int, states: seq<Entries>, ops: seq<Op>)
    requires Trace(maxSize, states, ops) && !Fits(maxSize, states)
    requires forall op :: op in ops ==> op.Set?
    ensures |states[|ops|]| > Capacity(maxSize)
  {
    var i :| 0 <= i < |states| && |states[i]| > Capacity(maxSize);
    assert forall op :: op in ops[i..] ==> op in ops;
    StaysOver(maxSize, states[i..], ops[i..]);
  }

  lemma HoldsMostRecentIff(maxSize: int, states: seq<Entries>, ops: seq<Op>)
    requires Trace(maxSize, states, ops) && states[0] == map[] && Ticking(ops)
    requires forall op :: op in ops ==> op.Set?
    ensures states[|ops|].Keys == Elements(Take(Recent(ops), Capacity(maxSize))) <==> NeverGrows(maxSize, states, ops)
  {
    FitsIff(maxSize, states, ops);
    if NeverGrows(maxSize, states, ops) {
      CacheRefinesRecency(maxSize, states, ops);
      SpecIsRecent(maxSize, ops);
    } else {
      GrownHoldsMore(maxSize, states, ops);
      ElementsSize(Take(Recent(ops), Capacity(maxSize)));
      assert |states[|ops|].Keys| == |states[|ops|]|;
    }
  }

  /** After any writes to an empty cache it holds exactly the most recently written distinct keys that fit,
      if and only if it never grew past its bound; and each entry is the last one written for its key. */
  lemma CacheHoldsMostRecent(maxSize: int, states: seq<Entries>, ops: seq<Op>)
    requires Trace(maxSize, states, ops) && states[0] == map[] && Ticking(ops)
    requires forall op :: op in ops ==> op.Set?
    ensures states[|ops|].Keys == Elements(Take(Recent(ops), Capacity(maxSize))) <==> NeverGrows(maxSize, states, ops)
    ensures forall key :: key in states[|ops|] ==>
      exists i :: LastWrite(ops, i, key) && states[|ops|][key] == ops[i].entry
  {
    HoldsMostRecentIff(maxSize, states, ops);
    forall key | key in states[|ops|]
      ensures exists i :: LastWrite(ops, i, key) && states[|ops|][key] == ops[i].entry
    {
      var i := EntriesAreLastWrites(maxSize, states, ops, key);
    }
  }

  lemma {:induction false} ElementsSize(order: seq<string>)
    ensures |Elements(order)| <= |order|
  {
    if order != [] {
      var last := |order| - 1;
      ElementsSize(order[..last]);
      assert Elements(order) == Elements(order[..last]) + {order[last]};
    }
  }
}
