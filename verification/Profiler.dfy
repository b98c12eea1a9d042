/**
 The CPU profiler: start and end events of many threads, interleaved under one lock, are paired into
 records (backend/include/ExecutionEngine/CpuProtonRuntime.cpp).
 */
module Profiler {
  import opened Wrappers

  /** Thread and scope name. */
  datatype ScopeKey = ScopeKey(thread: nat, name: string)

  datatype Event = Event(key: ScopeKey, cycle: int, isStart: bool)

  datatype ProfileRecord = ProfileRecord(key: ScopeKey, startCycle: int, endCycle: int, completed: bool)

  datatype State = State(records: seq<ProfileRecord>, active: map<ScopeKey, nat>)
  {
    /** An active scope points at its own record, which is still open. */
    predicate Inv() {
      forall k :: k in active ==> active[k] < |records| && records[active[k]].key == k && !records[active[k]].completed
    }

    predicate IsActive(r: nat)
      requires r < |records|
    {
      records[r].key in active && active[records[r].key] == r
    }
  }

  const EMPTY := State([], map[])

  function Step(st: State, ev: Event): State
    requires st.Inv()
  {
    if ev.isStart then
      State(st.records + [ProfileRecord(ev.key, ev.cycle, 0, false)], st.active[ev.key := |st.records|])
    else if ev.key in st.active then
      var idx := st.active[ev.key];
      State(st.records[idx := st.records[idx].(endCycle := ev.cycle, completed := true)], st.active - {ev.key})
    else st
  }

  /** Events in the order in which they took the lock. */
  function Run(st: State, evs: seq<Event>): (r: State)
    requires st.Inv()
    ensures r.Inv()
    decreases |evs|
  {
    if evs == [] then st
    else
      StepKeepsInv(st, evs[0]);
      Run(Step(st, evs[0]), evs[1..])
  }

  lemma StepKeepsInv(st: State, ev: Event)
    requires st.Inv()
    ensures Step(st, ev).Inv()
  {
  }

  class CpuProtonProfiler {
    var records: seq<ProfileRecord>
    var activeScopes: map<ScopeKey, nat>

    constructor ()
      ensures View() == EMPTY
    {
      records, activeScopes := [], map[];
    }

    function View(): State
      reads this
    {
      State(records, activeScopes)
    }

    method Record(thread: nat, name: string, cycle: int, isStart: bool)
      requires View().Inv()
      modifies this
      ensures View() == Step(old(View()), Event(ScopeKey(thread, name), cycle, isStart)) && View().Inv()
    {
      var key := ScopeKey(thread, name);
      StepKeepsInv(View(), Event(key, cycle, isStart));
      if isStart {
        activeScopes := activeScopes[key := |records|];
        records := records + [ProfileRecord(key, cycle, 0, false)];
      } else if key in activeScopes {
        var idx := activeScopes[key];
        records := records[idx := records[idx].(endCycle := cycle)];
        records := records[idx := records[idx].(completed := true)];
        activeScopes := activeScopes - {key};
      }
    }

    method Reset()
      modifies this
      ensures View() == EMPTY
    {
      records := [];
      activeScopes := map[];
    }

    /** Any number of events, in any interleaving of threads. */
    method RecordAll(evs: seq<Event>)
      requires View().Inv()
      modifies this
      ensures View() == Run(old(View()), evs) && View().Inv()
    {
      for i := 0 to |evs|
        invariant View().Inv() && Run(old(View()), evs) == Run(View(), evs[i..])
      {
        assert evs[i..][1..] == evs[i + 1..];
        Record(evs[i].key.thread, evs[i].key.name, evs[i].cycle, evs[i].isStart);
      }
    }
  }

  // ------------------------------------------------------------------
  // What the records are
  // ------------------------------------------------------------------

  /** The end that closes a scope opened just before `rest`: the next event of its key, if that is an end. */
  function Closing(rest: seq<Event>, key: ScopeKey): Option<int> {
    if rest == [] then None
    else if rest[0].key == key then (if rest[0].isStart then None else Some(rest[0].cycle))
    else Closing(rest[1..], key)
  }

  function Close(r: ProfileRecord, end: Option<int>): ProfileRecord {
    if end.Some? then r.(endCycle := end.value, completed := true) else r
  }

  /** One record per start event, in order, closed by the end that belongs to it. */
  function Reference(evs: seq<Event>): seq<ProfileRecord> {
    if evs == [] then []
    else if evs[0].isStart then
      [Close(ProfileRecord(evs[0].key, evs[0].cycle, 0, false), Closing(evs[1..], evs[0].key))] + Reference(evs[1..])
    else Reference(evs[1..])
  }

  /** The records that are open now, closed by what is still to come. */
  function Closed(st: State, evs: seq<Event>): (r: seq<ProfileRecord>)
    ensures |r| == |st.records|
  {
    seq(|st.records|, i requires 0 <= i < |st.records| =>
      if st.IsActive(i) then Close(st.records[i], Closing(evs, st.records[i].key)) else st.records[i])
  }

  /** From any state, a run closes the open records and adds the reference records of the new events. */
  lemma {:induction false} RunIsReference(st: State, evs: seq<Event>)
    requires st.Inv()
    ensures Run(st, evs).records == Closed(st, evs) + Reference(evs)
    decreases |evs|
  {
    if evs == [] {
      assert Closed(st, evs) == st.records;
    } else {
      var ev, rest := evs[0], evs[1..];
      var next := Step(st, ev);
      StepKeepsInv(st, ev);
      RunIsReference(next, rest);
      if ev.isStart { StartReference(st, evs); } else { EndCloses(st, evs); }
    }
  }

  lemma StartReference(st: State, evs: seq<Event>)
    requires st.Inv() && evs != [] && evs[0].isStart
    ensures Closed(Step(st, evs[0]), evs[1..]) + Reference(evs[1..]) == Closed(st, evs) + Reference(evs)
  {
    var started := Close(ProfileRecord(evs[0].key, evs[0].cycle, 0, false), Closing(evs[1..], evs[0].key));
    StartCloses(st, evs);
    assert (Closed(st, evs) + [started]) + Reference(evs[1..]) == Closed(st, evs) + ([started] + Reference(evs[1..]));
  }

  /** A start leaves an open record of its key open for good, and opens a new one. */
  lemma StartCloses(st: State, evs: seq<Event>)
    requires st.Inv() && evs != [] && evs[0].isStart
    ensures Closed(Step(st, evs[0]), evs[1..]) == Closed(st, evs)
            + [Close(ProfileRecord(evs[0].key, evs[0].cycle, 0, false), Closing(evs[1..], evs[0].key))]
  {
    var next := Step(st, evs[0]);
    forall i | 0 <= i < |st.records| ensures Closed(next, evs[1..])[i] == Closed(st, evs)[i] {
      assert next.records[i] == st.records[i];
    }
    assert next.IsActive(|st.records|);
  }

  /** An end closes the open record of its key, if there is one, and no other. */
  lemma EndCloses(st: State, evs: seq<Event>)
    requires st.Inv() && evs != [] && !evs[0].isStart
    ensures Closed(Step(st, evs[0]), evs[1..]) == Closed(st, evs)
  {
    var key, next := evs[0].key, Step(st, evs[0]);
    forall i | 0 <= i < |st.records| ensures Closed(next, evs[1..])[i] == Closed(st, evs)[i] {
      if st.records[i].key != key {
        assert next.records[i] == st.records[i];
      }
    }
  }

  /**
   Starting empty, the records are exactly the start events, each closed by the next event of its own thread
   and name when that is an end, and left open when it is another start or never comes.
   */
  lemma RecordsAreReference(evs: seq<Event>)
    ensures Run(EMPTY, evs).records == Reference(evs)
  {
    RunIsReference(EMPTY, evs);
  }

  // ------------------------------------------------------------------
  // How long the scopes took
  // ------------------------------------------------------------------

  /** From every start to the end that closes it, summed up over the scopes of one name. */
  function TimeSpent(evs: seq<Event>, name: string): int {
    if evs == [] then 0
    else
      var end := Closing(evs[1..], evs[0].key);
      (if evs[0].isStart && evs[0].key.name == name && end.Some? then end.value - evs[0].cycle else 0)
      + TimeSpent(evs[1..], name)
  }

  /** The statistics over the records are these times. */
  lemma {:induction false} TotalsAreTimes(evs: seq<Event>, name: string)
    ensures NameStats(Reference(evs), name).total == TimeSpent(evs, name)
  {
    if evs != [] {
      TotalsAreTimes(evs[1..], name);
      if evs[0].isStart {
        var r := Close(ProfileRecord(evs[0].key, evs[0].cycle, 0, false), Closing(evs[1..], evs[0].key));
        StatsInFront(r, Reference(evs[1..]), name);
      }
    }
  }

  lemma {:induction false} StatsInFront(r: ProfileRecord, recs: seq<ProfileRecord>, name: string)
    ensures NameStats([r] + recs, name).total
         == NameStats(recs, name).total
            + if r.completed && r.key.name == name then r.endCycle - r.startCycle else 0
  {
    var all := [r] + recs;
    if recs == [] {
      assert all[..|all| - 1] == [];
    } else {
      assert all[..|all| - 1] == [r] + recs[..|recs| - 1];
      StatsInFront(r, recs[..|recs| - 1], name);
    }
  }

  // ------------------------------------------------------------------
  // Threads do not disturb each other
  // ------------------------------------------------------------------

  function EventsOf(evs: seq<Event>, thread: nat): seq<Event> {
    if evs == [] then []
    else (if evs[0].key.thread == thread then [evs[0]] else []) + EventsOf(evs[1..], thread)
  }

  function RecordsOf(recs: seq<ProfileRecord>, thread: nat): seq<ProfileRecord> {
    if recs == [] then []
    else (if recs[0].key.thread == thread then [recs[0]] else []) + RecordsOf(recs[1..], thread)
  }

  lemma {:induction false} ClosingOf(evs: seq<Event>, key: ScopeKey)
    ensures Closing(EventsOf(evs, key.thread), key) == Closing(evs, key)
  {
    if evs != [] {
      ClosingOf(evs[1..], key);
      if evs[0].key.thread == key.thread {
        assert EventsOf(evs, key.thread)[1..] == EventsOf(evs[1..], key.thread);
      } else {
        assert EventsOf(evs, key.thread) == EventsOf(evs[1..], key.thread);
      }
    }
  }

  lemma {:induction false} ReferenceOf(evs: seq<Event>, thread: nat)
    ensures RecordsOf(Reference(evs), thread) == Reference(EventsOf(evs, thread))
  {
    if evs != [] {
      var ev, rest := evs[0], evs[1..];
      ReferenceOf(rest, thread);
      if ev.isStart {
        assert Reference(evs)[1..] == Reference(rest);
      }
      if ev.key.thread == thread {
        ClosingOf(rest, ev.key);
        assert EventsOf(evs, thread)[1..] == EventsOf(rest, thread);
      } else {
        assert EventsOf(evs, thread) == EventsOf(rest, thread);
      }
    }
  }

  /** Under every interleaving a thread gets the records it would get alone. */
  lemma ThreadsIndependent(evs: seq<Event>, thread: nat)
    ensures RecordsOf(Run(EMPTY, evs).records, thread) == Run(EMPTY, EventsOf(evs, thread)).records
  {
    RecordsAreReference(evs);
    RecordsAreReference(EventsOf(evs, thread));
    ReferenceOf(evs, thread);
  }

  // ------------------------------------------------------------------
  // Aggregation
  // ------------------------------------------------------------------

  datatype ScopeStats = ScopeStats(total: int, count: int)

  function Duration(r: ProfileRecord): int { r.endCycle - r.startCycle }

  /** Total duration and number of the completed records with the given name. */
  function NameStats(recs: seq<ProfileRecord>, name: string): ScopeStats {
    if recs == [] then ScopeStats(0, 0)
    else
      var last, rest := recs[|recs| - 1], NameStats(recs[..|recs| - 1], name);
      if last.completed && last.key.name == name then ScopeStats(rest.total + Duration(last), rest.count + 1) else rest
  }

  function AllStats(recs: seq<ProfileRecord>): ScopeStats {
    if recs == [] then ScopeStats(0, 0)
    else
      var last, rest := recs[|recs| - 1], AllStats(recs[..|recs| - 1]);
      if last.completed then ScopeStats(rest.total + Duration(last), rest.count + 1) else rest
  }

  /** The sum over the entries of a map, in whichever order they are visited. */
  ghost function MapStats(m: map<string, ScopeStats>): ScopeStats
    decreases |m|
  {
    if m == map[] then ScopeStats(0, 0)
    else
      var k :| k in m;
      var rest := MapStats(m - {k});
      ScopeStats(m[k].total + rest.total, m[k].count + rest.count)
  }

  lemma {:induction false} MapStatsAt(m: map<string, ScopeStats>, k: string)
    requires k in m
    ensures MapStats(m).total == m[k].total + MapStats(m - {k}).total
    ensures MapStats(m).count == m[k].count + MapStats(m - {k}).count
    decreases |m|
  {
    var j :| j in m &&
      MapStats(m) == ScopeStats(m[j].total + MapStats(m - {j}).total, m[j].count + MapStats(m - {j}).count);
    if j != k {
      assert m - {j} - {k} == m - {k} - {j};
      MapStatsAt(m - {j}, k);
      MapStatsAt(m - {k}, j);
    }
  }

  /** Adding a duration to one entry adds it to the sum. */
  lemma MapStatsAdd(m: map<string, ScopeStats>, k: string, d: int)
    ensures var s := if k in m then m[k] else ScopeStats(0, 0);
            var m' := m[k := ScopeStats(s.total + d, s.count + 1)];
            MapStats(m').total == MapStats(m).total + d && MapStats(m').count == MapStats(m).count + 1
  {
    var s := if k in m then m[k] else ScopeStats(0, 0);
    var m' := m[k := ScopeStats(s.total + d, s.count + 1)];
    MapStatsAt(m', k);
    assert m' - {k} == m - {k};
    if k in m {
      MapStatsAt(m, k);
    } else {
      assert m - {k} == m;
    }
  }

  /** The aggregation of dumpHatchet: per-scope statistics, then the root's totals over all scopes. */
  method DumpHatchet(records: seq<ProfileRecord>) returns (stats: map<string, ScopeStats>, totalAll: int, countAll: int)
    ensures forall name :: EntryOf(stats, records, name)
    ensures totalAll == AllStats(records).total && countAll == AllStats(records).count
  {
    stats := Aggregate(records);
    totalAll, countAll := 0, 0;
    var names := stats.Keys;
    ghost var left := stats;
    while names != {}
      invariant names == left.Keys && forall k :: k in left ==> k in stats && left[k] == stats[k]
      invariant totalAll + MapStats(left).total == MapStats(stats).total
      invariant countAll + MapStats(left).count == MapStats(stats).count
      decreases |names|
    {
      var name :| name in names;
      MapStatsAt(left, name);
      totalAll := totalAll + stats[name].total;
      countAll := countAll + stats[name].count;
      names := names - {name};
      left := left - {name};
    }
  }

  predicate HasCompleted(recs: seq<ProfileRecord>, name: string) {
    exists r :: r in recs && r.completed && r.key.name == name
  }

  /** The statistics of the records: an entry for each name with a completed record, and no other. */
  ghost predicate StatsOf(stats: map<string, ScopeStats>, recs: seq<ProfileRecord>) {
    (forall name :: EntryOf(stats, recs, name)) && MapStats(stats) == AllStats(recs)
  }

  predicate EntryOf(stats: map<string, ScopeStats>, recs: seq<ProfileRecord>, name: string) {
    && (name in stats <==> HasCompleted(recs, name))
    && NameStats(recs, name) == if name in stats then stats[name] else ScopeStats(0, 0)
  }

  function AddRecord(stats: map<string, ScopeStats>, rec: ProfileRecord): map<string, ScopeStats> {
    if !rec.completed then stats
    else
      var s := if rec.key.name in stats then stats[rec.key.name] else ScopeStats(0, 0);
      stats[rec.key.name := ScopeStats(s.total + Duration(rec), s.count + 1)]
  }

  lemma HasCompletedNext(recs: seq<ProfileRecord>, rec: ProfileRecord, name: string)
    ensures HasCompleted(recs + [rec], name) <==> HasCompleted(recs, name) || (rec.completed && rec.key.name == name)
  {
    assert rec in recs + [rec];
    if HasCompleted(recs, name) {
      var r :| r in recs && r.completed && r.key.name == name;
      assert r in recs + [rec];
    }
  }

  lemma StatsNext(recs: seq<ProfileRecord>, rec: ProfileRecord, name: string)
    ensures NameStats(recs + [rec], name)
         == if rec.completed && rec.key.name == name
            then ScopeStats(NameStats(recs, name).total + Duration(rec), NameStats(recs, name).count + 1)
            else NameStats(recs, name)
    ensures AllStats(recs + [rec])
         == if rec.completed then ScopeStats(AllStats(recs).total + Duration(rec), AllStats(recs).count + 1)
            else AllStats(recs)
  {
    assert (recs + [rec])[..|recs|] == recs;
  }

  lemma StatsOfNext(stats: map<string, ScopeStats>, recs: seq<ProfileRecord>, rec: ProfileRecord)
    requires StatsOf(stats, recs)
    ensures StatsOf(AddRecord(stats, rec), recs + [rec])
  {
    forall name ensures EntryOf(AddRecord(stats, rec), recs + [rec], name) {
      EntryNext(stats, recs, rec, name);
    }
    StatsNext(recs, rec, rec.key.name);
    if rec.completed { MapStatsAdd(stats, rec.key.name, Duration(rec)); }
  }

  lemma EntryNext(stats: map<string, ScopeStats>, recs: seq<ProfileRecord>, rec: ProfileRecord, name: string)
    requires EntryOf(stats, recs, name)
    ensures EntryOf(AddRecord(stats, rec), recs + [rec], name)
  {
    HasCompletedNext(recs, rec, name);
    StatsNext(recs, rec, name);
  }

  method Aggregate(records: seq<ProfileRecord>) returns (stats: map<string, ScopeStats>)
    ensures StatsOf(stats, records)
  {
    stats := map[];
    assert forall name :: EntryOf(map[], [], name);
    assert records[..0] == [];
    for i := 0 to |records|
      invariant StatsOf(stats, records[..i])
    {
      var rec := records[i];
      StatsOfNext(stats, records[..i], rec);
      assert records[..i + 1] == records[..i] + [rec];
      stats := AddRecord(stats, rec);
    }
    assert records[..|records|] == records;
  }
}
