/** The tables the service reads and writes, as its queries see them, and the filter
    on the cluster list (storage.go, cluster_filter.go). */
module DifferTables {
  import opened Wrappers
  import opened DifferTypes
  import opened DifferSelection

  // ----- the cluster list -----

  predicate Distinct(entries: seq<Entry>) {
    forall i, j :: 0 <= i < j < |entries| ==> entries[i].cluster != entries[j].cluster
  }

  // A row of the `new_reports` table.
  datatype NewReport = NewReport(entry: Entry, report: Report)

  /** The order of names, as the database sorts them. */
  predicate NameBefore(a: string, b: string) {
    b != [] && (a == [] || a[0] < b[0] || (a[0] == b[0] && NameBefore(a[1..], b[1..])))
  }

  lemma {:induction false} NamesAreOrdered(a: string, b: string, c: string)
    ensures NameBefore(a, b) || NameBefore(b, a) <==> a != b
    ensures !(NameBefore(a, b) && NameBefore(b, a))
    ensures NameBefore(a, b) && NameBefore(b, c) ==> NameBefore(a, c)
  {
    if a != [] && b != [] {
      assert a == [a[0]] + a[1..] && b == [b[0]] + b[1..];
      NamesAreOrdered(a[1..], b[1..], if c == [] then [] else c[1..]);
    }
  }

  /** One more row of the query: DISTINCT ON keeps the latest row of each cluster. */
  function KeepLatest(entries: seq<Entry>, e: Entry): seq<Entry> {
    if entries == [] || NameBefore(e.cluster, entries[0].cluster) then [e] + entries
    else if entries[0].cluster == e.cluster then
      [if entries[0].updatedAt < e.updatedAt then e else entries[0]] + entries[1..]
    else [entries[0]] + KeepLatest(entries[1..], e)
  }

  /** ReadClusterList: the query over the rows of `new_reports`. */
  function ReadClusterList(rows: seq<NewReport>): seq<Entry> {
    if rows == [] then [] else KeepLatest(ReadClusterList(Init(rows)), Last(rows).entry)
  }

  /** What the query promises: sorted, and for every cluster of the table its latest row. */
  predicate LatestPerCluster(rows: seq<NewReport>, entries: seq<Entry>) {
    && Sorted(entries)
    && (forall e :: e in entries ==> IsLatestRow(rows, e))
    && (forall row :: row in rows ==> Lists(entries, row.entry.cluster))
  }

  predicate Sorted(entries: seq<Entry>) {
    forall i, j :: 0 <= i < j < |entries| ==> NameBefore(entries[i].cluster, entries[j].cluster)
  }

  predicate IsLatestRow(rows: seq<NewReport>, e: Entry) {
    && (exists row :: row in rows && row.entry == e)
    && forall row :: row in rows && row.entry.cluster == e.cluster ==> row.entry.updatedAt <= e.updatedAt
  }

  predicate Lists(entries: seq<Entry>, cluster: string) {
    exists e :: e in entries && e.cluster == cluster
  }

  datatype Processing = Processing(filterAllowed: bool, allowed: set<string>, filterBlocked: bool, blocked: set<string>)

  datatype Statistic = Statistic(input: nat, allowed: nat, blocked: nat, filtered: nat)

  function Lets(p: Processing): Entry -> bool {
    (e: Entry) =>
      if p.filterAllowed then e.cluster in p.allowed
      else !p.filterBlocked || e.cluster !in p.blocked
  }

  /** filterClusterList. The allow list wins when both lists are switched on. */
  method FilterClusterList(clusters: seq<Entry>, p: Processing) returns (filtered: seq<Entry>, stat: Statistic)
    ensures filtered == Filter(clusters, Lets(p))
    ensures forall e :: e in filtered <==> e in clusters && if p.filterAllowed then e.cluster in p.allowed
                                                            else p.filterBlocked ==> e.cluster !in p.blocked
    ensures stat.input == |clusters| && stat.filtered == |filtered|
    ensures stat.allowed == if p.filterAllowed then |filtered| else 0
    ensures stat.blocked == if p.filterAllowed then 0 else |clusters| - |filtered|
  {
    FilterMembers(clusters, Lets(p));
    if !p.filterAllowed && !p.filterBlocked {
      return clusters, Statistic(|clusters|, 0, 0, |clusters|);
    }

    ghost var lets := Lets(p);
    assert Filter(clusters[..0], lets) == [];
    hide Filter;
    filtered, stat := [], Statistic(0, 0, 0, 0);
    for i := 0 to |clusters|
      invariant filtered == Filter(clusters[..i], lets)
      invariant stat.input == i && stat.filtered == |filtered|
      invariant stat.allowed == if p.filterAllowed then |filtered| else 0
      invariant stat.blocked == if p.filterAllowed then 0 else i - |filtered|
    {
      FilterNext(clusters, i, lets);
      var e := clusters[i];
      stat := stat.(input := stat.input + 1);
      if p.filterAllowed {
        if e.cluster in p.allowed {
          stat := stat.(allowed := stat.allowed + 1, filtered := stat.filtered + 1);
          filtered := filtered + [e];
        }
      } else if e.cluster in p.blocked {
        stat := stat.(blocked := stat.blocked + 1);
      } else {
        stat := stat.(filtered := stat.filtered + 1);
        filtered := filtered + [e];
      }
    }
    assert clusters[..|clusters|] == clusters;
  }

  /** Filtering keeps one entry per cluster. */
  lemma {:induction false} FilterKeepsDistinct(entries: seq<Entry>, keep: Entry -> bool)
    requires Distinct(entries)
    ensures Distinct(Filter(entries, keep))
  {
    if entries != [] {
      FilterKeepsDistinct(entries[1..], keep);
      FilterMembers(entries[1..], keep);
      var rest := Filter(entries[1..], keep);
      forall j | 0 <= j < |rest| ensures rest[j].cluster != entries[0].cluster {
        assert rest[j] in rest;
      }
    }
  }

  lemma SortedIsDistinct(entries: seq<Entry>)
    requires Sorted(entries)
    ensures Distinct(entries)
  {
    forall i, j | 0 <= i < j < |entries|
      ensures entries[i].cluster != entries[j].cluster
    {
      NamesAreOrdered(entries[i].cluster, entries[j].cluster, []);
    }
  }

  /** The better of two entries of one cluster. */
  predicate Wins(x: Entry, entries: seq<Entry>, e: Entry) {
    && (x == e || x in entries) && e.updatedAt <= x.updatedAt
    && forall y :: y in entries && y.cluster == e.cluster ==> y.updatedAt <= x.updatedAt
  }

  /** The list stays sorted, with one cluster at its latest and the others as they were. */
  ghost predicate Keeps(kept: seq<Entry>, entries: seq<Entry>, e: Entry) {
    && Sorted(kept) && Lists(kept, e.cluster)
    && (forall x: Entry :: x.cluster != e.cluster ==> (x in kept <==> x in entries))
    && (forall x :: x in kept && x.cluster == e.cluster ==> Wins(x, entries, e))
  }

  lemma SortedRest(entries: seq<Entry>)
    requires Sorted(entries) && entries != []
    ensures Sorted(entries[1..])
    ensures forall y :: y in entries[1..] ==>
              NameBefore(entries[0].cluster, y.cluster) && y.cluster != entries[0].cluster
  {
    forall y | y in entries[1..]
      ensures NameBefore(entries[0].cluster, y.cluster) && y.cluster != entries[0].cluster
    {
      NamesAreOrdered(entries[0].cluster, y.cluster, []);
    }
  }

  lemma PutInFront(first: Entry, rest: seq<Entry>)
    requires Sorted(rest) && forall y :: y in rest ==> NameBefore(first.cluster, y.cluster)
    ensures Sorted([first] + rest)
  {
  }

  lemma KeptInFront(entries: seq<Entry>, e: Entry)
    requires Sorted(entries) && (entries == [] || NameBefore(e.cluster, entries[0].cluster))
    ensures Keeps([e] + entries, entries, e)
  {
    forall y | y in entries
      ensures NameBefore(e.cluster, y.cluster) && y.cluster != e.cluster
    {
      SortedRest(entries);
      NamesAreOrdered(e.cluster, entries[0].cluster, y.cluster);
      NamesAreOrdered(e.cluster, y.cluster, []);
    }
    PutInFront(e, entries);
    assert ([e] + entries)[0] == e;
  }

  lemma KeptInPlace(entries: seq<Entry>, e: Entry, best: Entry)
    requires Sorted(entries) && entries != [] && entries[0].cluster == e.cluster
    requires best == if entries[0].updatedAt < e.updatedAt then e else entries[0]
    ensures Keeps([best] + entries[1..], entries, e)
  {
    SortedRest(entries);
    PutInFront(best, entries[1..]);
    assert entries == [entries[0]] + entries[1..];
    assert ([best] + entries[1..])[0] == best;
  }

  lemma KeptFurther(first: Entry, rest: seq<Entry>, e: Entry, kept: seq<Entry>)
    requires Sorted([first] + rest) && NameBefore(first.cluster, e.cluster) && Keeps(kept, rest, e)
    ensures Keeps([first] + kept, [first] + rest, e)
  {
    hide NameBefore, Sorted;
    var before, after := [first] + rest, [first] + kept;
    SortedRest(before);
    assert before[1..] == rest && before[0] == first;
    NamesAreOrdered(first.cluster, e.cluster, []);
    forall y | y in kept
      ensures NameBefore(first.cluster, y.cluster)
    {
      assert y.cluster != e.cluster ==> y in rest;
    }
    PutInFront(first, kept);
    var x :| x in kept && x.cluster == e.cluster;
    assert x in after;
    assert forall y :: y in after <==> y == first || y in kept;
    assert forall y :: y in before <==> y == first || y in rest;
  }

  /** One more row of the query does that. */
  lemma {:induction false} KeepLatestKeeps(entries: seq<Entry>, e: Entry)
    requires Sorted(entries)
    ensures Keeps(KeepLatest(entries, e), entries, e)
  {
    hide Keeps;
    if entries == [] || NameBefore(e.cluster, entries[0].cluster) {
      KeptInFront(entries, e);
    } else {
      NamesAreOrdered(e.cluster, entries[0].cluster, []);
      if entries[0].cluster == e.cluster {
        KeptInPlace(entries, e, if entries[0].updatedAt < e.updatedAt then e else entries[0]);
      } else {
        SortedRest(entries);
        KeepLatestKeeps(entries[1..], e);
        assert entries == [entries[0]] + entries[1..];
        KeptFurther(entries[0], entries[1..], e, KeepLatest(entries[1..], e));
      }
    }
  }

  lemma {:induction false} ReadClusterListIsLatest(rows: seq<NewReport>)
    ensures LatestPerCluster(rows, ReadClusterList(rows))
  {
    if rows != [] {
      var before, last, entries := Init(rows), Last(rows), ReadClusterList(Init(rows));
      ReadClusterListIsLatest(before);
      KeepLatestKeeps(entries, last.entry);
      assert rows == before + [last];
      var kept := KeepLatest(entries, last.entry);
      forall x | x in kept
        ensures IsLatestRow(rows, x)
      {
        if x in entries {
          var row :| row in before && row.entry == x;
          assert row in rows;
        }
        forall row | row in rows && row.entry.cluster == x.cluster
          ensures row.entry.updatedAt <= x.updatedAt
        {
          if row in before {
            var y :| y in entries && y.cluster == row.entry.cluster;
          }
        }
      }
      forall row | row in rows
        ensures Lists(kept, row.entry.cluster)
      {
        if row in before && row.entry.cluster != last.entry.cluster {
          var y :| y in entries && y.cluster == row.entry.cluster;
          assert y in kept;
        }
      }
    }
  }

  /** The list a run works on: read from the table, then filtered. */
  function RunList(rows: seq<NewReport>, p: Processing): seq<Entry> {
    Filter(ReadClusterList(rows), Lets(p))
  }

  /** A run has one entry per cluster, whatever the table holds. */
  lemma RunListIsDistinct(rows: seq<NewReport>, p: Processing)
    ensures Distinct(RunList(rows, p))
    ensures forall e :: e in RunList(rows, p) <==> e in ReadClusterList(rows) && Lets(p)(e)
  {
    ReadClusterListIsLatest(rows);
    SortedIsDistinct(ReadClusterList(rows));
    FilterKeepsDistinct(ReadClusterList(rows), Lets(p));
    FilterMembers(ReadClusterList(rows), Lets(p));
  }

  // ----- the last notified records -----

  // The query asks for the state with number 1, whatever the "sent" state's number is.
  const QUERIED_STATE := 1

  predicate Matches(r: Record, state: int, orgs: set<nat>, cluster: string, target: Target) {
    r.target == target && r.state == state && r.org in orgs && r.cluster == cluster
  }

  /** The record in a state with the latest notification, of equals the newest row. */
  function LatestIn(rows: seq<Record>, state: int, orgs: set<nat>, cluster: string, target: Target): Option<Record> {
    if rows == [] then None
    else
      var r, rest := Last(rows), LatestIn(Init(rows), state, orgs, cluster, target);
      if Matches(r, state, orgs, cluster, target) && (rest.None? || rest.value.notifiedAt <= r.notifiedAt) then Some(r)
      else rest
  }

  /** The record that the query regards as the last one sent. */
  function LatestSent(rows: seq<Record>, orgs: set<nat>, cluster: string, target: Target): Option<Record> {
    LatestIn(rows, QUERIED_STATE, orgs, cluster, target)
  }

  function Orgs(entries: seq<Entry>): set<nat> {
    set e | e in entries :: e.org
  }

  function Clusters(entries: seq<Entry>): set<string> {
    set e | e in entries :: e.cluster
  }

  function Keys(rows: seq<Record>): set<ClusterOrgKey> {
    set r | r in rows :: ClusterOrgKey(r.org, r.cluster)
  }

  /** Whether a key's record is the latest one of its cluster and still in cool-down. */
  predicate InCooldown(rows: seq<Record>, state: int, entries: seq<Entry>, now: int, c: Config, key: ClusterOrgKey) {
    && c.cooldown.Some?
    && key.cluster in Clusters(entries)
    && var latest := LatestIn(rows, state, Orgs(entries), key.cluster, c.target);
       && latest.Some? && latest.value.org == key.org
       && latest.value.notifiedAt > now - c.cooldown.value
  }

  /** Per cluster its latest record in a state, as far as it is in cool-down. */
  function RecordsIn(rows: seq<Record>, state: int, entries: seq<Entry>, now: int, c: Config): Reported {
    map key | key in Keys(rows) && InCooldown(rows, state, entries, now, c, key)
      :: LatestIn(rows, state, Orgs(entries), key.cluster, c.target).value
  }

  function PreviouslyReported(rows: seq<Record>, entries: seq<Entry>, now: int, c: Config): Reported {
    RecordsIn(rows, QUERIED_STATE, entries, now, c)
  }

  lemma {:induction false} LatestInMatches(rows: seq<Record>, state: int, orgs: set<nat>, cluster: string,
                                           target: Target)
    ensures var latest := LatestIn(rows, state, orgs, cluster, target);
            && (latest.Some? ==> latest.value in rows && Matches(latest.value, state, orgs, cluster, target))
            && (forall r :: r in rows && Matches(r, state, orgs, cluster, target) ==>
                  latest.Some? && r.notifiedAt <= latest.value.notifiedAt)
    decreases |rows|
  {
    if rows != [] {
      LatestInMatches(Init(rows), state, orgs, cluster, target);
      assert rows == Init(rows) + [Last(rows)];
    }
  }

  lemma InCooldownHasRow(rows: seq<Record>, state: int, entries: seq<Entry>, now: int, c: Config, key: ClusterOrgKey)
    requires InCooldown(rows, state, entries, now, c, key)
    ensures key in Keys(rows)
  {
    LatestInMatches(rows, state, Orgs(entries), key.cluster, c.target);
    var r := LatestIn(rows, state, Orgs(entries), key.cluster, c.target).value;
    assert key == ClusterOrgKey(r.org, r.cluster);
  }

  /** What the records say about one key. */
  lemma RecordOf(rows: seq<Record>, state: int, entries: seq<Entry>, now: int, c: Config, key: ClusterOrgKey)
    ensures var records := RecordsIn(rows, state, entries, now, c);
            && (key in records <==> InCooldown(rows, state, entries, now, c, key))
            && (key in records ==> Some(records[key]) == LatestIn(rows, state, Orgs(entries), key.cluster, c.target))
  {
    if InCooldown(rows, state, entries, now, c, key) {
      InCooldownHasRow(rows, state, entries, now, c, key);
    }
  }

  /** The result set of the query: per listed cluster its latest record, if recent. */
  function ResultSet(rows: seq<Record>, entries: seq<Entry>, listed: seq<Entry>, now: int, c: Config): seq<Record> {
    if listed == [] || c.cooldown.None? then []
    else
      var latest := LatestSent(rows, Orgs(entries), Last(listed).cluster, c.target);
      ResultSet(rows, entries, Init(listed), now, c)
      + (if latest.Some? && latest.value.notifiedAt > now - c.cooldown.value then [latest.value] else [])
  }

  lemma {:induction false} ResultSetMembers(rows: seq<Record>, entries: seq<Entry>, listed: seq<Entry>, now: int,
                                            c: Config)
    requires forall e :: e in listed ==> e in entries
    ensures forall r :: r in ResultSet(rows, entries, listed, now, c) <==>
                          && c.cooldown.Some?
                          && r.cluster in Clusters(listed)
                          && LatestSent(rows, Orgs(entries), r.cluster, c.target) == Some(r)
                          && r.notifiedAt > now - c.cooldown.value
    decreases |listed|
  {
    if listed != [] && c.cooldown.Some? {
      ResultSetMembers(rows, entries, Init(listed), now, c);
      LatestInMatches(rows, QUERIED_STATE, Orgs(entries), Last(listed).cluster, c.target);
      assert listed == Init(listed) + [Last(listed)];
      assert Clusters(listed) == Clusters(Init(listed)) + {Last(listed).cluster};
    }
  }

  /** ReadLastNotifiedRecordForClusterList: the loop over the result set. */
  method ReadLastNotifiedRecordForClusterList(rows: seq<Record>, entries: seq<Entry>, now: int, c: Config)
    returns (records: Reported)
    ensures records == PreviouslyReported(rows, entries, now, c)
  {
    records := map[];
    if |entries| == 0 {
      return;
    }
    if c.cooldown.None? {
      return;
    }
    var results := ResultSet(rows, entries, entries, now, c);
    ResultSetMembers(rows, entries, entries, now, c);
    for i := 0 to |results|
      invariant forall key :: key in records ==> exists k :: 0 <= k < i && KeyOfRecord(results[k]) == key
      invariant forall k :: 0 <= k < i ==>
                  KeyOfRecord(results[k]) in records && records[KeyOfRecord(results[k])] == results[k]
    {
      var r := results[i];
      forall k | 0 <= k < i && KeyOfRecord(results[k]) == KeyOfRecord(r) ensures results[k] == r {
        assert results[k] in results && r in results;
      }
      records := records[KeyOfRecord(r) := r];
    }
    RecordsArePreviouslyReported(rows, entries, now, c, results, records);
  }

  function KeyOfRecord(r: Record): ClusterOrgKey {
    ClusterOrgKey(r.org, r.cluster)
  }

  lemma RecordsArePreviouslyReported(rows: seq<Record>, entries: seq<Entry>, now: int, c: Config,
                                     results: seq<Record>, records: Reported)
    requires c.cooldown.Some? && results == ResultSet(rows, entries, entries, now, c)
    requires forall key :: key in records ==> exists k :: 0 <= k < |results| && KeyOfRecord(results[k]) == key
    requires forall k :: 0 <= k < |results| ==>
               KeyOfRecord(results[k]) in records && records[KeyOfRecord(results[k])] == results[k]
    ensures records == PreviouslyReported(rows, entries, now, c)
  {
    var expected := PreviouslyReported(rows, entries, now, c);
    ResultSetMembers(rows, entries, entries, now, c);
    forall key | key in records ensures key in expected && records[key] == expected[key] {
      var k :| 0 <= k < |results| && KeyOfRecord(results[k]) == key;
      assert results[k] in results;
      assert InCooldown(rows, QUERIED_STATE, entries, now, c, key);
      InCooldownHasRow(rows, QUERIED_STATE, entries, now, c, key);
    }
    forall key | key in expected ensures key in records {
      LatestInMatches(rows, QUERIED_STATE, Orgs(entries), key.cluster, c.target);
      var r := expected[key];
      assert r in results && KeyOfRecord(r) == key;
    }
  }

  // ----- read errors -----

  predicate SameReport(a: ReadError, b: ReadError) {
    a.org == b.org && a.cluster == b.cluster && a.updatedAt == b.updatedAt
  }

  predicate ReadErrorExists(errors: seq<ReadError>, e: Entry) {
    exists i :: 0 <= i < |errors| && SameReport(errors[i], ReadError(e.org, e.cluster, e.updatedAt, ""))
  }

  /** At most one row per organization, cluster and report time. */
  predicate ErrorsUnique(errors: seq<ReadError>) {
    forall i, j :: 0 <= i < j < |errors| ==> !SameReport(errors[i], errors[j])
  }
}
