/** What the notification protocol guarantees over every sequence of runs. */
module DifferRuns {
  import opened Wrappers
  import opened DifferTypes
  import opened DifferSelection
  import opened DifferTables
  import opened DifferRun

  // ----- the snapshot -----

  lemma {:induction false} OtherClustersDoNotMatter(rows: seq<Record>, more: seq<Record>, state: int, orgs: set<nat>,
                                                    cluster: string, target: Target)
    requires forall r :: r in more ==> r.cluster != cluster
    ensures LatestIn(rows + more, state, orgs, cluster, target) == LatestIn(rows, state, orgs, cluster, target)
    decreases |more|
  {
    if more == [] {
      assert rows + more == rows;
    } else {
      assert Init(rows + more) == rows + Init(more) && Last(rows + more) == Last(more);
      assert Last(more) in more;
      OtherClustersDoNotMatter(rows, Init(more), state, orgs, cluster, target);
    }
  }

  /** What the previous records say about one cluster. */
  predicate SameAbout(a: Reported, b: Reported, key: ClusterOrgKey) {
    (key in a <==> key in b) && (key in a ==> a[key] == b[key])
  }

  lemma PreviousOf(rows: seq<Record>, entries: seq<Entry>, now: int, c: Config, key: ClusterOrgKey)
    ensures var previous := PreviouslyReported(rows, entries, now, c);
            && (key in previous <==> InCooldown(rows, QUERIED_STATE, entries, now, c, key))
            && (key in previous ==> Some(previous[key]) == LatestSent(rows, Orgs(entries), key.cluster, c.target))
  {
    RecordOf(rows, QUERIED_STATE, entries, now, c, key);
  }

  lemma RowsOfOthers(rows: seq<Record>, more: seq<Record>, entries: seq<Entry>, now: int, c: Config, key: ClusterOrgKey)
    requires forall r :: r in more ==> r.cluster != key.cluster
    ensures SameAbout(PreviouslyReported(rows + more, entries, now, c), PreviouslyReported(rows, entries, now, c), key)
  {
    OtherClustersDoNotMatter(rows, more, QUERIED_STATE, Orgs(entries), key.cluster, c.target);
    PreviousOf(rows + more, entries, now, c, key);
    PreviousOf(rows, entries, now, c, key);
  }

  /** Two set-ups of a run that differ only in what they remember of other clusters. */
  ghost predicate SameFor(a: Setup, b: Setup, e: Entry) {
    a == b.(previous := a.previous) && SameAbout(a.previous, b.previous, KeyOf(e))
  }

  lemma SameStep(a: Setup, b: Setup, w: World, e: Entry, x: Input)
    requires SameFor(a, b, e)
    ensures ProcessCluster(a, w, e, x) == ProcessCluster(b, w, e, x)
  {
    if KindOf(w, e, x) == Processed {
      SameSelection(a, b, e, Items(x.reading.report));
    }
  }

  lemma {:induction false} SameSelection(a: Setup, b: Setup, e: Entry, items: seq<Item>)
    requires SameFor(a, b, e)
    ensures Selected(a, e, items) == Selected(b, e, items)
  {
    if items != [] {
      SameSelection(a, b, e, items[1..]);
    }
  }

  /** One cluster only adds rows of its own. */
  lemma StepAddsOwnRows(s: Setup, w: World, e: Entry, x: Input)
    ensures var w' := ProcessCluster(s, w, e, x);
            && |w'.reported| >= |w.reported| && w'.reported[..|w.reported|] == w.reported
            && (forall r :: r in w'.reported[|w.reported|..] ==> r.cluster == e.cluster && r.org == e.org)
  {
  }

  lemma {:induction false} AllAddOwnRows(s: Setup, w: World, entries: seq<Entry>, inputs: seq<Input>)
    requires |inputs| == |entries|
    ensures var w' := ProcessAll(s, w, entries, inputs);
            && |w'.reported| >= |w.reported| && w'.reported[..|w.reported|] == w.reported
            && (forall r :: r in w'.reported[|w.reported|..] ==> Lists(entries, r.cluster))
    decreases |entries|
  {
    if entries != [] {
      var e, before := Last(entries), Init(entries);
      AllAddOwnRows(s, w, before, Init(inputs));
      var w' := ProcessAll(s, w, before, Init(inputs));
      var w'' := ProcessCluster(s, w', e, Last(inputs));
      StepAddsOwnRows(s, w', e, Last(inputs));
      var n := |w.reported|;
      assert w''.reported[n..] == w'.reported[n..] + w''.reported[|w'.reported|..];
      assert entries == before + [e];
      forall r | r in w''.reported[n..]
        ensures Lists(entries, r.cluster)
      {
        if r in w'.reported[n..] {
          var y :| y in before && y.cluster == r.cluster;
          assert y in entries;
        } else {
          assert e in entries && r.cluster == e.cluster;
        }
      }
    }
  }

  lemma NewRowsAreOthers(s: Setup, w: World, done: seq<Entry>, inputs: seq<Input>, e: Entry)
    requires |inputs| == |done| && !Lists(done, e.cluster)
    ensures var rows := ProcessAll(s, w, done, inputs).reported;
            && |rows| >= |w.reported| && rows[..|w.reported|] == w.reported
            && forall k :: |w.reported| <= k < |rows| ==> rows[k].cluster != e.cluster
  {
    var rows := ProcessAll(s, w, done, inputs).reported;
    AllAddOwnRows(s, w, done, inputs);
    forall k | |w.reported| <= k < |rows|
      ensures rows[k].cluster != e.cluster
    {
      assert rows[k] == rows[|w.reported|..][k - |w.reported|];
      assert rows[k] in rows[|w.reported|..];
    }
  }

  /** The snapshot of a run, seen when other clusters have been processed, agrees with
      the table as it is then about every cluster still to come. */
  lemma SnapshotStaysCurrent(c: Config, w: World, r: RunInput, done: seq<Entry>, inputs: seq<Input>, e: Entry)
    requires |inputs| == |done| && !Lists(done, e.cluster)
    ensures SameFor(SetupOf(c, w, r), SetupOf(c, ProcessAll(SetupOf(c, w, r), w, done, inputs), r), e)
  {
    var w' := ProcessAll(SetupOf(c, w, r), w, done, inputs);
    NewRowsAreOthers(SetupOf(c, w, r), w, done, inputs, e);
    var more := w'.reported[|w.reported|..];
    assert w'.reported == w.reported + more;
    RowsOfOthers(w.reported, more, r.Entries(), r.now, c, KeyOf(e));
  }

  /** The same run with the previous records read again before every cluster. */
  function ProcessRereading(c: Config, w: World, r: RunInput, entries: seq<Entry>, inputs: seq<Input>): World
    requires |inputs| == |entries|
    decreases |entries|
  {
    if entries == [] then w
    else
      var w' := ProcessRereading(c, w, r, Init(entries), Init(inputs));
      ProcessCluster(SetupOf(c, w', r), w', Last(entries), Last(inputs))
  }

  lemma LastIsNew(entries: seq<Entry>)
    requires entries != [] && Distinct(entries)
    ensures Distinct(Init(entries)) && !Lists(Init(entries), Last(entries).cluster)
  {
  }

  lemma {:induction false} RereadingUpTo(c: Config, w: World, r: RunInput, entries: seq<Entry>, inputs: seq<Input>)
    requires |inputs| == |entries| && Distinct(entries)
    ensures ProcessAll(SetupOf(c, w, r), w, entries, inputs) == ProcessRereading(c, w, r, entries, inputs)
    decreases |entries|
  {
    if entries != [] {
      var s, e := SetupOf(c, w, r), Last(entries);
      LastIsNew(entries);
      RereadingUpTo(c, w, r, Init(entries), Init(inputs));
      SnapshotStaysCurrent(c, w, r, Init(entries), Init(inputs), e);
      var w' := ProcessAll(s, w, Init(entries), Init(inputs));
      SameStep(s, SetupOf(c, w', r), w', e, Last(inputs));
    }
  }

  /** Reading the previous records once is as good as reading them before every
      cluster, because the query for the clusters has one entry per cluster and the
      filter keeps a part of them. */
  lemma SnapshotEqualsRereading(c: Config, w: World, r: RunInput)
    requires r.Valid()
    ensures RunOnce(c, w, r) == ProcessRereading(c, w, r, r.Entries(), r.inputs)
  {
    RunListIsDistinct(r.newReports, r.processing);
    RereadingUpTo(c, w, r, r.Entries(), r.inputs);
  }

  // ----- the protocol's invariant -----

  /** A run as the deployment makes it: each cluster with its one organization, writes
      that succeed, a clock that has moved on. */
  ghost predicate Regular(orgOf: string -> nat, w: World, r: RunInput) {
    && r.Valid()
    && (forall e :: e in r.Entries() ==> e.org == orgOf(e.cluster))
    && (forall x :: x in r.inputs ==> x.writes && r.now <= x.notifiedAt)
    && (forall row :: row in w.reported ==> row.notifiedAt < r.now)
  }

  /** The rows of a cluster belong to its organization and go forward in time. */
  ghost predicate Ordered(c: Config, orgOf: string -> nat, rows: seq<Record>) {
    && (forall i :: 0 <= i < |rows| ==> rows[i].org == orgOf(rows[i].cluster) && rows[i].target == c.target)
    && (forall i, j :: 0 <= i < j < |rows| && rows[i].cluster == rows[j].cluster ==>
          rows[i].notifiedAt < rows[j].notifiedAt)
  }

  /** A message and the record it left. */
  ghost predicate Recorded(c: Config, rows: seq<Record>, m: Message) {
    && m.row < |rows|
    && rows[m.row].cluster == m.cluster && rows[m.row].org == m.org && rows[m.row].notifiedAt == m.at
    && rows[m.row].state == c.states.sent
    && forall item :: item in m.items ==> IssueIn(Items(rows[m.row].report), item)
  }

  /** Between two messages with one issue less than a cool-down apart lies a sent
      record of the cluster that lacks the issue. */
  ghost predicate Separated(c: Config, rows: seq<Record>, m1: Message, m2: Message) {
    m1.cluster == m2.cluster && c.cooldown.Some? && m2.at - m1.at < c.cooldown.value ==>
      forall a, b :: a in m1.items && b in m2.items && IssuesEqual(a, b) ==>
        exists k :: m1.row < k < m2.row && k < |rows| && ForgetsAt(c, rows, k, m1.cluster, b)
  }

  predicate ForgetsAt(c: Config, rows: seq<Record>, k: nat, cluster: string, issue: Item)
    requires k < |rows|
  {
    rows[k].cluster == cluster && rows[k].state == c.states.sent && !IssueIn(Items(rows[k].report), issue)
  }

  ghost predicate Consistent(c: Config, orgOf: string -> nat, w: World) {
    && Ordered(c, orgOf, w.reported)
    && (forall i :: 0 <= i < |w.log| ==> Recorded(c, w.reported, w.log[i]))
    && (forall i, j :: 0 <= i < j < |w.log| ==> Separated(c, w.reported, w.log[i], w.log[j]))
  }

  // ----- one cluster keeps it -----

  lemma {:induction false} AcceptedWereChosen(chosen: seq<Item>, known: set<(string, string)>, posted: nat -> bool,
                                              n: nat)
    ensures forall item :: item in Accepted(chosen, known, posted, n) ==>
              item in chosen && (item.component, item.errorKey) in known
    decreases |chosen|
  {
    if chosen != [] {
      if (chosen[0].component, chosen[0].errorKey) !in known {
        AcceptedWereChosen(chosen[1..], known, posted, n);
      } else {
        AcceptedWereChosen(chosen[1..], known, posted, n + 1);
      }
    }
  }

  /** Something is accepted exactly when a sent record is due, and only selected hits
      are accepted. */
  lemma OutcomeIsSound(c: Config, chosen: seq<Item>, x: Input)
    ensures var outcome := OutcomeOf(c, chosen, x);
            && (outcome.accepted != [] <==> outcome.verdict == Sent)
            && (forall item :: item in outcome.accepted ==> item in chosen)
  {
    if c.target.ServiceLog? && x.rendering.Rendered? {
      AcceptedWereChosen(chosen, x.rendering.known, x.posted, 0);
    }
  }

  lemma SelectedMeans(s: Setup, e: Entry, items: seq<Item>)
    ensures forall item :: item in Selected(s, e, items) <==> item in items && Selects(s, e, item)
  {
    FilterMembers(items, IsSelected(s, e));
  }

  /** An accepted hit is in the record stored with it. */
  lemma AcceptedIsStored(s: Setup, e: Entry, x: Input, report: Report)
    ensures forall item :: item in Result(s, e, x, report).accepted ==>
              IssueIn(Items(StoredReport(s.disabled, e, report)), item)
  {
    var chosen := Selected(s, e, Items(report));
    var stored := Items(StoredReport(s.disabled, e, report));
    OutcomeIsSound(s.config, chosen, x);
    SelectedMeans(s, e, Items(report));
    RemovalIsHarmless(s, e, report);
    forall item | item in Result(s, e, x, report).accepted
      ensures IssueIn(stored, item)
    {
      assert item in stored;
      var i :| 0 <= i < |stored| && stored[i] == item;
      assert IssuesEqual(stored[i], item);
    }
  }

  lemma IssueInIsSymmetric(items: seq<Item>, a: Item, b: Item)
    requires IssueIn(items, a) && IssuesEqual(a, b)
    ensures IssueIn(items, b)
  {
    var i :| 0 <= i < |items| && IssuesEqual(items[i], a);
    assert IssuesEqual(items[i], b);
  }

  /** A cluster with a sent record inside the cool-down is compared with its latest
      sent record, which is not older. */
  lemma RecentRecordIsCompared(c: Config, orgOf: string -> nat, rows: seq<Record>, entries: seq<Entry>, now: int,
                               e: Entry, k: nat)
    requires Ordered(c, orgOf, rows) && c.states.sent == QUERIED_STATE && c.cooldown.Some?
    requires e in entries && e.org == orgOf(e.cluster)
    requires k < |rows| && rows[k].cluster == e.cluster && rows[k].state == c.states.sent
    requires rows[k].notifiedAt > now - c.cooldown.value
    ensures var previous := PreviouslyReported(rows, entries, now, c);
            && KeyOf(e) in previous
            && exists j :: k <= j < |rows| && rows[j] == previous[KeyOf(e)]
                           && rows[j].cluster == e.cluster && rows[j].state == c.states.sent
  {
    var orgs := Orgs(entries);
    LatestInMatches(rows, QUERIED_STATE, orgs, e.cluster, c.target);
    assert rows[k] in rows && Matches(rows[k], QUERIED_STATE, orgs, e.cluster, c.target);
    var latest := LatestSent(rows, orgs, e.cluster, c.target).value;
    PreviousOf(rows, entries, now, c, KeyOf(e));
    var j :| 0 <= j < |rows| && rows[j] == latest;
    assert k <= j;
  }

  /** What holds just before a cluster is processed. */
  ghost predicate Ready(c: Config, orgOf: string -> nat, s: Setup, w: World, r: RunInput, e: Entry, x: Input) {
    && Consistent(c, orgOf, w) && c.states.sent == QUERIED_STATE && s.config == c
    && e in r.Entries() && e.org == orgOf(e.cluster) && r.now <= x.notifiedAt
    && SameFor(s, SetupOf(c, w, r), e)
  }

  lemma NewMessageIsSeparated(c: Config, orgOf: string -> nat, s: Setup, w: World, r: RunInput, e: Entry, x: Input,
                              report: Report, m1: Message, rows: seq<Record>)
    requires Ready(c, orgOf, s, w, r, e, x) && Recorded(c, w.reported, m1)
    requires |rows| >= |w.reported| && rows[..|w.reported|] == w.reported
    ensures var accepted := Result(s, e, x, report).accepted;
            Separated(c, rows, m1, Message(e.org, e.cluster, accepted, x.notifiedAt, |w.reported|))
  {
    hide ProcessAll, PreviouslyReported;
    var accepted := Result(s, e, x, report).accepted;
    var m2 := Message(e.org, e.cluster, accepted, x.notifiedAt, |w.reported|);
    var previous := PreviouslyReported(w.reported, r.Entries(), r.now, c);
    if m1.cluster == e.cluster && c.cooldown.Some? && x.notifiedAt - m1.at < c.cooldown.value {
      OutcomeIsSound(c, Selected(s, e, Items(report)), x);
      SelectedMeans(s, e, Items(report));
      RecentRecordIsCompared(c, orgOf, w.reported, r.Entries(), r.now, e, m1.row);
      var k :| m1.row <= k < |w.reported| && w.reported[k] == previous[KeyOf(e)]
               && w.reported[k].cluster == e.cluster && w.reported[k].state == c.states.sent;
      assert rows[k] == w.reported[k];
      forall a, b | a in m1.items && b in accepted && IssuesEqual(a, b)
        ensures exists j :: m1.row < j < m2.row && j < |rows| && ForgetsAt(c, rows, j, m1.cluster, b)
      {
        assert Selects(s, e, b);
        IssueInIsSymmetric(Items(w.reported[m1.row].report), a, b);
        assert ForgetsAt(c, rows, k, m1.cluster, b);
      }
    }
  }

  lemma SeparatedStays(c: Config, rows: seq<Record>, more: seq<Record>, m1: Message, m2: Message)
    requires Separated(c, rows, m1, m2) && m2.row <= |rows|
    ensures Separated(c, rows + more, m1, m2)
  {
    if m1.cluster == m2.cluster && c.cooldown.Some? && m2.at - m1.at < c.cooldown.value {
      forall a, b | a in m1.items && b in m2.items && IssuesEqual(a, b)
        ensures exists k :: m1.row < k < m2.row && k < |rows + more| && ForgetsAt(c, rows + more, k, m1.cluster, b)
      {
        var k :| m1.row < k < m2.row && k < |rows| && ForgetsAt(c, rows, k, m1.cluster, b);
        assert ForgetsAt(c, rows + more, k, m1.cluster, b);
      }
    }
  }

  lemma RecordedStays(c: Config, rows: seq<Record>, more: seq<Record>, m: Message)
    requires Recorded(c, rows, m)
    ensures Recorded(c, rows + more, m)
  {
    assert (rows + more)[m.row] == rows[m.row];
  }

  lemma NotifyKeepsConsistent(c: Config, orgOf: string -> nat, s: Setup, w: World, r: RunInput, e: Entry, x: Input,
                              report: Report)
    requires Ready(c, orgOf, s, w, r, e, x) && x.writes
    requires forall row :: row in w.reported && row.cluster == e.cluster ==> row.notifiedAt < r.now
    ensures Consistent(c, orgOf, Notify(s, w, e, x, report))
  {
    hide Separated, SetupOf, SameFor;
    var w' := Notify(s, w, e, x, report);
    var outcome := Result(s, e, x, report);
    var more := w'.reported[|w.reported|..];
    assert w'.reported == w.reported + more;
    OutcomeIsSound(c, Selected(s, e, Items(report)), x);
    forall i | 0 <= i < |w.log|
      ensures Recorded(c, w'.reported, w.log[i])
    {
      RecordedStays(c, w.reported, more, w.log[i]);
    }
    forall i, j | 0 <= i < j < |w.log|
      ensures Separated(c, w'.reported, w.log[i], w.log[j])
    {
      SeparatedStays(c, w.reported, more, w.log[i], w.log[j]);
    }
    if outcome.accepted != [] {
      var m := Message(e.org, e.cluster, outcome.accepted, x.notifiedAt, |w.reported|);
      assert w'.log == w.log + [m];
      AcceptedIsStored(s, e, x, report);
      assert Recorded(c, w'.reported, m);
      forall i | 0 <= i < |w.log|
        ensures Separated(c, w'.reported, w.log[i], m)
      {
        NewMessageIsSeparated(c, orgOf, s, w, r, e, x, report, w.log[i], w'.reported);
      }
    }
  }

  lemma StepKeepsConsistent(c: Config, orgOf: string -> nat, s: Setup, w: World, r: RunInput, e: Entry, x: Input)
    requires Ready(c, orgOf, s, w, r, e, x) && x.writes
    requires forall row :: row in w.reported && row.cluster == e.cluster ==> row.notifiedAt < r.now
    ensures Consistent(c, orgOf, ProcessCluster(s, w, e, x))
  {
    if KindOf(w, e, x) == Processed {
      NotifyKeepsConsistent(c, orgOf, s, w, r, e, x, x.reading.report);
    }
  }

  lemma {:induction false} ProcessingKeepsConsistent(c: Config, orgOf: string -> nat, w: World, r: RunInput, n: nat)
    requires Consistent(c, orgOf, w) && c.states.sent == QUERIED_STATE && Regular(orgOf, w, r) && n <= |r.Entries()|
    ensures Consistent(c, orgOf, ProcessAll(SetupOf(c, w, r), w, r.Entries()[..n], r.inputs[..n]))
    decreases n
  {
    hide Consistent, SameFor, RunInput.Entries, PreviouslyReported;
    var s, entries := SetupOf(c, w, r), r.Entries();
    if n > 0 {
      var e, x := entries[n - 1], r.inputs[n - 1];
      var done, given := entries[..n - 1], r.inputs[..n - 1];
      assert Init(entries[..n]) == done && Init(r.inputs[..n]) == given;
      assert e in entries && x in r.inputs;
      ProcessingKeepsConsistent(c, orgOf, w, r, n - 1);
      EarlierAreOthers(r, n - 1);
      var w' := ProcessAll(s, w, done, given);
      SnapshotStaysCurrent(c, w, r, done, given, e);
      NewRowsAreOthers(s, w, done, given, e);
      forall row | row in w'.reported && row.cluster == e.cluster
        ensures row.notifiedAt < r.now
      {
        var i :| 0 <= i < |w'.reported| && w'.reported[i] == row;
        assert w'.reported[i] == w.reported[i];
        assert row in w.reported;
      }
      StepKeepsConsistent(c, orgOf, s, w', r, e, x);
    }
  }

  lemma EarlierAreOthers(r: RunInput, n: nat)
    requires n < |r.Entries()|
    ensures !Lists(r.Entries()[..n], r.Entries()[n].cluster)
  {
    RunListIsDistinct(r.newReports, r.processing);
  }

  // ----- whole histories -----

  ghost predicate ValidRuns(runs: seq<RunInput>) {
    forall r :: r in runs ==> r.Valid()
  }

  function Runs(c: Config, runs: seq<RunInput>): World
    requires ValidRuns(runs)
    decreases |runs|
  {
    if runs == [] then World([], [], []) else RunOnce(c, Runs(c, Init(runs)), Last(runs))
  }

  ghost predicate RegularRuns(c: Config, orgOf: string -> nat, runs: seq<RunInput>)
    decreases |runs|
  {
    && ValidRuns(runs)
    && (runs == [] || (RegularRuns(c, orgOf, Init(runs)) && Regular(orgOf, Runs(c, Init(runs)), Last(runs))))
  }

  lemma {:induction false} RunsAreConsistent(c: Config, orgOf: string -> nat, runs: seq<RunInput>)
    requires RegularRuns(c, orgOf, runs) && c.states.sent == QUERIED_STATE
    ensures Consistent(c, orgOf, Runs(c, runs))
    decreases |runs|
  {
    if runs != [] {
      RunsAreConsistent(c, orgOf, Init(runs));
      var r := Last(runs);
      ProcessingKeepsConsistent(c, orgOf, Runs(c, Init(runs)), r, |r.inputs|);
      assert r.Entries()[..|r.inputs|] == r.Entries() && r.inputs[..|r.inputs|] == r.inputs;
    }
  }

  /** Over any regular runs, each with its own rule content, disabled rules and cluster
      list: if one issue of a cluster is in two accepted messages less than a cool-down
      apart, a sent record written after the first and before the second lacks that
      issue. */
  lemma RepeatedOnlyAfterForgetting(c: Config, orgOf: string -> nat, runs: seq<RunInput>, i: nat, j: nat,
                                    a: Item, b: Item)
    requires RegularRuns(c, orgOf, runs) && c.states.sent == QUERIED_STATE && c.cooldown.Some?
    requires var log := Runs(c, runs).log;
             && i < j < |log| && log[i].cluster == log[j].cluster
             && a in log[i].items && b in log[j].items && IssuesEqual(a, b)
             && log[j].at - log[i].at < c.cooldown.value
    ensures var w := Runs(c, runs);
            var m1, m2 := w.log[i], w.log[j];
            && m2.row < |w.reported|
            && exists k :: m1.row < k < m2.row && ForgetsAt(c, w.reported, k, m1.cluster, b)
                           && m1.at < w.reported[k].notifiedAt < m2.at
  {
    RunsAreConsistent(c, orgOf, runs);
    var w := Runs(c, runs);
    var m1, m2 := w.log[i], w.log[j];
    assert Separated(c, w.reported, m1, m2);
    assert Recorded(c, w.reported, m1) && Recorded(c, w.reported, m2);
    var k :| m1.row < k < m2.row && k < |w.reported| && ForgetsAt(c, w.reported, k, m1.cluster, b);
  }

  // ----- read errors -----

  /** A read error that is stored again, because the table did not answer whether it
      has it. */
  predicate StoredBlindly(w: World, e: Entry, x: Input) {
    x.reading.ReadFailed? && !x.errorsRead && x.errorsWritten && ReadErrorExists(w.errors, e)
  }

  lemma StepKeepsErrorsIff(s: Setup, w: World, e: Entry, x: Input)
    ensures ErrorsUnique(ProcessCluster(s, w, e, x).errors) <==> ErrorsUnique(w.errors) && !StoredBlindly(w, e, x)
  {
    var errors := ProcessCluster(s, w, e, x).errors;
    if errors != w.errors {
      var row := ReadError(e.org, e.cluster, e.updatedAt, x.reading.text);
      assert errors == w.errors + [row];
      assert forall i, j :: 0 <= i < j < |w.errors| ==>
               SameReport(errors[i], errors[j]) == SameReport(w.errors[i], w.errors[j]);
      assert forall i :: 0 <= i < |w.errors| ==>
               SameReport(errors[i], errors[|w.errors|]) == SameReport(w.errors[i], row);
    }
  }

  predicate BlindInRun(s: Setup, w: World, entries: seq<Entry>, inputs: seq<Input>)
    requires |inputs| == |entries|
    decreases |entries|
  {
    entries != [] &&
    (|| BlindInRun(s, w, Init(entries), Init(inputs))
     || StoredBlindly(ProcessAll(s, w, Init(entries), Init(inputs)), Last(entries), Last(inputs)))
  }

  lemma {:induction false} RunKeepsErrorsIff(s: Setup, w: World, entries: seq<Entry>, inputs: seq<Input>)
    requires |inputs| == |entries|
    ensures ErrorsUnique(ProcessAll(s, w, entries, inputs).errors)
       <==> ErrorsUnique(w.errors) && !BlindInRun(s, w, entries, inputs)
    ensures (forall x :: x in inputs ==> x.errorsRead || !x.errorsWritten) ==> !BlindInRun(s, w, entries, inputs)
    decreases |entries|
  {
    if entries != [] {
      RunKeepsErrorsIff(s, w, Init(entries), Init(inputs));
      var w' := ProcessAll(s, w, Init(entries), Init(inputs));
      StepKeepsErrorsIff(s, w', Last(entries), Last(inputs));
      assert inputs == Init(inputs) + [Last(inputs)];
    }
  }

  predicate BlindInRuns(c: Config, runs: seq<RunInput>)
    requires ValidRuns(runs)
    decreases |runs|
  {
    runs != [] &&
    (|| BlindInRuns(c, Init(runs))
     || assert Last(runs) in runs;
        var w, r := Runs(c, Init(runs)), Last(runs); BlindInRun(SetupOf(c, w, r), w, r.Entries(), r.inputs))
  }

  /** Over all runs whatsoever, read errors are stored at most once per report if and only
      if none is stored while the table does not answer; the table's key does not
      prevent it. */
  lemma {:induction false} ReadErrorsOnce(c: Config, runs: seq<RunInput>)
    requires ValidRuns(runs)
    ensures ErrorsUnique(Runs(c, runs).errors) <==> !BlindInRuns(c, runs)
    ensures (forall r, x :: r in runs && x in r.inputs ==> x.errorsRead || !x.errorsWritten) ==>
              ErrorsUnique(Runs(c, runs).errors)
    decreases |runs|
  {
    if runs != [] {
      ReadErrorsOnce(c, Init(runs));
      var w, r := Runs(c, Init(runs)), Last(runs);
      assert r in runs;
      RunKeepsErrorsIff(SetupOf(c, w, r), w, r.Entries(), r.inputs);
    }
  }
}
