/** Consequences of the protocol: the exact condition for a repeated notification,
    what disabling a rule does to the baseline, and where the code parts from its
    documentation. */
module DifferFindings {
  import opened Wrappers
  import opened DifferTypes
  import opened DifferSelection
  import opened DifferTables
  import opened DifferRun
  import opened DifferRuns

  // ----- the documented cool-down -----

  /** A set-up that compares with the records of a table. */
  ghost predicate Compares(s: Setup, rows: seq<Record>, entries: seq<Entry>, now: int) {
    s.previous == PreviouslyReported(rows, entries, now, s.config)
  }

  /** While a cluster has a sent record inside the cool-down, a hit that is enabled
      and passes the filters is notified if and only if the cluster's latest sent
      record lacks the issue. An older record inside the cool-down that has the issue
      does not hold the notification back. */
  lemma SelectedWithinCooldownIff(s: Setup, orgOf: string -> nat, rows: seq<Record>, entries: seq<Entry>, now: int,
                                  e: Entry, k: nat, issue: Item)
    requires Compares(s, rows, entries, now) && Ordered(s.config, orgOf, rows)
    requires s.config.states.sent == QUERIED_STATE && s.config.cooldown.Some?
    requires e in entries && e.org == orgOf(e.cluster)
    requires k < |rows| && rows[k].cluster == e.cluster && rows[k].state == s.config.states.sent
    requires rows[k].notifiedAt > now - s.config.cooldown.value
    requires !ItemDisabled(s.disabled, e, issue) && s.rules(issue.component, issue.errorKey).passes
    ensures exists j :: k <= j < |rows| && IsLatestSent(s.config, rows, j, e.cluster)
    ensures forall j :: 0 <= j < |rows| && IsLatestSent(s.config, rows, j, e.cluster) ==>
              (Selects(s, e, issue) <==> !IssueIn(Items(rows[j].report), issue))
  {
    var c := s.config;
    RecentRecordIsCompared(c, orgOf, rows, entries, now, e, k);
    var j :| k <= j < |rows| && rows[j] == s.previous[KeyOf(e)] && rows[j].cluster == e.cluster
             && rows[j].state == c.states.sent;
    PreviousOf(rows, entries, now, c, KeyOf(e));
    ComparedIsLatest(c, orgOf, rows, entries, e, j);
    forall i | 0 <= i < |rows| && IsLatestSent(c, rows, i, e.cluster)
      ensures i == j
    {
    }
  }

  lemma ComparedIsLatest(c: Config, orgOf: string -> nat, rows: seq<Record>, entries: seq<Entry>, e: Entry, j: nat)
    requires Ordered(c, orgOf, rows) && c.states.sent == QUERIED_STATE
    requires e in entries && e.org == orgOf(e.cluster)
    requires j < |rows| && rows[j].cluster == e.cluster && rows[j].state == c.states.sent
    requires LatestSent(rows, Orgs(entries), e.cluster, c.target) == Some(rows[j])
    ensures IsLatestSent(c, rows, j, e.cluster)
  {
    LatestInMatches(rows, QUERIED_STATE, Orgs(entries), e.cluster, c.target);
    forall i | j < i < |rows| && rows[i].cluster == e.cluster
      ensures rows[i].state != c.states.sent
    {
      assert rows[i] in rows;
      assert rows[i].state == c.states.sent ==> Matches(rows[i], QUERIED_STATE, Orgs(entries), e.cluster, c.target);
    }
  }

  predicate IsLatestSent(c: Config, rows: seq<Record>, j: nat, cluster: string)
    requires j < |rows|
  {
    && rows[j].cluster == cluster && rows[j].state == c.states.sent
    && forall i :: j < i < |rows| && rows[i].cluster == cluster ==> rows[i].state != c.states.sent
  }

  // ----- a run over one cluster with one hit -----

  function OneHit(rules: RuleContent, e: Entry, item: Item, at: int, ok: bool): RunInput {
    var report := Report("", Some([item]));
    RunInput(rules, Disabled({}, {}), [NewReport(e, report)], Processing(false, {}, false, {}),
             [Input(Got(report), at, if ok then Delivered(0) else Undelivered(""),
                    if ok then Rendered({(item.component, item.errorKey)}) else RenderFailed(""),
                    n => true, true, true, true)], at)
  }

  /** The record and the message of that run. */
  function Row(c: Config, e: Entry, item: Item, at: int, state: int): Record {
    Record(e.org, e.account, e.cluster, state, Report("", Some([item])), e.updatedAt, at, "", c.target)
  }

  function Sending(c: Config, e: Entry, item: Item, at: int): Record {
    Row(c, e, item, at, c.states.sent)
  }

  lemma OneHitEntries(rules: RuleContent, e: Entry, item: Item, at: int, ok: bool)
    ensures OneHit(rules, e, item, at, ok).Entries() == [e] && OneHit(rules, e, item, at, ok).Valid()
  {
    var r := OneHit(rules, e, item, at, ok);
    assert Init(r.newReports) == [];
    assert ReadClusterList(r.newReports) == KeepLatest([], e) == [e];
    FilterOne(e, Lets(r.processing));
  }

  /** The state that the run's record gets. */
  function StateAfter(c: Config, s: Setup, e: Entry, item: Item, ok: bool): int {
    if !Selects(s, e, item) then c.states.same else if ok then c.states.sent else c.states.error
  }

  lemma OneHitRuns(c: Config, w: World, rules: RuleContent, e: Entry, item: Item, at: int, ok: bool)
    ensures OneHit(rules, e, item, at, ok).Valid()
    ensures var r := OneHit(rules, e, item, at, ok);
            var s := SetupOf(c, w, r);
            RunOnce(c, w, r)
            == World(w.reported + [Row(c, e, item, at, StateAfter(c, s, e, item, ok))], w.errors,
                     if Selects(s, e, item) && ok then w.log + [Message(e.org, e.cluster, [item], at, |w.reported|)]
                     else w.log)
  {
    hide PreviouslyReported, RunInput.Entries;
    var r := OneHit(rules, e, item, at, ok);
    var s, x := SetupOf(c, w, r), r.inputs[0];
    var report := x.reading.report;
    OneHitEntries(rules, e, item, at, ok);
    OneHitResult(s, e, item, x, report, ok);
    FilterOne(item, IsActive(s.disabled, e));
    assert StoredReport(s.disabled, e, report) == report;
    assert Init([e]) == [] && Init(r.inputs) == [] && ProcessAll(s, w, [], []) == w;
    assert RunOnce(c, w, r) == Notify(s, w, e, x, report);
  }

  lemma OneHitResult(s: Setup, e: Entry, item: Item, x: Input, report: Report, ok: bool)
    requires Items(report) == [item]
    requires x == OneHit(s.rules, e, item, x.notifiedAt, ok).inputs[0]
    ensures Result(s, e, x, report)
         == if !Selects(s, e, item) then Outcome(Same, [])
            else if ok then Outcome(Sent, [item]) else Outcome(Failed(""), [])
  {
    FilterOne(item, IsSelected(s, e));
    if Selects(s, e, item) && s.config.target.ServiceLog? && ok {
      assert [item][1..] == [];
      assert Accepted([item], x.rendering.known, x.posted, 0) == [item] + Accepted([], x.rendering.known, x.posted, 1);
    }
  }

  /** A hit that is not in the latest sent record is sent. */
  lemma OneHitIsSent(c: Config, w: World, rules: RuleContent, e: Entry, item: Item, at: int)
    requires rules(item.component, item.errorKey).passes
    requires ShouldNotify(PreviouslyReported(w.reported, [e], at, c), e, item)
    ensures OneHit(rules, e, item, at, true).Valid()
    ensures RunOnce(c, w, OneHit(rules, e, item, at, true))
         == World(w.reported + [Sending(c, e, item, at)], w.errors,
                  w.log + [Message(e.org, e.cluster, [item], at, |w.reported|)])
  {
    OneHitEntries(rules, e, item, at, true);
    OneHitRuns(c, w, rules, e, item, at, true);
  }

  // ----- a repeated notification -----

  /** Two issues that take turns in the reports of one cluster. */
  function Turns(rules: RuleContent, e: Entry, a: Item, b: Item, t1: int, t2: int, t3: int): seq<RunInput> {
    [OneHit(rules, e, a, t1, true), OneHit(rules, e, b, t2, true), OneHit(rules, e, a, t3, true)]
  }

  /** Two different issues that pass the filters, at rising times. */
  predicate TakeTurns(c: Config, rules: RuleContent, a: Item, b: Item, t1: int, t2: int, t3: int) {
    && c.states.sent == QUERIED_STATE && t1 < t2 < t3
    && rules(a.component, a.errorKey).passes && rules(b.component, b.errorKey).passes
    && !IssuesEqual(a, b)
  }

  /** The documentation calls the cool-down the minimum time between repeated
      notifications of one issue on one cluster. It is not: any two different issues
      a and b that take turns in the reports of a cluster are each notified at once,
      so a is notified twice within the cool-down. */
  lemma RepeatedWithinCooldown(c: Config, rules: RuleContent, e: Entry, a: Item, b: Item, t1: int, t2: int, t3: int)
    requires TakeTurns(c, rules, a, b, t1, t2, t3) && c.cooldown.Some? && t3 < t1 + c.cooldown.value
    ensures RegularRuns(c, _ => e.org, Turns(rules, e, a, b, t1, t2, t3))
    ensures Runs(c, Turns(rules, e, a, b, t1, t2, t3)).log
         == [Message(e.org, e.cluster, [a], t1, 0), Message(e.org, e.cluster, [b], t2, 1),
             Message(e.org, e.cluster, [a], t3, 2)]
  {
    hide RunOnce, PreviouslyReported, ShouldNotify, RunInput.Entries;
    var runs := Turns(rules, e, a, b, t1, t2, t3);
    assert Init(runs) == [runs[0], runs[1]];
    var w2 := TwoTurns(c, rules, e, a, b, t1, t2, t3);
    NotInLatest(c, [Sending(c, e, a, t1)], Sending(c, e, b, t2), e, b, a, t3);
    OneHitIsSent(c, w2, rules, e, a, t3);
    OneHitEntries(rules, e, a, t3, true);
  }

  /** The first two runs. */
  lemma TwoTurns(c: Config, rules: RuleContent, e: Entry, a: Item, b: Item, t1: int, t2: int, t3: int)
    returns (w2: World)
    requires TakeTurns(c, rules, a, b, t1, t2, t3)
    ensures w2 == World([Sending(c, e, a, t1)] + [Sending(c, e, b, t2)], [],
                        [Message(e.org, e.cluster, [a], t1, 0)] + [Message(e.org, e.cluster, [b], t2, 1)])
    ensures RegularRuns(c, _ => e.org, [OneHit(rules, e, a, t1, true), OneHit(rules, e, b, t2, true)])
    ensures w2 == Runs(c, [OneHit(rules, e, a, t1, true), OneHit(rules, e, b, t2, true)])
  {
    hide RunOnce, PreviouslyReported, ShouldNotify, RunInput.Entries;
    var r1, r2 := OneHit(rules, e, a, t1, true), OneHit(rules, e, b, t2, true);
    assert Init([r1, r2]) == [r1];
    var w1 := FirstTurn(c, rules, e, a, t1);
    NotInLatest(c, [], Sending(c, e, a, t1), e, a, b, t2);
    assert [] + [Sending(c, e, a, t1)] == w1.reported;
    OneHitIsSent(c, w1, rules, e, b, t2);
    OneHitEntries(rules, e, b, t2, true);
    w2 := RunOnce(c, w1, r2);
  }

  lemma FirstTurn(c: Config, rules: RuleContent, e: Entry, a: Item, t: int) returns (w1: World)
    requires rules(a.component, a.errorKey).passes
    ensures w1 == World([Sending(c, e, a, t)], [], [Message(e.org, e.cluster, [a], t, 0)])
    ensures RegularRuns(c, _ => e.org, [OneHit(rules, e, a, t, true)])
    ensures w1 == Runs(c, [OneHit(rules, e, a, t, true)])
  {
    hide RunOnce, RunInput.Entries;
    var r, w0 := OneHit(rules, e, a, t, true), World([], [], []);
    assert Init([r]) == [] && Runs(c, []) == w0;
    assert RegularRuns(c, _ => e.org, []);
    OneHitEntries(rules, e, a, t, true);
    OneHitIsSent(c, w0, rules, e, a, t);
    w1 := RunOnce(c, w0, r);
  }

  /** A hit other than the one in the latest sent record is new. */
  lemma NotInLatest(c: Config, rows: seq<Record>, r: Record, e: Entry, known: Item, other: Item, now: int)
    requires c.states.sent == QUERIED_STATE && !IssuesEqual(known, other)
    requires r == Sending(c, e, known, r.notifiedAt)
    requires forall i :: 0 <= i < |rows| ==> rows[i].notifiedAt <= r.notifiedAt
    ensures ShouldNotify(PreviouslyReported(rows + [r], [e], now, c), e, other)
  {
    PreviousOf(rows + [r], [e], now, c, KeyOf(e));
    LatestIsLast(c, rows, r, e);
  }

  lemma {:induction false} LatestIsLast(c: Config, rows: seq<Record>, r: Record, e: Entry)
    requires Matches(r, r.state, {e.org}, e.cluster, c.target)
    requires forall i :: 0 <= i < |rows| ==> rows[i].notifiedAt <= r.notifiedAt
    ensures LatestIn(rows + [r], r.state, Orgs([e]), e.cluster, c.target) == Some(r)
  {
    assert Init(rows + [r]) == rows && Last(rows + [r]) == r;
    assert e in [e] && e.org in Orgs([e]);
    LatestInMatches(rows, r.state, Orgs([e]), e.cluster, c.target);
  }

  // ----- the number of the sent state -----

  /** What a run compares with is what it should compare with: per cluster its latest
      record in the sent state, as far as it is in cool-down. */
  ghost predicate ComparesWithSent(c: Config, runs: seq<RunInput>, entries: seq<Entry>, now: int)
    requires ValidRuns(runs)
  {
    var rows := Runs(c, runs).reported;
    PreviouslyReported(rows, entries, now, c) == RecordsIn(rows, c.states.sent, entries, now, c)
  }

  /** The query asks for a fixed state number. After every sequence of runs it finds the
      sent records if and only if the sent state has that number. */
  lemma ComparesWithSentIff(c: Config)
    requires c.cooldown.Some? && c.cooldown.value > 0
    ensures (forall runs, entries, now :: ValidRuns(runs) ==> ComparesWithSent(c, runs, entries, now))
       <==> c.states.sent == QUERIED_STATE
  {
    if c.states.sent != QUERIED_STATE {
      var e, item := SomeEntry(), Item("", "", "", "");
      var runs := [OneHit(ALL_PASS, e, item, 0, true)];
      FirstRun(c, ALL_PASS, e, item, 0, true);
      FoundAfterOne(c, e, Sending(c, e, item, 0), c.states.sent);
      FoundAfterOne(c, e, Sending(c, e, item, 0), QUERIED_STATE);
      assert !ComparesWithSent(c, runs, [e], 0);
    }
  }

  /** When the sent state has another number, the query finds a record after some
      sequence of runs if and only if the same or the error state has the number it asks
      for; otherwise nothing is ever in cool-down. What it finds was never sent. */
  lemma FindsUnsentIff(c: Config)
    requires c.cooldown.Some? && c.cooldown.value > 0 && c.states.sent != QUERIED_STATE
    ensures (exists runs, entries, now :: ValidRuns(runs) && FindsSomething(c, runs, entries, now))
       <==> c.states.same == QUERIED_STATE || c.states.error == QUERIED_STATE
  {
    if c.states.same == QUERIED_STATE {
      UnsentIsBaseline(c, SomeEntry(), Item("", "", "", ""), 0, false);
    } else if c.states.error == QUERIED_STATE {
      UnsentIsBaseline(c, SomeEntry(), Item("", "", "", ""), 0, true);
    }
    forall runs, entries, now | ValidRuns(runs) && FindsSomething(c, runs, entries, now)
      ensures c.states.same == QUERIED_STATE || c.states.error == QUERIED_STATE
    {
      var key :| key in PreviouslyReported(Runs(c, runs).reported, entries, now, c);
      PreviousOf(Runs(c, runs).reported, entries, now, c, key);
      FoundIsStored(c, runs, entries, key.cluster);
    }
  }

  ghost predicate FindsSomething(c: Config, runs: seq<RunInput>, entries: seq<Entry>, now: int)
    requires ValidRuns(runs)
  {
    PreviouslyReported(Runs(c, runs).reported, entries, now, c) != map[]
  }

  /** A hit that was filtered out, or whose message failed, is then taken for the one
      last sent: nothing has been sent, and the hit is held back by every run that
      follows within the cool-down. */
  lemma UnsentIsBaseline(c: Config, e: Entry, item: Item, at: int, failing: bool)
    requires c.cooldown.Some? && c.cooldown.value > 0 && c.states.sent != QUERIED_STATE
    requires QUERIED_STATE == if failing then c.states.error else c.states.same
    ensures var runs := [OneHit(if failing then ALL_PASS else NONE_PASS, e, item, at, false)];
            && ValidRuns(runs) && Runs(c, runs).log == []
            && FindsSomething(c, runs, [e], at)
            && forall s: Setup :: s.config == c && Compares(s, Runs(c, runs).reported, [e], at) ==> !Selects(s, e, item)
  {
    var rules := if failing then ALL_PASS else NONE_PASS;
    var row := Row(c, e, item, at, QUERIED_STATE);
    FirstRun(c, rules, e, item, at, false);
    FoundAfterOne(c, e, row, QUERIED_STATE);
    assert Items(row.report)[0] == item && IssueIn(Items(row.report), item);
    assert KeyOf(e) in PreviouslyReported([row], [e], at, c);
  }

  const ALL_PASS: RuleContent := (_, _) => Assessment(true, 0, "")
  const NONE_PASS: RuleContent := (_, _) => Assessment(false, 0, "")

  function SomeEntry(): Entry {
    Entry(0, 0, "", 0, 0)
  }

  /** The tables after a first run. */
  lemma FirstRun(c: Config, rules: RuleContent, e: Entry, item: Item, at: int, ok: bool)
    ensures ValidRuns([OneHit(rules, e, item, at, ok)])
    ensures var passes := rules(item.component, item.errorKey).passes;
            var state := if !passes then c.states.same else if ok then c.states.sent else c.states.error;
            Runs(c, [OneHit(rules, e, item, at, ok)])
            == World([Row(c, e, item, at, state)], [],
                     if passes && ok then [Message(e.org, e.cluster, [item], at, 0)] else [])
  {
    hide RunOnce, RunInput.Entries;
    var r, w0 := OneHit(rules, e, item, at, ok), World([], [], []);
    OneHitEntries(rules, e, item, at, ok);
    OneHitRuns(c, w0, rules, e, item, at, ok);
    assert Init([r]) == [] && Runs(c, []) == w0;
  }

  /** What a query for a state finds in a table with one row. */
  lemma {:induction false} FoundAfterOne(c: Config, e: Entry, row: Record, state: int)
    requires c.cooldown.Some? && c.cooldown.value > 0 && Matches(row, row.state, {e.org}, e.cluster, c.target)
    ensures RecordsIn([row], state, [e], row.notifiedAt, c)
         == if row.state == state then map[KeyOf(e) := row] else map[]
  {
    var records := RecordsIn([row], state, [e], row.notifiedAt, c);
    LatestInMatches([row], state, Orgs([e]), e.cluster, c.target);
    assert [row][0] == row && e in [e];
    forall key
      ensures key in records <==> row.state == state && key == KeyOf(e)
      ensures key in records ==> records[key] == row
    {
      RecordOf([row], state, [e], row.notifiedAt, c, key);
      LatestInMatches([row], state, Orgs([e]), key.cluster, c.target);
      if row.state == state && key == KeyOf(e) {
        assert Matches(row, state, Orgs([e]), key.cluster, c.target);
      }
    }
  }

  /** Only the configured states are ever stored. */
  lemma {:induction false} StatesStored(c: Config, runs: seq<RunInput>)
    requires ValidRuns(runs)
    ensures forall r :: r in Runs(c, runs).reported ==> r.state in {c.states.same, c.states.sent, c.states.error}
    decreases |runs|
  {
    if runs != [] {
      StatesStored(c, Init(runs));
      assert Last(runs) in runs;
      var w, r := Runs(c, Init(runs)), Last(runs);
      StatesStoredInRun(SetupOf(c, w, r), w, r.Entries(), r.inputs);
    }
  }

  lemma {:induction false} StatesStoredInRun(s: Setup, w: World, entries: seq<Entry>, inputs: seq<Input>)
    requires |inputs| == |entries|
    ensures var states := s.config.states;
            forall r :: r in ProcessAll(s, w, entries, inputs).reported ==>
              r in w.reported || r.state in {states.same, states.sent, states.error}
    decreases |entries|
  {
    if entries != [] {
      StatesStoredInRun(s, w, Init(entries), Init(inputs));
    }
  }

  lemma FoundIsStored(c: Config, runs: seq<RunInput>, entries: seq<Entry>, cluster: string)
    requires ValidRuns(runs) && LatestSent(Runs(c, runs).reported, Orgs(entries), cluster, c.target).Some?
    ensures QUERIED_STATE in {c.states.same, c.states.sent, c.states.error}
  {
    LatestInMatches(Runs(c, runs).reported, QUERIED_STATE, Orgs(entries), cluster, c.target);
    StatesStored(c, runs);
  }

  // ----- a read error stored twice -----

  /** A run that cannot read the report of its only cluster, with a table of read errors
      that may not answer. */
  function Failing(e: Entry, at: int, answers: bool): RunInput {
    RunInput(ALL_PASS, Disabled({}, {}), [NewReport(e, Unreadable(""))], Processing(false, {}, false, {}),
             [Input(ReadFailed(""), at, Delivered(0), Rendered({}), n => true, true, answers, true)], at)
  }

  /** Two such runs, the second without an answer, leave two rows for one report, although
      the code counts on the table to refuse the second. */
  lemma ReadErrorStoredTwice(c: Config, e: Entry, t1: int, t2: int)
    ensures ValidRuns([Failing(e, t1, true), Failing(e, t2, false)])
    ensures BlindInRuns(c, [Failing(e, t1, true), Failing(e, t2, false)])
    ensures Runs(c, [Failing(e, t1, true), Failing(e, t2, false)]).errors
         == [ReadError(e.org, e.cluster, e.updatedAt, ""), ReadError(e.org, e.cluster, e.updatedAt, "")]
  {
    var r1, r2 := Failing(e, t1, true), Failing(e, t2, false);
    FailingEntries(e, t1, true);
    FailingEntries(e, t2, false);
    assert Init([r1, r2]) == [r1] && Init([r1]) == [] && Init([e]) == [];
    assert Runs(c, []) == World([], [], []);
    FailingRuns(c, World([], [], []), e, t1, true);
    var w1 := Runs(c, [r1]);
    assert w1 == RunOnce(c, World([], [], []), r1);
    assert SameReport(w1.errors[0], ReadError(e.org, e.cluster, e.updatedAt, ""));
    FailingRuns(c, w1, e, t2, false);
  }

  lemma FailingEntries(e: Entry, at: int, answers: bool)
    ensures Failing(e, at, answers).Entries() == [e] && Failing(e, at, answers).Valid()
  {
    var r := Failing(e, at, answers);
    assert Init(r.newReports) == [];
    assert ReadClusterList(r.newReports) == KeepLatest([], e) == [e];
    FilterOne(e, Lets(r.processing));
  }

  lemma FailingRuns(c: Config, w: World, e: Entry, at: int, answers: bool)
    requires !Known(w, e, Failing(e, at, answers).inputs[0])
    ensures Failing(e, at, answers).Valid()
    ensures var r := Failing(e, at, answers);
            && RunOnce(c, w, r) == w.(errors := w.errors + [ReadError(e.org, e.cluster, e.updatedAt, "")])
            && BlindInRun(SetupOf(c, w, r), w, r.Entries(), r.inputs) == StoredBlindly(w, e, r.inputs[0])
  {
    FailingEntries(e, at, answers);
    var r := Failing(e, at, answers);
    var s := SetupOf(c, w, r);
    assert Init([e]) == [] && Init(r.inputs) == [];
    assert ProcessAll(s, w, [], []) == w && !BlindInRun(s, w, [], []);
  }

  // ----- disabled rules and the baseline -----

  /** No record of a run holds a hit that was disabled in that run for its cluster. */
  lemma NoDisabledHitIsStored(c: Config, w: World, r: RunInput, k: nat, e: Entry, item: Item)
    requires r.Valid()
    requires |w.reported| <= k < |RunOnce(c, w, r).reported| && e in r.Entries()
    requires RunOnce(c, w, r).reported[k].cluster == e.cluster && item in Items(RunOnce(c, w, r).reported[k].report)
    ensures !ItemDisabled(r.disabled, e, item)
  {
    RunListIsDistinct(r.newReports, r.processing);
    StoredRowsAreFiltered(SetupOf(c, w, r), w, r.Entries(), r.inputs, k, e, item);
  }

  lemma {:induction false} StoredRowsAreFiltered(s: Setup, w: World, entries: seq<Entry>, inputs: seq<Input>,
                                                 k: nat, e: Entry, item: Item)
    requires |inputs| == |entries| && Distinct(entries) && e in entries
    requires var rows := ProcessAll(s, w, entries, inputs).reported;
             |w.reported| <= k < |rows| && rows[k].cluster == e.cluster && item in Items(rows[k].report)
    ensures !ItemDisabled(s.disabled, e, item)
    decreases |entries|
  {
    hide ProcessCluster, Distinct, Lists;
    var last, x := Last(entries), Last(inputs);
    var w' := ProcessAll(s, w, Init(entries), Init(inputs));
    var rows := ProcessCluster(s, w', last, x).reported;
    LastIsNew(entries);
    StepAddsOwnRows(s, w', last, x);
    if k < |w'.reported| {
      assert rows[k] == rows[..|w'.reported|][k] == w'.reported[k];
      EarlierRow(s, w, Init(entries), Init(inputs), k);
      EntryBefore(entries, e);
      StoredRowsAreFiltered(s, w, Init(entries), Init(inputs), k, e, item);
    } else {
      assert rows[k] == rows[|w'.reported|..][k - |w'.reported|] && rows[k] in rows[|w'.reported|..];
      LastOfCluster(entries, e);
      OneRowAdded(s, w', last, x);
      StoredRowIsFiltered(s, w', e, x, item);
    }
  }

  lemma EarlierRow(s: Setup, w: World, entries: seq<Entry>, inputs: seq<Input>, k: nat)
    requires |inputs| == |entries| && |w.reported| <= k < |ProcessAll(s, w, entries, inputs).reported|
    ensures Lists(entries, ProcessAll(s, w, entries, inputs).reported[k].cluster)
  {
    var rows := ProcessAll(s, w, entries, inputs).reported;
    AllAddOwnRows(s, w, entries, inputs);
    assert rows[k] == rows[|w.reported|..][k - |w.reported|] && rows[k] in rows[|w.reported|..];
  }

  lemma OneRowAdded(s: Setup, w: World, e: Entry, x: Input)
    ensures |ProcessCluster(s, w, e, x).reported| <= |w.reported| + 1
  {
  }

  lemma EntryBefore(entries: seq<Entry>, e: Entry)
    requires entries != [] && Distinct(entries) && e in entries && Lists(Init(entries), e.cluster)
    ensures e in Init(entries)
  {
    LastIsNew(entries);
    assert entries == Init(entries) + [Last(entries)];
  }

  lemma LastOfCluster(entries: seq<Entry>, e: Entry)
    requires entries != [] && Distinct(entries) && e in entries && e.cluster == Last(entries).cluster
    ensures e == Last(entries)
  {
  }

  lemma StoredRowIsFiltered(s: Setup, w: World, e: Entry, x: Input, item: Item)
    requires |ProcessCluster(s, w, e, x).reported| > |w.reported|
    requires item in Items(Last(ProcessCluster(s, w, e, x).reported).report)
    ensures !ItemDisabled(s.disabled, e, item)
  {
    var report := x.reading.report;
    RemovalIsHarmless(s, e, report);
  }

  /** A hit that was disabled when the latest sent record was written is notified as
      soon as it is enabled and passes the filters, cool-down or not. */
  lemma ReenabledHitIsNotified(was: Disabled, s: Setup, e: Entry, rows: seq<Record>, entries: seq<Entry>,
                               now: int, report: Report, issue: Item)
    requires var latest := LatestSent(rows, Orgs(entries), e.cluster, s.config.target);
             latest.Some? && latest.value.report == StoredReport(was, e, report)
    requires ItemDisabled(was, e, issue) && Compares(s, rows, entries, now)
    ensures Selects(s, e, issue)
       <==> !ItemDisabled(s.disabled, e, issue) && s.rules(issue.component, issue.errorKey).passes
  {
    StoredReportLacksDisabled(was, e, report, issue);
    PreviousOf(rows, entries, now, s.config, KeyOf(e));
  }

  // ----- posts that are lost -----

  /** With the Service Log, one accepted post is enough to store the whole report as
      sent. A selected hit whose own post was refused, or that had no rendered text,
      is therefore treated as notified: no later run selects it while that record is
      the latest one and in cool-down. */
  lemma RefusedPostIsNotRetried(s: Setup, later: Setup, e: Entry, x: Input, report: Report, issue: Item,
                                rows: seq<Record>, entries: seq<Entry>, now: int)
    requires s.config.target.ServiceLog? && s.config.cooldown.Some? && later.config == s.config && e in entries
    requires var outcome := Result(s, e, x, report);
             outcome.verdict == Sent && issue !in outcome.accepted && issue in Selected(s, e, Items(report))
    requires LatestSent(rows, Orgs(entries), e.cluster, s.config.target) == RecordFor(s, e, x, report, Sent)
    requires Compares(later, rows, entries, now) && x.notifiedAt > now - s.config.cooldown.value
    ensures !Selects(later, e, issue)
  {
    SelectedMeans(s, e, Items(report));
    RemovalIsHarmless(s, e, report);
    var stored := Items(StoredReport(s.disabled, e, report));
    assert issue in stored;
    var i :| 0 <= i < |stored| && stored[i] == issue;
    assert IssuesEqual(stored[i], issue);
    assert RecordFor(s, e, x, report, Sent).value.cluster == e.cluster;
    PreviousOf(rows, entries, now, s.config, KeyOf(e));
  }

  // ----- counting -----

  /** A message that went to the disabled producer or could not be encoded. */
  predicate Silenced(s: Setup, e: Entry, x: Input) {
    && s.config.target.NotificationBackend? && (x.answer == Delivered(-1) || x.answer.Unencoded?)
    && x.reading.Got? && Selected(s, e, Items(x.reading.report)) != []
  }

  function CountSilent(s: Setup, entries: seq<Entry>, inputs: seq<Input>): nat
    requires |inputs| == |entries|
    decreases |entries|
  {
    if entries == [] then 0
    else CountSilent(s, Init(entries), Init(inputs)) + if Silenced(s, Last(entries), Last(inputs)) then 1 else 0
  }

  /** Conservation per run: every cluster is skipped, empty, a known read error or
      processed, and every processed cluster writes exactly one record, except for those
      whose message is silenced. */
  lemma {:induction false} RunConserves(s: Setup, w: World, entries: seq<Entry>, inputs: seq<Input>)
    requires |inputs| == |entries|
    requires forall i :: 0 <= i < |inputs| ==> inputs[i].writes
    ensures |entries| == CountKind(s, w, entries, inputs, Skipped)
                       + CountKind(s, w, entries, inputs, EmptyReport)
                       + CountKind(s, w, entries, inputs, KnownError)
                       + CountKind(s, w, entries, inputs, Processed)
    ensures |ProcessAll(s, w, entries, inputs).reported| - |w.reported|
         == CountKind(s, w, entries, inputs, Processed) - CountSilent(s, entries, inputs)
    decreases |entries|
  {
    if entries != [] {
      assert Last(inputs).writes;
      RunConserves(s, w, Init(entries), Init(inputs));
    }
  }
}
