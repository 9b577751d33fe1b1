/** What the service does with one cluster, said from what it is given: the lists of
    disabled rules, the tables, the answers of the producers (differ.go, storage.go). */
module DifferLaws {
  import opened Wrappers
  import opened DifferTypes
  import opened DifferSelection
  import opened DifferTables
  import opened DifferRun

  // ----- which hits are selected -----

  predicate Digits(text: string) {
    forall i :: 0 <= i < |text| ==> '0' <= text[i] <= '9'
  }

  function ValueOf(text: string): nat
    requires Digits(text)
  {
    if text == "" then 0 else 10 * ValueOf(Init(text)) + (Last(text) as int - '0' as int)
  }

  /** A number as it is printed: no empty text and no superfluous zero in front. */
  predicate IsNumeral(text: string, n: nat) {
    text != "" && Digits(text) && (text[0] == '0' ==> text == "0") && ValueOf(text) == n
  }

  lemma {:induction false} DecimalIsNumeral(n: nat, text: string)
    ensures IsNumeral(text, n) <==> text == Decimal(n)
  {
    DecimalIsPrinted(n);
    if IsNumeral(text, n) {
      NumeralIsDecimal(text);
    }
  }

  lemma {:induction false} DecimalIsPrinted(n: nat)
    ensures IsNumeral(Decimal(n), n) && (Decimal(n)[0] == '0' <==> n == 0)
  {
    var digit := "0123456789"[n % 10];
    assert digit as int == '0' as int + n % 10;
    if n >= 10 {
      DecimalIsPrinted(n / 10);
      assert Init(Decimal(n)) == Decimal(n / 10) && Last(Decimal(n)) == digit;
    } else {
      assert Init([digit]) == "" && Last([digit]) == digit;
    }
  }

  lemma {:induction false} NumeralIsDecimal(text: string)
    requires Digits(text) && text != "" && (text[0] == '0' ==> text == "0")
    ensures text == Decimal(ValueOf(text))
    decreases |text|
  {
    var before, last := Init(text), Last(text);
    var digit := last as int - '0' as int;
    assert text[|text| - 1] == last;
    assert "0123456789"[digit] == last && 0 <= digit <= 9;
    assert text == before + [last];
    if before != "" {
      NumeralIsDecimal(before);
      DecimalIsPrinted(ValueOf(before));
      assert ValueOf(text) / 10 == ValueOf(before) && ValueOf(text) % 10 == digit;
    } else {
      assert ValueOf(text) == digit;
    }
  }

  /** A hit is disabled by a row for its cluster with its module as it is, or by a row
      for its organization with its module less one ".report". */
  lemma DisabledExactly(d: Disabled, e: Entry, item: Item)
    ensures ItemDisabled(d, e, item)
       <==> || (exists k :: k in d.forCluster && IsNumeral(k.org, e.org) && k.cluster == e.cluster
                            && k.rule == item.component && k.errorKey == item.errorKey)
            || (exists k :: k in d.forOrg && IsNumeral(k.org, e.org) && IsPlain(k.rule, item.component)
                            && k.errorKey == item.errorKey)
  {
    forall text ensures IsNumeral(text, e.org) <==> text == Decimal(e.org) {
      DecimalIsNumeral(e.org, text);
    }
    forall rule ensures IsPlain(rule, item.component) <==> rule == TrimSuffix(item.component, MODULE_SUFFIX) {
      TrimmedIsPlain(rule, item.component);
    }
  }

  predicate IsPlain(rule: string, component: string) {
    component == rule + ".report" || (component == rule && !EndsInReport(component))
  }

  predicate EndsInReport(s: string) {
    exists k :: 0 <= k <= |s| && s[k..] == ".report"
  }

  lemma TrimmedIsPlain(rule: string, component: string)
    ensures IsPlain(rule, component) <==> rule == TrimSuffix(component, MODULE_SUFFIX)
  {
    var n := |component| - |".report"|;
    if EndsInReport(component) {
      assert component[n..] == ".report" && component == component[..n] + ".report";
      assert component == rule + ".report" ==> rule == component[..n];
    } else {
      ReportEnds(rule);
      assert n >= 0 ==> component[n..] != ".report";
    }
  }

  lemma ReportEnds(rule: string)
    ensures EndsInReport(rule + ".report")
  {
    assert (rule + ".report")[|rule|..] == ".report";
  }

  /** A hit is selected if and only if it is not disabled, passes the filters, and is not,
      by type, module and key, among the hits of its cluster's previous record. */
  lemma SelectedExactly(s: Setup, e: Entry, items: seq<Item>, item: Item)
    ensures item in Selected(s, e, items)
       <==> && item in items && !ItemDisabled(s.disabled, e, item)
            && s.rules(item.component, item.errorKey).passes
            && forall key, old' :: key in s.previous && key == ClusterOrgKey(e.org, e.cluster)
                                   && old' in Items(s.previous[key].report) ==>
                 old'.kind != item.kind || old'.component != item.component || old'.errorKey != item.errorKey
  {
    FilterMembers(items, IsSelected(s, e));
    if KeyOf(e) in s.previous {
      var before := Items(s.previous[KeyOf(e)].report);
      assert IssueIn(before, item) <==> exists old' :: old' in before && IssuesEqual(old', item);
    }
  }

  // ----- which record a cluster is compared with -----

  /** A row for the query: the target's, in state 1, of a listed organization. */
  predicate Sees(r: Record, c: Config, entries: seq<Entry>, cluster: string) {
    r.target == c.target && r.state == 1 && r.cluster == cluster && exists e :: e in entries && e.org == r.org
  }

  /** The last one notified of them, and of equals the newest row. */
  predicate SeesLast(rows: seq<Record>, k: nat, c: Config, entries: seq<Entry>, cluster: string)
    requires k < |rows|
  {
    && Sees(rows[k], c, entries, cluster)
    && (forall j :: 0 <= j < |rows| && Sees(rows[j], c, entries, cluster) ==>
          rows[j].notifiedAt < rows[k].notifiedAt || (rows[j].notifiedAt == rows[k].notifiedAt && j <= k))
  }

  /** A run compares a listed cluster with its latest such row, provided that this row is
      of the same organization and less than the cool-down old when the run starts. */
  lemma PreviousExactly(c: Config, w: World, r: RunInput, key: ClusterOrgKey, row: Record)
    ensures key in SetupOf(c, w, r).previous && SetupOf(c, w, r).previous[key] == row
       <==> && c.cooldown.Some?
            && (exists e :: e in r.Entries() && e.cluster == key.cluster)
            && (exists k :: 0 <= k < |w.reported| && w.reported[k] == row
                            && SeesLast(w.reported, k, c, r.Entries(), key.cluster))
            && row.org == key.org && r.now < row.notifiedAt + c.cooldown.value
  {
    RecordOf(w.reported, QUERIED_STATE, r.Entries(), r.now, c, key);
    LatestIsSeen(w.reported, c, r.Entries(), key.cluster);
  }

  lemma {:induction false} LatestIsSeen(rows: seq<Record>, c: Config, entries: seq<Entry>, cluster: string)
    ensures var latest := LatestSent(rows, Orgs(entries), cluster, c.target);
            && (latest == None ==> forall r :: r in rows ==> !Sees(r, c, entries, cluster))
            && (latest.Some? ==> exists k :: 0 <= k < |rows| && rows[k] == latest.value
                                             && SeesLast(rows, k, c, entries, cluster))
    decreases |rows|
  {
    if rows != [] {
      var before, last := Init(rows), Last(rows);
      assert rows == before + [last];
      LatestIsSeen(before, c, entries, cluster);
      assert Matches(last, QUERIED_STATE, Orgs(entries), cluster, c.target) <==> Sees(last, c, entries, cluster);
      var rest := LatestSent(before, Orgs(entries), cluster, c.target);
      if Sees(last, c, entries, cluster) && (rest.None? || rest.value.notifiedAt <= last.notifiedAt) {
        assert SeesLast(rows, |before|, c, entries, cluster);
      } else if rest.Some? {
        var k :| 0 <= k < |before| && before[k] == rest.value && SeesLast(before, k, c, entries, cluster);
        assert SeesLast(rows, k, c, entries, cluster);
      }
    }
  }

  // ----- what a cluster's report leaves behind -----

  /** One row of the table of notifications. */
  function RowOf(s: Setup, e: Entry, x: Input, report: Report, state: int, text: string): Record {
    Record(e.org, e.account, e.cluster, state, StoredReport(s.disabled, e, report), e.updatedAt, x.notifiedAt, text,
           s.config.target)
  }

  /** What is left behind: at most one row, and at most one message. */
  predicate Leaves(w: World, w': World, e: Entry, x: Input, row: Option<Record>, items: seq<Item>) {
    && w'.errors == w.errors
    && w'.reported == w.reported + (if row.Some? && x.writes then [row.value] else [])
    && w'.log == w.log + if items == [] then [] else [Message(e.org, e.cluster, items, x.notifiedAt, |w.reported|)]
  }

  /** With Kafka, by the answer alone: a message delivered at any offset but -1 leaves a
      sent row and holds all the selected hits; one that was not delivered leaves an error
      row; the disabled producer and a message that is not encoded leave nothing. */
  lemma KafkaLeaves(s: Setup, w: World, e: Entry, x: Input, report: Report)
    requires s.config.target.NotificationBackend?
    ensures var w', chosen := Notify(s, w, e, x, report), Selected(s, e, Items(report));
            if chosen == [] then Leaves(w, w', e, x, Some(RowOf(s, e, x, report, s.config.states.same, "")), [])
            else
              match x.answer
              case Delivered(n) =>
                if n == -1 then Leaves(w, w', e, x, None, [])
                else Leaves(w, w', e, x, Some(RowOf(s, e, x, report, s.config.states.sent, "")), chosen)
              case Undelivered(text) =>
                Leaves(w, w', e, x, Some(RowOf(s, e, x, report, s.config.states.error, text)), [])
              case Unencoded(_) => Leaves(w, w', e, x, None, [])
  {
  }

  function HasText(known: set<(string, string)>): Item -> bool {
    (item: Item) => (item.component, item.errorKey) in known
  }

  /** A hit is accepted if and only if it has a rendered text and its post is accepted,
      the number of which is how many hits with a text come before it. */
  lemma AcceptedPost(before: seq<Item>, item: Item, after: seq<Item>, known: set<(string, string)>, posted: nat -> bool)
    ensures Accepted([], known, posted, 0) == []
    ensures var n, has := |Filter(before, HasText(known))|, HasText(known)(item);
            Accepted(before + [item] + after, known, posted, 0)
            == Accepted(before, known, posted, 0) + (if has && posted(n) then [item] else [])
               + Accepted(after, known, posted, if has then n + 1 else n)
  {
    AcceptedConcat(before, [item] + after, known, posted, 0);
    assert before + [item] + after == before + ([item] + after);
    assert ([item] + after)[1..] == after;
  }

  lemma {:induction false} AcceptedConcat(a: seq<Item>, b: seq<Item>, known: set<(string, string)>,
                                          posted: nat -> bool, n: nat)
    ensures Accepted(a + b, known, posted, n)
         == Accepted(a, known, posted, n) + Accepted(b, known, posted, n + |Filter(a, HasText(known))|)
    decreases |a|
  {
    if a == [] {
      assert a + b == b;
    } else {
      assert (a + b)[1..] == a[1..] + b;
      AcceptedConcat(a[1..], b, known, posted, if HasText(known)(a[0]) then n + 1 else n);
    }
  }

  /** With the Service Log, by the rendering and the posts: the hits whose posts are
      accepted make the message, and a sent row if there is one, else a same row. */
  lemma ServiceLogLeaves(s: Setup, w: World, e: Entry, x: Input, report: Report)
    requires s.config.target.ServiceLog?
    ensures var w', chosen := Notify(s, w, e, x, report), Selected(s, e, Items(report));
            if chosen == [] then Leaves(w, w', e, x, Some(RowOf(s, e, x, report, s.config.states.same, "")), [])
            else
              match x.rendering
              case RenderFailed(text) =>
                Leaves(w, w', e, x, Some(RowOf(s, e, x, report, s.config.states.error, text)), [])
              case Rendered(known) =>
                var accepted := Accepted(chosen, known, x.posted, 0);
                var state := if accepted == [] then s.config.states.same else s.config.states.sent;
                Leaves(w, w', e, x, Some(RowOf(s, e, x, report, state, "")), accepted)
  {
  }

  /** By the reading: only a readable report with hits is notified, and only a read error
      that the table does not say it has, and that can be written, is stored. */
  lemma ReadingDecides(s: Setup, w: World, e: Entry, x: Input)
    ensures var w' := ProcessCluster(s, w, e, x);
            match x.reading
            case NoRows => w' == w
            case ReadFailed(text) =>
              var known := exists r :: r in w.errors && r.org == e.org && r.cluster == e.cluster
                                       && r.updatedAt == e.updatedAt;
              w' == if (x.errorsRead && known) || !x.errorsWritten then w
                    else w.(errors := w.errors + [ReadError(e.org, e.cluster, e.updatedAt, text)])
            case Got(report) =>
              w' == if report.Report? && report.reports.Some? && |report.reports.value| > 0
                    then Notify(s, w, e, x, report) else w
  {
    assert ReadErrorExists(w.errors, e) <==>
           exists r :: r in w.errors && r.org == e.org && r.cluster == e.cluster && r.updatedAt == e.updatedAt;
  }

  // ----- the counters of a run -----

  const HAS_HITS := (x: Input) => x.reading.Got? && |Items(x.reading.report)| > 0
  const HAS_NONE := (x: Input) => x.reading.Got? && x.reading.report.Report? && |Items(x.reading.report)| == 0
  const HAS_FAILED := (x: Input) => x.reading.ReadFailed?

  /** By the readings: the processed and the empty reports of a run are those with hits
      and those without, and every failure to read is known or leaves a row. */
  lemma {:induction false} CountersFollowReadings(s: Setup, w: World, entries: seq<Entry>, inputs: seq<Input>)
    requires |inputs| == |entries|
    requires forall i :: 0 <= i < |inputs| ==> inputs[i].errorsWritten
    ensures CountKind(s, w, entries, inputs, Processed) == |Filter(inputs, HAS_HITS)|
    ensures CountKind(s, w, entries, inputs, EmptyReport) == |Filter(inputs, HAS_NONE)|
    ensures CountKind(s, w, entries, inputs, KnownError) + |ProcessAll(s, w, entries, inputs).errors| - |w.errors|
         == |Filter(inputs, HAS_FAILED)|
    decreases |entries|
  {
    hide Filter, KindOf, ProcessCluster;
    if entries == [] {
      FilterOfNone();
    } else {
      var before, x := Init(inputs), Last(inputs);
      assert inputs == before + [x] && x.errorsWritten;
      CountersFollowReadings(s, w, Init(entries), before);
      KindFollowsReading(s, ProcessAll(s, w, Init(entries), before), Last(entries), x);
      FilterOneMore(before, x, HAS_HITS);
      FilterOneMore(before, x, HAS_NONE);
      FilterOneMore(before, x, HAS_FAILED);
    }
  }

  lemma KindFollowsReading(s: Setup, w: World, e: Entry, x: Input)
    requires x.errorsWritten
    ensures KindOf(w, e, x) == Processed <==> HAS_HITS(x)
    ensures KindOf(w, e, x) == EmptyReport <==> HAS_NONE(x)
    ensures (if KindOf(w, e, x) == KnownError then 1 else 0) + |ProcessCluster(s, w, e, x).errors| - |w.errors|
         == if HAS_FAILED(x) then 1 else 0
  {
  }

  lemma FilterOfNone()
    ensures Filter<Input>([], HAS_HITS) == Filter<Input>([], HAS_NONE) == Filter<Input>([], HAS_FAILED) == []
  {
  }

  lemma FilterOneMore(before: seq<Input>, x: Input, keep: Input -> bool)
    ensures |Filter(before + [x], keep)| == |Filter(before, keep)| + if keep(x) then 1 else 0
  {
    FilterConcat(before, [x], keep);
    FilterOne(x, keep);
  }
}
