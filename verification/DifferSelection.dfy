/** Which hits of a report are notified, and what is left of a report when it is
    stored (differ.go, comparator.go). */
module DifferSelection {
  import opened Wrappers
  import opened DifferTypes

  // The last notified record of each cluster still in its cool-down.
  type Reported = map<ClusterOrgKey, Record>

  // What one run works with: its configuration, the rule content and the disabled rules it
  // has fetched, and the previous records it has read.
  datatype Setup = Setup(config: Config, rules: RuleContent, disabled: Disabled, previous: Reported)

  const MODULE_SUFFIX := ".report"

  // ----- disabled rules -----

  /** isRuleDisabled: per cluster by the module as it is, org-wide without ".report". */
  predicate IsRuleDisabled(d: Disabled, e: Entry, component: string, errorKey: string) {
    || ClusterRuleKey(Decimal(e.org), e.cluster, component, errorKey) in d.forCluster
    || OrgRuleKey(Decimal(e.org), TrimSuffix(component, MODULE_SUFFIX), errorKey) in d.forOrg
  }

  predicate ItemDisabled(d: Disabled, e: Entry, item: Item) {
    IsRuleDisabled(d, e, item.component, item.errorKey)
  }

  function IsActive(d: Disabled, e: Entry): Item -> bool {
    (item: Item) => !ItemDisabled(d, e, item)
  }

  function Active(d: Disabled, e: Entry, items: seq<Item>): seq<Item> {
    Filter(items, IsActive(d, e))
  }

  /** The report that is stored: the same document without the disabled hits. */
  function StoredReport(d: Disabled, e: Entry, report: Report): Report {
    if report.Report? && report.reports.Some?
    then report.(reports := Some(Active(d, e, report.reports.value)))
    else report
  }

  // ----- comparison with the previous report -----

  predicate IssuesEqual(a: Item, b: Item) {
    a.kind == b.kind && a.component == b.component && a.errorKey == b.errorKey
  }

  predicate IssueIn(items: seq<Item>, issue: Item) {
    exists i :: 0 <= i < |items| && IssuesEqual(items[i], issue)
  }

  predicate ShouldNotify(previous: Reported, e: Entry, issue: Item) {
    KeyOf(e) in previous ==> !IssueIn(Items(previous[KeyOf(e)].report), issue)
  }

  // ----- selection -----

  predicate Selects(s: Setup, e: Entry, item: Item) {
    && !ItemDisabled(s.disabled, e, item)
    && s.rules(item.component, item.errorKey).passes
    && ShouldNotify(s.previous, e, item)
  }

  // A hit with the total risk that selection writes into it.
  datatype Evaluated = Evaluated(item: Item, totalRisk: int)

  datatype Event = Event(component: string, errorKey: string, description: string, totalRisk: int, publishDate: int)

  function IsSelected(s: Setup, e: Entry): Item -> bool {
    (item: Item) => Selects(s, e, item)
  }

  function Selected(s: Setup, e: Entry, items: seq<Item>): seq<Item> {
    Filter(items, IsSelected(s, e))
  }

  function ToEvaluated(rules: RuleContent): Item -> Evaluated {
    (item: Item) => Evaluated(item, rules(item.component, item.errorKey).totalRisk)
  }

  function ToEvent(rules: RuleContent, e: Entry): Item -> Event {
    (item: Item) =>
      var a := rules(item.component, item.errorKey);
      Event(item.component, item.errorKey, a.description, a.totalRisk, e.updatedAt)
  }

  function Map<A, B>(s: seq<A>, f: A -> B): (r: seq<B>)
    ensures |r| == |s| && forall i :: 0 <= i < |s| ==> r[i] == f(s[i])
  {
    seq(|s|, i requires 0 <= i < |s| => f(s[i]))
  }

  /** The events of the Kafka message. */
  function Events(s: Setup, e: Entry, items: seq<Item>): seq<Event> {
    Map(Selected(s, e, items), ToEvent(s.rules, e))
  }

  // ----- filtering and selection -----

  lemma {:induction false} FilterMembers<T>(s: seq<T>, keep: T -> bool)
    ensures forall x :: x in Filter(s, keep) <==> x in s && keep(x)
    ensures |Filter(s, keep)| <= |s|
    ensures |Filter(s, keep)| == |s| <==> forall x :: x in s ==> keep(x)
    ensures |Filter(s, keep)| == |s| ==> Filter(s, keep) == s
  {
    if s != [] {
      FilterMembers(s[1..], keep);
      assert s == [s[0]] + s[1..];
    }
  }

  lemma {:induction false} FilterTwice<T>(s: seq<T>, keep: T -> bool, also: T -> bool)
    requires forall x :: also(x) ==> keep(x)
    ensures Filter(Filter(s, keep), also) == Filter(s, also)
  {
    if s != [] {
      FilterTwice(s[1..], keep, also);
      var head := if keep(s[0]) then [s[0]] else [];
      FilterConcat(head, Filter(s[1..], keep), also);
      FilterOne(s[0], also);
    }
  }

  /** Removing the disabled hits leaves exactly the enabled ones, is idempotent, keeps
      the rest of the document, and never changes what is selected. */
  lemma RemovalIsHarmless(s: Setup, e: Entry, report: Report)
    ensures var d, stored := s.disabled, StoredReport(s.disabled, e, report);
            && StoredReport(d, e, stored) == stored
            && (report.Report? ==> stored.Report? && stored.fields == report.fields)
            && (forall item :: item in Items(stored) <==> item in Items(report) && !ItemDisabled(d, e, item))
            && Selected(s, e, Items(stored)) == Selected(s, e, Items(report))
  {
    var items := Items(report);
    var active, chosen := IsActive(s.disabled, e), IsSelected(s, e);
    FilterMembers(items, active);
    FilterTwice(items, active, active);
    FilterTwice(items, active, chosen);
  }

  /** Disabling is decided by module and key alone, so an issue equal to a disabled
      hit is disabled with it. */
  lemma StoredReportLacksDisabled(d: Disabled, e: Entry, report: Report, issue: Item)
    requires ItemDisabled(d, e, issue)
    ensures !IssueIn(Items(StoredReport(d, e, report)), issue)
  {
    var items := Items(StoredReport(d, e, report));
    if report.Report? && report.reports.Some? {
      FilterMembers(report.reports.value, IsActive(d, e));
    }
    forall i | 0 <= i < |items| ensures !IssuesEqual(items[i], issue) {
      assert items[i] in items;
    }
  }

  // ----- the source's loops -----

  /** IssueNotInReport. */
  method IssueNotInReport(oldItems: seq<Item>, issue: Item) returns (r: bool)
    ensures r == !IssueIn(oldItems, issue)
  {
    for i := 0 to |oldItems|
      invariant forall k :: 0 <= k < i ==> !IssuesEqual(oldItems[k], issue)
    {
      if IssuesEqual(oldItems[i], issue) {
        return false;
      }
    }
    return true;
  }

  method AskShouldNotify(previous: Reported, e: Entry, issue: Item) returns (r: bool)
    ensures r == ShouldNotify(previous, e, issue)
  {
    if KeyOf(e) !in previous {
      return true;
    }
    r := IssueNotInReport(Items(previous[KeyOf(e)].report), issue);
  }

  /** filterDisabledRulesFromReport: unchanged when nothing is disabled. */
  method FilterDisabledRulesFromReport(d: Disabled, e: Entry, report: Report) returns (r: Report)
    ensures r == StoredReport(d, e, report)
  {
    UnchangedWhenAllActive(d, e, report);
    if |d.forCluster| == 0 && |d.forOrg| == 0 {
      return report;
    }
    if report.Unreadable? || report.reports.None? {
      return report;
    }
    var activeItems := ActiveItems(d, e, report.reports.value);
    if |activeItems| == |report.reports.value| {
      return report;
    }
    r := report.(reports := Some(activeItems));
  }

  method ActiveItems(d: Disabled, e: Entry, items: seq<Item>) returns (r: seq<Item>)
    ensures r == Active(d, e, items)
  {
    ghost var active := IsActive(d, e);
    r := [];
    for i := 0 to |items|
      invariant r == Filter(items[..i], active)
    {
      FilterNext(items, i, active);
      if !IsRuleDisabled(d, e, items[i].component, items[i].errorKey) {
        r := r + [items[i]];
      }
    }
    assert items[..|items|] == items;
  }

  lemma UnchangedWhenAllActive(d: Disabled, e: Entry, report: Report)
    ensures |Active(d, e, Items(report))| == |Items(report)| ==> StoredReport(d, e, report) == report
    ensures d.forCluster == {} && d.forOrg == {} ==> StoredReport(d, e, report) == report
  {
    FilterMembers(Items(report), IsActive(d, e));
  }

  /** getReportsWithIssuesToNotify. */
  method GetReportsWithIssuesToNotify(s: Setup, e: Entry, items: seq<Item>)
    returns (r: seq<Evaluated>)
    ensures r == Map(Selected(s, e, items), ToEvaluated(s.rules))
  {
    ghost var chosen := IsSelected(s, e);
    ghost var picked: seq<Item> := [];
    r := [];
    for i := 0 to |items|
      invariant picked == Filter(items[..i], chosen)
      invariant r == Map(picked, ToEvaluated(s.rules))
    {
      FilterNext(items, i, chosen);
      var item := items[i];
      if !IsRuleDisabled(s.disabled, e, item.component, item.errorKey) {
        var assessment := s.rules(item.component, item.errorKey);
        if assessment.passes {
          var notify := AskShouldNotify(s.previous, e, item);
          if notify {
            picked := picked + [item];
            r := r + [Evaluated(item, assessment.totalRisk)];
          }
        }
      }
    }
    assert items[..|items|] == items;
  }

  /** The loop of produceEntriesToKafka, which appends an event per selected hit. */
  method BuildEvents(s: Setup, e: Entry, items: seq<Item>) returns (events: seq<Event>)
    ensures events == Events(s, e, items)
  {
    ghost var chosen := IsSelected(s, e);
    ghost var picked: seq<Item> := [];
    events := [];
    for i := 0 to |items|
      invariant picked == Filter(items[..i], chosen)
      invariant events == Map(picked, ToEvent(s.rules, e))
    {
      FilterNext(items, i, chosen);
      var item := items[i];
      if !IsRuleDisabled(s.disabled, e, item.component, item.errorKey) {
        var assessment := s.rules(item.component, item.errorKey);
        if assessment.passes {
          var notify := AskShouldNotify(s.previous, e, item);
          if notify {
            picked := picked + [item];
            events := events + [Event(item.component, item.errorKey, assessment.description,
                                      assessment.totalRisk, e.updatedAt)];
          }
        }
      }
    }
    assert items[..|items|] == items;
  }

  /** The two copies of the selection loop agree: for every selected hit, in order, one
      event of the Kafka message and one hit to render for the Service Log. */
  lemma EventsFollowSelection(s: Setup, e: Entry, items: seq<Item>)
    ensures var events := Events(s, e, items);
            var toRender := Map(Selected(s, e, items), ToEvaluated(s.rules));
            |events| == |toRender| == |Selected(s, e, items)| &&
            forall i :: 0 <= i < |events| ==>
              var item := Selected(s, e, items)[i];
              var a := s.rules(item.component, item.errorKey);
              && events[i] == Event(item.component, item.errorKey, a.description, a.totalRisk, e.updatedAt)
              && toRender[i] == Evaluated(item, a.totalRisk)
  {
  }
}
