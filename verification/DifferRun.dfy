/** One run of the service over its clusters: what is sent, what is stored, what is
    counted (differ.go, comparator.go). */
module DifferRun {
  import opened Wrappers
  import opened DifferTypes
  import opened DifferSelection
  import opened DifferTables

  // ----- what a run meets -----

  datatype Reading = Got(report: Report) | NoRows | ReadFailed(text: string)

  // The Kafka producer's answer, or a message that could not be encoded for it; offset -1
  // is the disabled producer.
  datatype Answer = Delivered(offset: int) | Undelivered(text: string) | Unencoded(text: string)

  // The template renderer's answer: the modules and keys it has a text for.
  datatype Rendering = Rendered(known: set<(string, string)>) | RenderFailed(text: string)

  // `posted` says whether the n-th post of this cluster to the Service Log is accepted,
  // `writes` whether its record can be written, `errorsRead` and `errorsWritten` whether
  // the table of read errors answers and takes a row.
  datatype Input = Input(
    reading: Reading, notifiedAt: int, answer: Answer, rendering: Rendering, posted: nat -> bool,
    writes: bool, errorsRead: bool, errorsWritten: bool)

  // ----- what a run leaves behind -----

  // An accepted notification; `row` is the place its record takes in the table.
  datatype Message = Message(org: nat, cluster: string, items: seq<Item>, at: int, row: nat)

  datatype World = World(reported: seq<Record>, errors: seq<ReadError>, log: seq<Message>)

  datatype Kind = Skipped | KnownError | EmptyReport | Processed

  datatype Verdict = Same | Sent | Failed(text: string) | Silent

  datatype Outcome = Outcome(verdict: Verdict, accepted: seq<Item>)

  // ----- sending -----

  function KafkaOutcome(chosen: seq<Item>, answer: Answer): Outcome {
    if chosen == [] then Outcome(Same, [])
    else
      match answer
      case Undelivered(text) => Outcome(Failed(text), [])
      case Unencoded(_) => Outcome(Silent, [])
      case Delivered(offset) => if offset != -1 then Outcome(Sent, chosen) else Outcome(Silent, [])
  }

  /** The hits whose posts are accepted; a hit without a rendered text is not posted. */
  function Accepted(chosen: seq<Item>, known: set<(string, string)>, posted: nat -> bool, n: nat): seq<Item>
    decreases |chosen|
  {
    if chosen == [] then []
    else if (chosen[0].component, chosen[0].errorKey) !in known then Accepted(chosen[1..], known, posted, n)
    else (if posted(n) then [chosen[0]] else []) + Accepted(chosen[1..], known, posted, n + 1)
  }

  function ServiceLogOutcome(chosen: seq<Item>, rendering: Rendering, posted: nat -> bool): Outcome {
    if chosen == [] then Outcome(Same, [])
    else
      match rendering
      case RenderFailed(text) => Outcome(Failed(text), [])
      case Rendered(known) =>
        var accepted := Accepted(chosen, known, posted, 0);
        if accepted == [] then Outcome(Same, []) else Outcome(Sent, accepted)
  }

  function OutcomeOf(c: Config, chosen: seq<Item>, x: Input): Outcome {
    if c.target.NotificationBackend? then KafkaOutcome(chosen, x.answer)
    else ServiceLogOutcome(chosen, x.rendering, x.posted)
  }

  /** The row that the verdict calls for. */
  function RecordFor(s: Setup, e: Entry, x: Input, report: Report, verdict: Verdict): Option<Record> {
    var c, stored := s.config, StoredReport(s.disabled, e, report);
    var row := (state: int, text: string) =>
      Some(Record(e.org, e.account, e.cluster, state, stored, e.updatedAt, x.notifiedAt, text, c.target));
    match verdict
    case Same => row(c.states.same, "")
    case Sent => row(c.states.sent, "")
    case Failed(text) => row(c.states.error, text)
    case Silent => None
  }

  function Store(reported: seq<Record>, row: Option<Record>, writes: bool): seq<Record> {
    if row.Some? && writes then reported + [row.value] else reported
  }

  /** What becomes of a report. */
  function Result(s: Setup, e: Entry, x: Input, report: Report): Outcome {
    OutcomeOf(s.config, Selected(s, e, Items(report)), x)
  }

  function Notify(s: Setup, w: World, e: Entry, x: Input, report: Report): World {
    var outcome := Result(s, e, x, report);
    World(Store(w.reported, RecordFor(s, e, x, report, outcome.verdict), x.writes),
          w.errors,
          if outcome.accepted == [] then w.log
          else w.log + [Message(e.org, e.cluster, outcome.accepted, x.notifiedAt, |w.reported|)])
  }

  // ----- one cluster, all clusters -----

  /** A read error counts as known when the table answers that it is. */
  predicate Known(w: World, e: Entry, x: Input) {
    x.errorsRead && ReadErrorExists(w.errors, e)
  }

  function KindOf(w: World, e: Entry, x: Input): Kind {
    match x.reading
    case NoRows => Skipped
    case ReadFailed(_) => if Known(w, e, x) then KnownError else Skipped
    case Got(report) =>
      if report.Unreadable? then Skipped
      else if Items(report) == [] then EmptyReport
      else Processed
  }

  /** The hits in all accepted messages. */
  function Issues(log: seq<Message>): nat
  {
    if log == [] then 0 else Issues(Init(log)) + |Last(log).items|
  }

  function StoreError(errors: seq<ReadError>, e: Entry, text: string, writes: bool): seq<ReadError> {
    if writes then errors + [ReadError(e.org, e.cluster, e.updatedAt, text)] else errors
  }

  function ProcessCluster(s: Setup, w: World, e: Entry, x: Input): World {
    match KindOf(w, e, x)
    case Processed => Notify(s, w, e, x, x.reading.report)
    case Skipped =>
      if x.reading.ReadFailed? then w.(errors := StoreError(w.errors, e, x.reading.text, x.errorsWritten)) else w
    case KnownError => w
    case EmptyReport => w
  }

  function ProcessAll(s: Setup, w: World, entries: seq<Entry>, inputs: seq<Input>): World
    requires |inputs| == |entries|
    decreases |entries|
  {
    if entries == [] then w
    else ProcessCluster(s, ProcessAll(s, w, Init(entries), Init(inputs)), Last(entries), Last(inputs))
  }

  /** How many clusters of a run were of a kind. */
  function CountKind(s: Setup, w: World, entries: seq<Entry>, inputs: seq<Input>, kind: Kind): nat
    requires |inputs| == |entries|
    decreases |entries|
  {
    if entries == [] then 0
    else
      var w' := ProcessAll(s, w, Init(entries), Init(inputs));
      CountKind(s, w, Init(entries), Init(inputs), kind)
      + if KindOf(w', Last(entries), Last(inputs)) == kind then 1 else 0
  }

  // ----- a run -----

  // What one run of the service meets.
  datatype RunInput = RunInput(
    rules: RuleContent, disabled: Disabled, newReports: seq<NewReport>, processing: Processing,
    inputs: seq<Input>, now: int)
  {
    function Entries(): seq<Entry> {
      RunList(newReports, processing)
    }

    /** One input per cluster of the run. */
    predicate Valid() {
      |inputs| == |Entries()|
    }
  }

  /** The previous records are read once, at the start of the run. */
  function SetupOf(c: Config, w: World, r: RunInput): Setup {
    Setup(c, r.rules, r.disabled, PreviouslyReported(w.reported, r.Entries(), r.now, c))
  }

  function RunOnce(c: Config, w: World, r: RunInput): World
    requires r.Valid()
  {
    ProcessAll(SetupOf(c, w, r), w, r.Entries(), r.inputs)
  }

  // ----- the service's objects -----

  class Storage {
    var reported: seq<Record>
    var errors: seq<ReadError>

    constructor ()
      ensures reported == [] && errors == []
    {
      reported, errors := [], [];
    }

    /** WriteNotificationRecordForCluster; a failed write is only logged. */
    method WriteNotificationRecord(e: Entry, state: int, report: Report, notifiedAt: int, errorLog: string,
                                   target: Target, writes: bool)
      modifies this`reported
      ensures var row := Record(e.org, e.account, e.cluster, state, report, e.updatedAt, notifiedAt, errorLog, target);
              reported == if writes then old(reported) + [row] else old(reported)
    {
      if writes {
        reported := reported
          + [Record(e.org, e.account, e.cluster, state, report, e.updatedAt, notifiedAt, errorLog, target)];
      }
    }

    /** ReadErrorExists: without an answer it says no. */
    method AskReadError(e: Entry, answers: bool) returns (exists': bool)
      ensures exists' == (answers && ReadErrorExists(errors, e))
    {
      exists' := answers && ReadErrorExists(errors, e);
    }

    /** WriteReadError: the table takes a row for a report that has one already, since
        its unique key holds the number of the error too. */
    method WriteReadError(e: Entry, text: string, writes: bool) returns (ok: bool)
      modifies this`errors
      ensures ok == writes
      ensures errors == if ok then old(errors) + [ReadError(e.org, e.cluster, e.updatedAt, text)] else old(errors)
    {
      ok := writes;
      if ok {
        errors := errors + [ReadError(e.org, e.cluster, e.updatedAt, text)];
      }
    }
  }

  datatype Tally = Tally(clusters: nat, skipped: nat, empty: nat, known: nat, processed: nat, notified: nat)

  class Differ {
    const config: Config
    const storage: Storage
    var disabled: Disabled
    var previouslyReported: Reported
    ghost var log: seq<Message>

    constructor (config: Config, storage: Storage)
      ensures this.config == config && this.storage == storage
      ensures disabled == Disabled({}, {}) && previouslyReported == map[] && log == []
    {
      this.config, this.storage := config, storage;
      disabled, previouslyReported, log := Disabled({}, {}), map[], [];
    }

    ghost function State(): World
      reads this, storage
    {
      World(storage.reported, storage.errors, log)
    }

    function With(rules: RuleContent): Setup
      reads this
    {
      Setup(config, rules, disabled, previouslyReported)
    }

    /** produceEntriesToKafka: the number of notified events, or -1 with an error. */
    method ProduceEntriesToKafka(rules: RuleContent, e: Entry, x: Input, report: Report)
      returns (notified: int, failure: Option<string>)
      requires config.target.NotificationBackend?
      modifies this`log, storage`reported
      ensures State() == Notify(With(rules), old(State()), e, x, report)
      ensures var chosen := Selected(With(rules), e, Items(report));
              && failure == (if chosen == [] || x.answer.Delivered? then None else Some(x.answer.text))
              && notified == if failure.Some? then -1 else if x.answer == Delivered(-1) then 0 else |chosen|
    {
      var toStore := FilterDisabledRulesFromReport(disabled, e, report);
      var events := BuildEvents(With(rules), e, Items(report));
      ghost var chosen := Selected(With(rules), e, Items(report));
      assert |events| == |chosen|;
      if |events| == 0 {
        storage.WriteNotificationRecord(e, config.states.same, toStore, x.notifiedAt, "", config.target, x.writes);
        return 0, None;
      }
      match x.answer {
        case Unencoded(text) =>
          return -1, Some(text);
        case Undelivered(text) =>
          storage.WriteNotificationRecord(e, config.states.error, toStore, x.notifiedAt, text, config.target, x.writes);
          return -1, Some(text);
        case Delivered(offset) =>
          if offset != -1 {
            log := log + [Message(e.org, e.cluster, chosen, x.notifiedAt, |storage.reported|)];
            storage.WriteNotificationRecord(e, config.states.sent, toStore, x.notifiedAt, "", config.target, x.writes);
            return |events|, None;
          }
          return 0, None;
      }
    }

    /** ProduceEntriesToServiceLog: how many posts were accepted, or the failure to
        render; the accepted hits are remembered for the specification only. */
    method ProduceEntriesToServiceLog(rules: RuleContent, e: Entry, x: Input, items: seq<Item>)
      returns (total: nat, failure: Option<string>, ghost accepted: seq<Item>)
      requires config.target.ServiceLog?
      ensures accepted == OutcomeOf(config, Selected(With(rules), e, items), x).accepted
      ensures var outcome := OutcomeOf(config, Selected(With(rules), e, items), x);
              && total == |outcome.accepted|
              && failure == (if outcome.verdict.Failed? then Some(outcome.verdict.text) else None)
              && (failure.None? ==> outcome.verdict == if total == 0 then Same else Sent)
    {
      hide Selected;
      var toRender := GetReportsWithIssuesToNotify(With(rules), e, items);
      ghost var chosen := Selected(With(rules), e, items);
      total, failure, accepted := 0, None, [];
      if |toRender| == 0 {
        return;
      }
      match x.rendering {
        case RenderFailed(text) =>
          failure := Some(text);
        case Rendered(known) =>
          var posts := 0;
          for i := 0 to |toRender|
            invariant accepted + Accepted(chosen[i..], known, x.posted, posts) == Accepted(chosen, known, x.posted, 0)
            invariant total == |accepted|
          {
            assert chosen[i..][1..] == chosen[i + 1..];
            var item := toRender[i].item;
            if (item.component, item.errorKey) in known {
              var ok := x.posted(posts);
              posts := posts + 1;
              if ok {
                total := total + 1;
                accepted := accepted + [item];
              }
            }
          }
          assert chosen[|toRender|..] == [];
      }
    }

    method NotifyCluster(rules: RuleContent, e: Entry, x: Input, report: Report) returns (notified: nat)
      modifies this`log, storage`reported
      ensures State() == Notify(With(rules), old(State()), e, x, report)
      ensures notified == |Result(With(rules), e, x, report).accepted|
    {
      if config.target.NotificationBackend? {
        var events, failure := ProduceEntriesToKafka(rules, e, x, report);
        notified := if failure.Some? then 0 else events;
      } else {
        var failure;
        ghost var accepted;
        notified, failure, accepted := ProduceEntriesToServiceLog(rules, e, x, Items(report));
        var toStore := FilterDisabledRulesFromReport(disabled, e, report);
        if accepted != [] {
          log := log + [Message(e.org, e.cluster, accepted, x.notifiedAt, |storage.reported|)];
        }
        if failure.Some? {
          storage.WriteNotificationRecord(e, config.states.error, toStore, x.notifiedAt, failure.value, config.target,
                                          x.writes);
        } else if notified == 0 {
          storage.WriteNotificationRecord(e, config.states.same, toStore, x.notifiedAt, "", config.target, x.writes);
        } else {
          storage.WriteNotificationRecord(e, config.states.sent, toStore, x.notifiedAt, "", config.target, x.writes);
        }
      }
    }

    /** One pass of the loop over the clusters. */
    method ProcessOne(rules: RuleContent, e: Entry, x: Input) returns (kind: Kind, notified: nat)
      modifies this`log, storage
      ensures State() == ProcessCluster(With(rules), old(State()), e, x)
      ensures kind == KindOf(old(State()), e, x)
      ensures Issues(log) == Issues(old(log)) + notified
    {
      match x.reading {
        case NoRows =>
          return Skipped, 0;
        case ReadFailed(text) =>
          var known := storage.AskReadError(e, x.errorsRead);
          if known {
            return KnownError, 0;
          }
          var ok := storage.WriteReadError(e, text, x.errorsWritten);
          return Skipped, 0;
        case Got(report) =>
          if report.Unreadable? {
            return Skipped, 0;
          }
          if |Items(report)| == 0 {
            return EmptyReport, 0;
          }
          notified := NotifyCluster(rules, e, x, report);
          kind := Processed;
      }
    }

    /** processReportsByCluster. */
    method ProcessReportsByCluster(rules: RuleContent, entries: seq<Entry>, inputs: seq<Input>) returns (tally: Tally)
      requires |inputs| == |entries|
      modifies this`log, storage
      ensures var s, w := With(rules), old(State());
              && State() == ProcessAll(s, w, entries, inputs)
              && tally.clusters == |entries|
              && tally.skipped == CountKind(s, w, entries, inputs, Skipped)
              && tally.empty == CountKind(s, w, entries, inputs, EmptyReport)
              && tally.known == CountKind(s, w, entries, inputs, KnownError)
              && tally.processed == CountKind(s, w, entries, inputs, Processed)
              && tally.clusters == tally.skipped + tally.empty + tally.known + tally.processed
      ensures Issues(log) == Issues(old(log)) + tally.notified
    {
      hide ProcessCluster, KindOf;
      ghost var w, s := State(), With(rules);
      tally := Tally(|entries|, 0, 0, 0, 0, 0);
      for i := 0 to |entries|
        invariant State() == ProcessAll(s, w, entries[..i], inputs[..i])
        invariant tally.clusters == |entries|
        invariant tally.skipped == CountKind(s, w, entries[..i], inputs[..i], Skipped)
        invariant tally.empty == CountKind(s, w, entries[..i], inputs[..i], EmptyReport)
        invariant tally.known == CountKind(s, w, entries[..i], inputs[..i], KnownError)
        invariant tally.processed == CountKind(s, w, entries[..i], inputs[..i], Processed)
        invariant i == tally.skipped + tally.empty + tally.known + tally.processed
        invariant Issues(log) == Issues(old(log)) + tally.notified
      {
        assert Init(entries[..i + 1]) == entries[..i] && Init(inputs[..i + 1]) == inputs[..i];
        var kind, notified := ProcessOne(rules, entries[i], inputs[i]);
        tally := tally.(notified := tally.notified + notified);
        match kind {
          case Skipped => tally := tally.(skipped := tally.skipped + 1);
          case EmptyReport => tally := tally.(empty := tally.empty + 1);
          case KnownError => tally := tally.(known := tally.known + 1);
          case Processed => tally := tally.(processed := tally.processed + 1);
        }
      }
      assert entries[..|entries|] == entries && inputs[..|inputs|] == inputs;
    }

    /** start: the disabled rules are this run's, the cluster list is read and filtered,
        and the previous records are read once. */
    method Start(r: RunInput) returns (tally: Tally)
      requires r.Valid()
      modifies this, storage
      ensures State() == RunOnce(config, old(State()), r)
      ensures tally.clusters == |r.Entries()| && Issues(log) == Issues(old(log)) + tally.notified
    {
      disabled := r.disabled;
      var clusters := ReadClusterList(r.newReports);
      var entries, statistic := FilterClusterList(clusters, r.processing);
      if |entries| == 0 {
        return Tally(0, 0, 0, 0, 0, 0);
      }
      previouslyReported := ReadLastNotifiedRecordForClusterList(storage.reported, entries, r.now, config);
      tally := ProcessReportsByCluster(r.rules, entries, r.inputs);
    }
  }
}
