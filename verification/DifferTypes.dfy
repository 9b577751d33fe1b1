/** Reports, clusters, disabled rules and database rows of the notification service
    (types.go). A report is its JSON document: the hits under the key "reports" and
    everything else, kept verbatim. */
module DifferTypes {
  import opened Wrappers

  datatype Item = Item(kind: string, component: string, errorKey: string, details: string)

  datatype Report =
    | Report(fields: string, reports: Option<seq<Item>>)
    | Unreadable(text: string)

  datatype Entry = Entry(org: nat, account: nat, cluster: string, kafkaOffset: int, updatedAt: int)

  datatype ClusterOrgKey = ClusterOrgKey(org: nat, cluster: string)

  // The aggregator stores organization numbers as text.
  datatype ClusterRuleKey = ClusterRuleKey(org: string, cluster: string, rule: string, errorKey: string)
  datatype OrgRuleKey = OrgRuleKey(org: string, rule: string, errorKey: string)
  datatype Disabled = Disabled(forCluster: set<ClusterRuleKey>, forOrg: set<OrgRuleKey>)

  datatype Target = NotificationBackend | ServiceLog

  // A row of the `reported` table.
  datatype Record = Record(
    org: nat, account: nat, cluster: string, state: int, report: Report,
    updatedAt: int, notifiedAt: int, errorLog: string, target: Target)

  // A row of the `read_errors` table.
  datatype ReadError = ReadError(org: nat, cluster: string, updatedAt: int, text: string)

  // What the rule content, the event filter and the tag filter say about a hit.
  datatype Assessment = Assessment(passes: bool, totalRisk: int, description: string)

  datatype StateIds = StateIds(same: int, sent: int, error: int)

  // Rule content, filter expression and tags by module and key; every run fetches its own.
  type RuleContent = (string, string) -> Assessment

  // None is a cool-down configured as empty or zero.
  datatype Config = Config(target: Target, cooldown: Option<int>, states: StateIds)

  function KeyOf(e: Entry): ClusterOrgKey {
    ClusterOrgKey(e.org, e.cluster)
  }

  /** The hits that deserializing a report yields. */
  function Items(r: Report): seq<Item> {
    if r.Report? && r.reports.Some? then r.reports.value else []
  }

  function Decimal(n: nat): string {
    var digit := "0123456789"[n % 10];
    if n < 10 then [digit] else Decimal(n / 10) + [digit]
  }

  function TrimSuffix(s: string, suffix: string): string {
    if |s| >= |suffix| && s[|s| - |suffix|..] == suffix then s[..|s| - |suffix|] else s
  }
}
