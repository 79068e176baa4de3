/** The alert kinds and the request validation shared by node and relay. */
module AlertProto {
  import opened Common

  datatype State = Firing | Ok | Info

  datatype Severity = Critical | Warning | InfoSev

  /** `relay` marks alerts raised by the relay itself rather than by a node. */
  datatype AlertInfo = AlertInfo(name: string, severity: Severity, relay: bool)

  const NODE_SILENT := "node_silent"

  const ALERTS: seq<AlertInfo> := [
    AlertInfo("service_down", Critical, false),
    AlertInfo("crash_loop", Critical, false),
    AlertInfo("sync_stalled", Critical, false),
    AlertInfo("sync_behind", Warning, false),
    AlertInfo("not_enough_peers", Warning, false),
    AlertInfo("disk_low", Warning, false),
    AlertInfo("memory_high", Warning, false),
    AlertInfo("fds_high", Warning, false),
    AlertInfo("backup_stale", Warning, false),
    AlertInfo("wallet_backup_missing", InfoSev, false),
    AlertInfo("rpc_unreachable", Warning, false),
    AlertInfo("momentums_stalled", Critical, false),
    AlertInfo("pillar_missed", Critical, false),
    AlertInfo("update_available", InfoSev, false),
    AlertInfo(NODE_SILENT, Critical, true)
  ]

  const EVENTS: set<string> := {"started", "test"}

  const MAX_TITLE_LEN := 200
  const MAX_DETAIL_LEN := 2000

  /** An alert report; only the lengths of its texts matter to validation. */
  datatype Report = Report(alert: string, state: State, severity: Severity, titleLen: nat, detailLen: nat)

  /** Whether `name` is one of the known alert kinds. */
  predicate Known(name: string) {
    exists i | 0 <= i < |ALERTS| :: ALERTS[i].name == name
  }

  predicate ValidAlert(r: Report) {
    && (Known(r.alert) || r.alert in EVENTS)
    && (r.alert in EVENTS ==> r.state == Info && r.severity == InfoSev)
    && r.titleLen <= MAX_TITLE_LEN
    && r.detailLen <= MAX_DETAIL_LEN
  }

  /** The rules a node evaluates, in their fixed order: every alert the relay does not raise itself. */
  const RULES: seq<AlertInfo> := ALERTS[..14]
}
