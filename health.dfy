/**
  The database connection string and the health report: the database probe
  `checkDatabaseHealth` and the overall report `performHealthCheck`. The ping,
  the clock, the connection's readyState and the process uptime are inputs;
  memory and system figures are not modelled.
*/
module Health {
  import opened Common
  import opened Strings

  /** `${uri}/${dbName}`, with "-test" appended to the database name under NODE_ENV "test". */
  function ConnectionString(uri: string, dbName: string, nodeEnv: Option<string>): (s: string)
    ensures nodeEnv == Some("test") ==> s == uri + "/" + dbName + "-test"
    ensures nodeEnv != Some("test") ==> s == uri + "/" + dbName
  {
    uri + "/" + dbName + (if nodeEnv == Some("test") then "-test" else "")
  }

  /** The database name can be read back from the connection string: the part after the uri and the slash. */
  lemma ConnectionStringNamesDatabase(uri: string, dbName: string, nodeEnv: Option<string>)
    ensures var s := ConnectionString(uri, dbName, nodeEnv);
            && s[..|uri| + 1] == uri + "/"
            && (nodeEnv == Some("test") ==> s[|uri| + 1..] == dbName + "-test")
            && (nodeEnv != Some("test") ==> s[|uri| + 1..] == dbName)
  {
    var s := ConnectionString(uri, dbName, nodeEnv);
    if nodeEnv == Some("test") {
      assert s == (uri + "/") + (dbName + "-test");
    } else {
      assert s == (uri + "/") + dbName;
    }
  }

  datatype HealthStatus = Healthy | Unhealthy
  datatype DbState = Disconnected | Connected | Connecting | Disconnecting | Error

  /** `DatabaseHealth`; the optional fields are present or not depending on how the probe ended. */
  datatype DatabaseHealth = DatabaseHealth(
    status: HealthStatus,
    state: DbState,
    responseTime: string,
    name: Option<string>,
    host: Option<string>,
    port: Option<int>,
    error: Option<string>)

  /** How the ping went: it returned after `elapsed` ms with the connection in `readyState`, or it threw. */
  datatype Probe =
    | Pinged(elapsed: nat, readyState: int, name: string, host: string, port: int)
    | Threw(isError: bool, message: string)

  /** The `dbStatus` table for the four readyStates it knows; any other state reads as state 0. */
  function StateName(readyState: int): (s: DbState)
    ensures s != Error
    ensures readyState == 0 || readyState !in {0, 1, 2, 3} ==> s == Disconnected
    ensures s == Connected <==> readyState == 1
    ensures s == Connecting <==> readyState == 2
    ensures s == Disconnecting <==> readyState == 3
  {
    if readyState == 1 then Connected
    else if readyState == 2 then Connecting
    else if readyState == 3 then Disconnecting
    else Disconnected
  }

  /** `checkDatabaseHealth()` given the outcome of its ping. */
  function CheckDatabaseHealth(probe: Probe): (h: DatabaseHealth)
    ensures h.status == Healthy <==> probe.Pinged? && probe.readyState == 1
    ensures probe.Pinged? ==> h.state == StateName(probe.readyState) && h.error.None?
                              && h.responseTime == NatToString(probe.elapsed) + "ms"
                              && h.name == Some(probe.name) && h.host == Some(probe.host) && h.port == Some(probe.port)
    ensures probe.Threw? ==> h.state == Error && h.responseTime == "0ms"
                             && h.name.None? && h.host.None? && h.port.None?
                             && h.error == Some(if probe.isError then probe.message else "Unknown error")
  {
    match probe
    case Pinged(elapsed, readyState, name, host, port) =>
      DatabaseHealth(if readyState == 1 then Healthy else Unhealthy, StateName(readyState),
                     NatToString(elapsed) + "ms", Some(name), Some(host), Some(port), None)
    case Threw(isError, message) =>
      DatabaseHealth(Unhealthy, Error, "0ms", None, None, None, Some(if isError then message else "Unknown error"))
  }

  /** The database's status and state agree: healthy exactly in the connected state. */
  lemma HealthyMeansConnected(probe: Probe)
    ensures CheckDatabaseHealth(probe).status == Healthy <==> CheckDatabaseHealth(probe).state == Connected
  {
  }

  /** An uptime in whole hours, minutes (below 60) and seconds (below 60). */
  datatype Clock = Clock(hours: nat, minutes: nat, seconds: nat)

  predicate Normal(c: Clock) {
    c.minutes < 60 && c.seconds < 60
  }

  function TotalSeconds(c: Clock): nat {
    c.hours * 3600 + c.minutes * 60 + c.seconds
  }

  /**
    The h/m/s split of an uptime of `u` whole seconds. For a fractional uptime
    every term only depends on its whole seconds, so `u` is the uptime floored.
  */
  function UptimeClock(u: nat): (c: Clock)
    ensures Normal(c) && TotalSeconds(c) == u
  {
    Clock(u / 3600, (u % 3600) / 60, u % 60)
  }

  /** The split is the only normal clock with that many seconds. */
  lemma UptimeClockUnique(u: nat, c: Clock)
    requires Normal(c) && TotalSeconds(c) == u
    ensures c == UptimeClock(u)
  {
    var rest := c.minutes * 60 + c.seconds;
    assert rest < 3600;
    assert u == c.hours * 3600 + rest;
    assert c.hours == u / 3600 && rest == u % 3600;
    assert c.minutes == rest / 60 && c.seconds == rest % 60;
  }

  /** `${h}h ${m}m ${s}s`. */
  function FormatUptime(u: nat): string {
    var c := UptimeClock(u);
    NatToString(c.hours) + "h " + NatToString(c.minutes) + "m " + NatToString(c.seconds) + "s"
  }

  /** The overall status: "healthy", "degraded" or "unhealthy". */
  datatype OverallStatus = Good | Degraded | Down

  /** The modelled part of `HealthCheckResponse`; `detailed` stands for the CPU and resource figures. */
  datatype HealthReport<D> = HealthReport(
    status: OverallStatus,
    message: string,
    timestamp: string,
    responseTime: string,
    environment: string,
    uptime: string,
    database: DatabaseHealth,
    detailed: Option<D>)

  const HEALTHY_MESSAGE := "Backend is running smoothly"
  const ISSUES_MESSAGE := "Backend is experiencing issues"

  /**
    `performHealthCheck(detailed)` given the database result, the elapsed ms,
    the timestamp, the environment, the uptime in whole seconds and the detailed figures.
  */
  function PerformHealthCheck<D>(detailed: Option<bool>, database: DatabaseHealth, elapsed: nat, timestamp: string,
                                 nodeEnv: string, uptime: nat, details: D): (r: (HealthReport<D>, int))
    ensures database.status == Healthy ==> r.0.status == Good && r.1 == 200 && r.0.message == HEALTHY_MESSAGE
    ensures database.status != Healthy ==> r.0.status == Degraded && r.1 == 503 && r.0.message == ISSUES_MESSAGE
    ensures r.0.status != Down
    ensures r.0.database == database
    ensures r.0.detailed.Some? <==> detailed == Some(true)
    ensures r.0.responseTime == NatToString(elapsed) + "ms"
    ensures r.0.uptime == FormatUptime(uptime)
    ensures r.0.environment == nodeEnv && r.0.timestamp == timestamp
  {
    var isHealthy := database.status == Healthy;
    var report := HealthReport(if isHealthy then Good else Degraded,
                               if isHealthy then HEALTHY_MESSAGE else ISSUES_MESSAGE,
                               timestamp, NatToString(elapsed) + "ms", nodeEnv, FormatUptime(uptime),
                               database, None);
    var report' := if detailed.GetOr(false) then report.(detailed := Some(details)) else report;
    (report', if isHealthy then 200 else 503)
  }

  /** End to end: the report answers 200 exactly when the ping returned with the connection in readyState 1. */
  lemma OkIffConnected<D>(probe: Probe, detailed: Option<bool>, elapsed: nat, timestamp: string, nodeEnv: string,
                          uptime: nat, details: D)
    ensures var r := PerformHealthCheck(detailed, CheckDatabaseHealth(probe), elapsed, timestamp, nodeEnv, uptime, details);
            r.1 == 200 <==> probe.Pinged? && probe.readyState == 1
    ensures var r := PerformHealthCheck(detailed, CheckDatabaseHealth(probe), elapsed, timestamp, nodeEnv, uptime, details);
            r.1 == 503 <==> r.0.status == Degraded
  {
  }
}
