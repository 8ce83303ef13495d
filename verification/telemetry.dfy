/**
  Health reporting (src/utils/telemetry.rs): per-component health checks
  and the report that aggregates them into one overall status. Durations
  are given in whole milliseconds and the report's timestamp is the
  caller's clock reading.
*/
module Telemetry {
  import opened Errors

  datatype HealthStatus = Healthy | Degraded | Unhealthy

  datatype HealthCheck = HealthCheck(
    component: string,
    status: HealthStatus,
    message: Option<string>,
    responseTimeMs: nat)

  datatype HealthReport = HealthReport(
    overallStatus: HealthStatus,
    checks: seq<HealthCheck>,
    timestamp: nat,
    version: string)

  /** `HealthCheck::healthy`: no message. */
  function HealthyCheck(component: string, responseTimeMs: nat): (c: HealthCheck)
    ensures c.status == Healthy && c.message == None
    ensures c.component == component && c.responseTimeMs == responseTimeMs
  {
    HealthCheck(component, Healthy, None, responseTimeMs)
  }

  /** `HealthCheck::degraded`: the message is kept. */
  function DegradedCheck(component: string, message: string, responseTimeMs: nat): (c: HealthCheck)
    ensures c.status == Degraded && c.message == Some(message)
    ensures c.component == component && c.responseTimeMs == responseTimeMs
  {
    HealthCheck(component, Degraded, Some(message), responseTimeMs)
  }

  /** `HealthCheck::unhealthy`: the message is kept. */
  function UnhealthyCheck(component: string, message: string, responseTimeMs: nat): (c: HealthCheck)
    ensures c.status == Unhealthy && c.message == Some(message)
    ensures c.component == component && c.responseTimeMs == responseTimeMs
  {
    HealthCheck(component, Unhealthy, Some(message), responseTimeMs)
  }

  predicate AnyWith(checks: seq<HealthCheck>, status: HealthStatus) {
    exists i :: 0 <= i < |checks| && checks[i].status == status
  }

  /** The overall status as `HealthReport::new` decides it: unhealthy if
      any check is, else degraded if any check is, else healthy. */
  function OverallStatus(checks: seq<HealthCheck>): HealthStatus {
    if AnyWith(checks, Unhealthy) then Unhealthy
    else if AnyWith(checks, Degraded) then Degraded
    else Healthy
  }

  /** `HealthReport::new`. */
  function NewReport(checks: seq<HealthCheck>, version: string, now: nat): (r: HealthReport)
    ensures r.checks == checks && r.version == version && r.timestamp == now
    ensures r.overallStatus == Unhealthy <==> exists c :: c in checks && c.status == Unhealthy
    ensures r.overallStatus == Degraded <==>
      (forall c :: c in checks ==> c.status != Unhealthy) && exists c :: c in checks && c.status == Degraded
    ensures r.overallStatus == Healthy <==> forall c :: c in checks ==> c.status == Healthy
  {
    HealthReport(OverallStatus(checks), checks, now, version)
  }

  /** The severity order: healthy, degraded, unhealthy. */
  function Severity(s: HealthStatus): nat {
    match s
    case Healthy => 0
    case Degraded => 1
    case Unhealthy => 2
  }

  function Worse(a: HealthStatus, b: HealthStatus): (r: HealthStatus)
    ensures Severity(r) >= Severity(a) && Severity(r) >= Severity(b)
    ensures r == a || r == b
  {
    if Severity(a) >= Severity(b) then a else b
  }

  /** A second definition: the most severe status, checking the list
      from the front. */
  function WorstStatus(checks: seq<HealthCheck>): HealthStatus {
    if checks == [] then Healthy else Worse(checks[0].status, WorstStatus(checks[1..]))
  }

  /** The aggregation is the most severe status of all checks; an empty
      list is healthy. */
  lemma {:induction false} OverallIsWorst(checks: seq<HealthCheck>)
    ensures OverallStatus(checks) == WorstStatus(checks)
  {
    if checks != [] {
      var rest := checks[1..];
      OverallIsWorst(rest);
      assert forall s :: AnyWith(checks, s) <==> checks[0].status == s || AnyWith(rest, s) by {
        forall s
          ensures AnyWith(checks, s) <==> checks[0].status == s || AnyWith(rest, s)
        {
          if AnyWith(checks, s) {
            var i :| 0 <= i < |checks| && checks[i].status == s;
            if i > 0 {
              assert rest[i - 1] == checks[i];
            }
          }
          if AnyWith(rest, s) {
            var j :| 0 <= j < |rest| && rest[j].status == s;
            assert checks[j + 1] == rest[j];
          }
        }
      }
    }
  }

  /** The overall status of two lists run one after the other is the
      worse of their two statuses. */
  lemma OverallOfConcat(a: seq<HealthCheck>, b: seq<HealthCheck>)
    ensures OverallStatus(a + b) == Worse(OverallStatus(a), OverallStatus(b))
  {
    var ab := a + b;
    forall s
      ensures AnyWith(ab, s) <==> AnyWith(a, s) || AnyWith(b, s)
    {
      if AnyWith(ab, s) {
        var i :| 0 <= i < |ab| && ab[i].status == s;
        if i >= |a| {
          assert b[i - |a|] == ab[i];
        }
      }
      if AnyWith(a, s) {
        var i :| 0 <= i < |a| && a[i].status == s;
        assert ab[i] == a[i];
      }
      if AnyWith(b, s) {
        var j :| 0 <= j < |b| && b[j].status == s;
        assert ab[|a| + j] == b[j];
      }
    }
  }

  /** The overall status does not depend on the order of the checks: any
      rearrangement of the same checks gives the same status. */
  lemma OverallOrderIndependent(a: seq<HealthCheck>, b: seq<HealthCheck>)
    requires multiset(a) == multiset(b)
    ensures OverallStatus(a) == OverallStatus(b)
  {
    forall s
      ensures AnyWith(a, s) <==> AnyWith(b, s)
    {
      if AnyWith(a, s) {
        var i :| 0 <= i < |a| && a[i].status == s;
        assert a[i] in multiset(b);
        var j :| 0 <= j < |b| && b[j] == a[i];
      }
      if AnyWith(b, s) {
        var j :| 0 <= j < |b| && b[j].status == s;
        assert b[j] in multiset(a);
        var i :| 0 <= i < |a| && a[i] == b[j];
      }
    }
  }

  /** The module's own test: a healthy and a degraded check make a
      degraded report, and the healthy check keeps its component and
      time. */
  lemma ReportExample()
    ensures var db := HealthyCheck("db", 10);
      var cache := DegradedCheck("cache", "slow", 100);
      NewReport([db, cache], "0.1.0", 0).overallStatus == Degraded
    ensures HealthyCheck("database", 50).component == "database"
    ensures HealthyCheck("database", 50).responseTimeMs == 50
  {
    var db := HealthyCheck("db", 10);
    var cache := DegradedCheck("cache", "slow", 100);
    assert [db, cache][1].status == Degraded;
  }
}
