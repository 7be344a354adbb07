/** The fast path of the packet loss alerts on what the two caches return
    (internal/alerts/alerts_network_monitors.go, alerts_cache.go and
    network_monitor_cache.go together). */
module FastPath {
  import opened Common
  import A = AlertsCache
  import C = MonitorCache
  import L = MonitorAlerts

  /** Reads the cached fields of a record: None unless it is a packet loss alert. */
  type Reader = string -> Option<L.CachedAlert>

  /** The packet loss alerts among a system's alerts. */
  function LossAlerts(read: Reader, alerts: map<string, string>): map<string, L.CachedAlert> {
    map id | id in alerts && read(alerts[id]).Some? :: read(alerts[id]).value
  }

  /** The database the transaction works on, seen from the records and the monitors in it. */
  ghost predicate Stands(read: Reader, alerts: map<string, A.Alert>, monitors: map<string, C.Monitor>, system: string,
                         hub: L.Hub, input: L.Input) {
    && hub.desk.held.Keys == hub.alerts.Keys
    && L.CachedOf(hub) == LossAlerts(read, A.AlertsOf(alerts, system))
    && input.enabled == C.EnabledOf(monitors, system)
  }

  /** What a look at the monitor cache gives: the entry, or a load. */
  function Monitors(w: C.World, system: string): map<string, int> {
    if system in w.systems then w.systems[system] else C.EnabledOf(w.db, system)
  }

  /** At any points of any runs of the two caches at which nothing is pending for a system
      and no reader of its alerts is misled, as none is by alerts that never left it, the
      fast path on what they return asks for the transaction if and only if it would fail
      or save an alert. */
  lemma {:induction false} CachedFastPathExact(read: Reader, alerts: seq<A.World>, alertSteps: seq<A.Step>, n: nat,
                                               monitors: seq<C.World>, monitorSteps: seq<C.Step>, k: nat,
                                               system: string, hub: L.Hub, input: L.Input)
    requires A.IsRun(alerts, alertSteps) && n <= |alertSteps| && C.IsRun(monitors, monitorSteps) && k <= |monitorSteps|
    requires system != "" && system !in monitors[k].pending && A.Answers(alerts[n], system)
    requires alerts[n].populated || alerts[n].load.Filling?
    requires forall id :: !A.Misled(alerts, alertSteps, n, system, id)
    requires forall i :: 0 <= i < |alerts[n].queue| ==> alerts[n].queue[i].system != system
    requires Stands(read, alerts[n].db, monitors[k].db, system, hub, input) && input.up
    ensures L.TransitionPending(LossAlerts(read, A.Read(alerts[n], system)), Monitors(monitors[k], system),
                                input.results, input.now) <==>
            L.Fails(hub) || exists a :: a in hub.alerts && L.Saves(hub, a, input)
  {
    A.ReadIsExact(alerts, alertSteps, n, system);
    C.CachedMeansEnabled(monitors, monitorSteps, k, system);
    L.FastPathExact(hub, input);
  }

  /** Handling results through the caches. If no query fails and nothing is pending for the
      system, the effect is the transaction's; otherwise it is that or none. Either way both
      caches stay coherent. */
  method HandleThroughCaches(read: Reader, alerts: A.Cache, monitors: C.Cache, system: string,
                             hub: L.Hub, input: L.Input,
                             ghost alertDb: map<string, A.Alert>, ghost queue: seq<A.Event>,
                             alertRows: Option<seq<A.Row>>,
                             ghost monitorDb: map<string, C.Monitor>, ghost pending: seq<string>,
                             monitorRows: Option<seq<C.Row>>)
    returns (failed: bool, result: L.Hub)
    requires Stands(read, alertDb, monitorDb, system, hub, input) && input.up && system != ""
    requires alertRows.Some? ==> A.Returns(alertRows.value, alertDb, s => s == system)
    requires monitorRows.Some? ==> C.Answers(monitorRows.value, monitorDb, system)
    requires A.Coherent(alerts.Seen(alertDb, queue)) && C.Coherent(C.World(monitorDb, monitors.systems, pending, None))
    modifies alerts`store, monitors
    ensures A.Coherent(alerts.Seen(alertDb, queue)) && C.Coherent(C.World(monitorDb, monitors.systems, pending, None))
    ensures result == hub || L.Transacted(hub, result, input)
    ensures old(alerts.populated) && alertRows.Some? && monitorRows.Some? && system !in pending
            && (forall i :: 0 <= i < |queue| ==> queue[i].system != system) ==>
              (failed <==> L.Fails(hub)) && (!failed ==> L.Transacted(hub, result, input))
  {
    ghost var before := alerts.Seen(alertDb, queue);
    var all := alerts.GetSystemAlerts(system, alertDb, queue, alertRows);
    var loss := LossAlerts(read, all);
    if loss == map[] {
      failed, result := L.HandleNetworkMonitorAlerts(hub, input, loss, Some(input.enabled));
    } else {
      var enabled := monitors.Get(system, monitorDb, pending, monitorRows);
      failed, result := L.HandleNetworkMonitorAlerts(hub, input, loss, enabled);
    }
    if before.populated && alertRows.Some? && forall i :: 0 <= i < |queue| ==> queue[i].system != system {
      A.QuietSystemIsExact(before, system);
    }
  }
}
