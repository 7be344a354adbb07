/** The owner of monitor configurations and task lifetimes (agent/network_monitor.go).
    Every operation of the manager holds its lock throughout and is one call here. */
module MonitorManager {
  import G = ResumeGuard
  import opened MonitorProtocol

  /** The last configuration of each non-empty ID. */
  function LastById(configs: seq<Config>): map<string, Config> {
    if |configs| == 0 then map[]
    else
      var last := configs[|configs| - 1];
      var before := LastById(configs[..|configs| - 1]);
      if last.id == "" then before else before[last.id := last]
  }

  ghost predicate IsLastWith(configs: seq<Config>, i: int, id: string) {
    0 <= i < |configs| && configs[i].id == id && forall j :: i < j < |configs| ==> configs[j].id != id
  }

  lemma {:induction false} LastByIdIsLast(configs: seq<Config>, id: string)
    ensures id in LastById(configs) <==> id != "" && exists i :: IsLastWith(configs, i, id)
    ensures id in LastById(configs) ==> LastById(configs)[id].id == id
    ensures forall i :: IsLastWith(configs, i, id) && id != "" ==> LastById(configs)[id] == configs[i]
  {
    if |configs| == 0 {
    } else {
      var n := |configs| - 1;
      var front := configs[..n];
      LastByIdIsLast(front, id);
      if configs[n].id == id {
        assert IsLastWith(configs, n, id);
      } else {
        forall i ensures IsLastWith(configs, i, id) <==> IsLastWith(front, i, id) {
          assert forall j :: 0 <= j < n ==> front[j] == configs[j];
        }
      }
    }
  }

  /** The uncancelled tasks are exactly those registered, each under its own ID. */
  ghost predicate Registered(tasks: seq<Task>, monitors: map<string, nat>) {
    && (forall id :: id in monitors ==>
          && monitors[id] < |tasks| && !tasks[monitors[id]].cancelled
          && tasks[monitors[id]].config.id == id && id != "")
    && (forall t :: 0 <= t < |tasks| && !tasks[t].cancelled ==>
          tasks[t].config.id in monitors && monitors[tasks[t].config.id] == t)
  }

  /** The manager as part of the protocol, with whatever callers there are. */
  function ViewOf(tasks: seq<Task>, monitors: map<string, nat>, trace: seq<G.Event>, callers: map<nat, Caller>): World {
    World(tasks, callers, trace, monitors, Idle)
  }

  /** Between two operations of the manager, whatever callers do, the uncancelled tasks stay
      exactly those registered and the guard runs on. */
  lemma {:induction false} ProbingKeepsRegistered(w: World, step: Step)
    requires Enabled(w, step) && IsProbing(step) && Registered(w.tasks, w.monitors)
    ensures var w' := Apply(w, step);
      w'.monitors == w.monitors && Registered(w'.tasks, w'.monitors) && (G.Running(w'.trace) <==> G.Running(w.trace))
  {
  }

  function Dropped(tasks: seq<Task>, t: nat): seq<Task>
    requires t < |tasks|
  {
    tasks[t := tasks[t].(cancelled := true)]
  }

  lemma {:induction false} DropKeeps(tasks: seq<Task>, monitors: map<string, nat>, trace: seq<G.Event>,
                                     callers: map<nat, Caller>, id: string)
    requires Registered(tasks, monitors) && id in monitors
    ensures Registered(Dropped(tasks, monitors[id]), monitors - {id})
    ensures Leads(ViewOf(tasks, monitors, trace, callers), [Remove(id)],
                  ViewOf(Dropped(tasks, monitors[id]), monitors - {id}, trace, callers))
  {
    LeadsByOne(ViewOf(tasks, monitors, trace, callers), Remove(id));
  }

  /** All tasks once a configuration has been installed. */
  function Installed(tasks: seq<Task>, monitors: map<string, nat>, config: Config): seq<Task>
    requires config.id in monitors ==> monitors[config.id] < |tasks|
  {
    if config.id in monitors then
      var existing := monitors[config.id];
      Dropped(tasks, existing) + [CopyOf(config, existing, tasks[existing])]
    else tasks + [NewTask(config)]
  }

  lemma {:induction false} InstallKeepsRegistered(tasks: seq<Task>, monitors: map<string, nat>, config: Config)
    requires Registered(tasks, monitors) && config.id != ""
    ensures Registered(Installed(tasks, monitors, config), monitors[config.id := |tasks|])
  {
  }

  lemma {:induction false} InstallLeads(tasks: seq<Task>, monitors: map<string, nat>, trace: seq<G.Event>,
                                        callers: map<nat, Caller>,
                                        config: Config, now: int)
    requires Registered(tasks, monitors) && config.id != ""
    requires config.id in monitors ==> tasks[monitors[config.id]].config != config
    ensures Leads(ViewOf(tasks, monitors, trace, callers),
                  if config.id in monitors then [Cancel(config), Replace(now)] else [Create(config, now)],
                  ViewOf(Installed(tasks, monitors, config), monitors[config.id := |tasks|], GuardStarted(trace, now),
                         callers))
  {
    var w := ViewOf(tasks, monitors, trace, callers);
    if config.id in monitors {
      var cancelled := Apply(w, Cancel(config));
      LeadsByOne(w, Cancel(config));
      LeadsByOne(cancelled, Replace(now));
      LeadsOn(w, [Cancel(config)], cancelled, [Replace(now)], Apply(cancelled, Replace(now)));
      assert [Cancel(config)] + [Replace(now)] == [Cancel(config), Replace(now)];
    } else {
      LeadsByOne(w, Create(config, now));
    }
  }

  /** A wanted ID has its last configuration: the same task as before if that was
      already its configuration, else a new one with the history of the old one. */
  ghost predicate Synced(before: seq<Task>, registered: map<string, nat>, tasks: seq<Task>, monitors: map<string, nat>,
                         id: string, config: Config)
  {
    && id in monitors && monitors[id] < |tasks| && tasks[monitors[id]].config == config
    && (id in registered ==> registered[id] < |before|)
    && (if id in registered && before[registered[id]].config == config then
          monitors[id] == registered[id] && tasks[monitors[id]] == before[registered[id]]
        else
          && monitors[id] >= |before|
          && tasks[monitors[id]].log == if id in registered then before[registered[id]].log else [])
  }

  /** Stopping other tasks first makes no difference to a wanted ID. */
  lemma {:induction false} SyncedThroughStop(before: seq<Task>, registered: map<string, nat>, stopped: seq<Task>,
                                             kept: map<string, nat>,
                                             tasks: seq<Task>, monitors: map<string, nat>, id: string, config: Config)
    requires |stopped| == |before| && Synced(stopped, kept, tasks, monitors, id, config)
    requires id in registered <==> id in kept
    requires id in kept ==> kept[id] == registered[id] < |before| && stopped[kept[id]] == before[kept[id]]
    ensures Synced(before, registered, tasks, monitors, id, config)
  {
  }

  /** Where StopRemoved is with the given keys still to look at. */
  ghost predicate Stopping(before: seq<Task>, registered: map<string, nat>, tasks: seq<Task>,
                           monitors: map<string, nat>,
                           keys: set<string>, wanted: map<string, Config>)
  {
    && |tasks| == |before|
    && monitors == (map id | id in registered && (id in keys || id in wanted) :: registered[id])
    && (forall id :: id in monitors ==> monitors[id] < |tasks| && tasks[monitors[id]] == before[monitors[id]])
  }

  lemma {:induction false} StopOne(before: seq<Task>, registered: map<string, nat>, tasks: seq<Task>,
                                   monitors: map<string, nat>,
                                   keys: set<string>, wanted: map<string, Config>, key: string)
    requires Stopping(before, registered, tasks, monitors, keys, wanted) && Registered(tasks, monitors)
    requires key in keys && key in registered
    ensures key in wanted ==> Stopping(before, registered, tasks, monitors, keys - {key}, wanted)
    ensures key !in wanted ==>
              key in monitors && Stopping(before, registered, Dropped(tasks, monitors[key]), monitors - {key},
                                          keys - {key}, wanted)
  {
    if key !in wanted {
      assert key in monitors;
      forall id | id in monitors && id != key ensures monitors[id] != monitors[key] {
        assert tasks[monitors[id]].config.id == id;
      }
    }
  }

  /** Where StartWanted is with the given keys still to look at. */
  ghost predicate Starting(before: seq<Task>, registered: map<string, nat>, tasks: seq<Task>,
                           monitors: map<string, nat>,
                           keys: set<string>, wanted: map<string, Config>)
  {
    && |tasks| >= |before| && keys <= wanted.Keys
    && monitors.Keys == registered.Keys + (wanted.Keys - keys)
    && (forall id :: id in keys && id in registered ==>
          monitors[id] == registered[id] < |before| && tasks[monitors[id]] == before[monitors[id]])
    && (forall id :: id in wanted && id !in keys ==> Synced(before, registered, tasks, monitors, id, wanted[id]))
  }

  lemma {:induction false} StartOne(before: seq<Task>, registered: map<string, nat>, tasks: seq<Task>,
                                    monitors: map<string, nat>,
                                    keys: set<string>, wanted: map<string, Config>, key: string)
    requires Starting(before, registered, tasks, monitors, keys, wanted) && Registered(tasks, monitors)
    requires key in keys && wanted[key].id == key
    requires !(key in monitors && tasks[monitors[key]].config == wanted[key])
    ensures Starting(before, registered, Installed(tasks, monitors, wanted[key]), monitors[key := |tasks|],
                     keys - {key}, wanted)
  {
    var tasks', monitors' := Installed(tasks, monitors, wanted[key]), monitors[key := |tasks|];
    forall id | id in monitors && id != key
      ensures monitors'[id] == monitors[id] && tasks'[monitors[id]] == tasks[monitors[id]]
    {
      assert tasks[monitors[id]].config.id == id;
      assert key in monitors ==> tasks[monitors[key]].config.id == key;
    }
    forall id | id in wanted && id !in keys - {key}
      ensures Synced(before, registered, tasks', monitors', id, wanted[id])
    {
      assert id != key ==> Synced(before, registered, tasks, monitors, id, wanted[id]);
    }
  }

  lemma {:induction false} KeepOne(before: seq<Task>, registered: map<string, nat>, tasks: seq<Task>,
                                   monitors: map<string, nat>,
                                   keys: set<string>, wanted: map<string, Config>, key: string)
    requires Starting(before, registered, tasks, monitors, keys, wanted) && Registered(tasks, monitors)
    requires key in keys && key in monitors && tasks[monitors[key]].config == wanted[key]
    ensures Starting(before, registered, tasks, monitors, keys - {key}, wanted)
  {
    assert key in registered;
  }

  /** `tasks` holds every task ever created; a task is known by its index. */
  class Manager {
    var tasks: seq<Task>
    var monitors: map<string, nat>
    const guard: G.Guard

    ghost predicate Valid()
      reads this, guard
    {
      Busy() && (G.Running(guard.trace) <==> monitors != map[])
    }

    /** The state in the middle of an operation: the guard may still be running with
        nothing registered. */
    ghost predicate Busy()
      reads this, guard
    {
      guard.Valid() && Registered(tasks, monitors) && (monitors != map[] ==> G.Running(guard.trace))
    }

    ghost function View(callers: map<nat, Caller>): World
      reads this, guard
    {
      ViewOf(tasks, monitors, guard.trace, callers)
    }

    constructor ()
      ensures Valid() && View(map[]) == INITIAL
    {
      tasks := [];
      monitors := map[];
      guard := new G.Guard();
    }

    /** Cancels and unregisters the task of an ID. */
    method Drop(id: string, ghost callers: map<nat, Caller>)
      requires Busy() && id in monitors
      modifies this
      ensures Busy() && monitors == old(monitors) - {id}
      ensures tasks == Dropped(old(tasks), old(monitors)[id])
      ensures Leads(old(View(callers)), [Remove(id)], View(callers))
    {
      DropKeeps(tasks, monitors, guard.trace, callers, id);
      var task := monitors[id];
      tasks := tasks[task := tasks[task].(cancelled := true)];
      monitors := monitors - {id};
    }

    /** Registers a task for a configuration, replacing the task of its ID if there is one. */
    method Install(config: Config, now: int, ghost callers: map<nat, Caller>) returns (ghost steps: seq<Step>)
      requires Busy() && config.id != ""
      requires config.id in monitors ==> tasks[monitors[config.id]].config != config
      modifies this, guard
      ensures Busy() && monitors == old(monitors)[config.id := old(|tasks|)]
      ensures tasks == Installed(old(tasks), old(monitors), config)
      ensures Leads(old(View(callers)), steps, View(callers))
    {
      InstallKeepsRegistered(tasks, monitors, config);
      InstallLeads(tasks, monitors, guard.trace, callers, config, now);
      steps := if config.id in monitors then [Cancel(config), Replace(now)] else [Create(config, now)];
      var task := |tasks|;
      if config.id in monitors {
        var existing := monitors[config.id];
        tasks := tasks[existing := tasks[existing].(cancelled := true)];
        tasks := tasks + [CopyOf(config, existing, tasks[existing])];
      } else {
        tasks := tasks + [NewTask(config)];
      }
      guard.Start(now);
      monitors := monitors[config.id := task];
    }

    /** The guard is shut down when nothing is left to monitor. */
    method Settle(ghost callers: map<nat, Caller>) returns (ghost steps: seq<Step>)
      requires Busy()
      modifies guard
      ensures Valid() && Leads(old(View(callers)), steps, View(callers))
    {
      steps := [];
      LeadsNowhere(View(callers));
      if |monitors| == 0 {
        steps := [Shutdown];
        LeadsByOne(View(callers), Shutdown);
        guard.Shutdown();
      }
    }

    /** Stops every task whose ID is not wanted. */
    method StopRemoved(wanted: map<string, Config>, ghost callers: map<nat, Caller>) returns (ghost steps: seq<Step>)
      requires Busy()
      modifies this
      ensures Busy() && |tasks| == old(|tasks|)
      ensures monitors == map id | id in old(monitors) && id in wanted :: old(monitors)[id]
      ensures forall id :: id in monitors ==> tasks[monitors[id]] == old(tasks)[monitors[id]]
      ensures Leads(old(View(callers)), steps, View(callers))
    {
      steps := [];
      ghost var start := View(callers);
      LeadsNowhere(start);
      var keys := monitors.Keys;
      while keys != {}
        invariant Busy() && keys <= start.monitors.Keys
        invariant Stopping(start.tasks, start.monitors, tasks, monitors, keys, wanted)
        invariant Leads(start, steps, View(callers))
        decreases |keys|
      {
        var key :| key in keys;
        StopOne(start.tasks, start.monitors, tasks, monitors, keys, wanted, key);
        keys := keys - {key};
        if key !in wanted {
          ghost var w := View(callers);
          Drop(key, callers);
          LeadsOn(start, steps, w, [Remove(key)], View(callers));
          steps := steps + [Remove(key)];
        }
      }
    }

    /** Starts new monitors and restarts those whose configuration changed. */
    method StartWanted(wanted: map<string, Config>, now: int, ghost callers: map<nat, Caller>)
      returns (ghost steps: seq<Step>)
      requires Busy() && monitors.Keys <= wanted.Keys
      requires forall id :: id in wanted ==> id != "" && wanted[id].id == id
      modifies this, guard
      ensures Busy() && monitors.Keys == wanted.Keys
      ensures forall id :: id in wanted ==> Synced(old(tasks), old(monitors), tasks, monitors, id, wanted[id])
      ensures Leads(old(View(callers)), steps, View(callers))
    {
      steps := [];
      ghost var start := View(callers);
      LeadsNowhere(start);
      var keys := wanted.Keys;
      while keys != {}
        invariant Busy()
        invariant Starting(start.tasks, start.monitors, tasks, monitors, keys, wanted)
        invariant Leads(start, steps, View(callers))
        decreases |keys|
      {
        var key :| key in keys;
        if key in monitors && tasks[monitors[key]].config == wanted[key] {
          KeepOne(start.tasks, start.monitors, tasks, monitors, keys, wanted, key);
        } else {
          StartOne(start.tasks, start.monitors, tasks, monitors, keys, wanted, key);
          ghost var w := View(callers);
          ghost var more := Install(wanted[key], now, callers);
          LeadsOn(start, steps, w, more, View(callers));
          steps := steps + more;
        }
        keys := keys - {key};
      }
    }

    static method Wanted(configs: seq<Config>) returns (wanted: map<string, Config>)
      ensures wanted == LastById(configs) && forall id :: id in wanted ==> id != "" && wanted[id].id == id
    {
      wanted := map[];
      for i := 0 to |configs|
        invariant wanted == LastById(configs[..i])
      {
        assert configs[..i + 1][..i] == configs[..i];
        if configs[i].id != "" {
          wanted := wanted[configs[i].id := configs[i]];
        }
      }
      assert configs[..|configs|] == configs;
      forall id | id in wanted ensures id != "" && wanted[id].id == id {
        LastByIdIsLast(configs, id);
      }
    }

    /** Replaces all monitors with the given configurations: what is registered
        afterwards is the last configuration of each non-empty ID, unchanged tasks
        are left alone, and the whole operation is a run of protocol steps. */
    method SyncMonitors(configs: seq<Config>, now: int, ghost callers: map<nat, Caller>)
      returns (ghost steps: seq<Step>)
      requires Valid()
      modifies this, guard
      ensures Valid() && monitors.Keys == LastById(configs).Keys
      ensures forall id :: id in monitors ==>
                Synced(old(tasks), old(monitors), tasks, monitors, id, LastById(configs)[id])
      ensures Leads(old(View(callers)), steps, View(callers))
    {
      var wanted := Wanted(configs);
      steps := StopRemoved(wanted, callers);
      ghost var stopped := View(callers);
      ghost var starting := StartWanted(wanted, now, callers);
      ghost var started := View(callers);
      ghost var settling := Settle(callers);
      forall id | id in wanted ensures Synced(old(tasks), old(monitors), tasks, monitors, id, wanted[id]) {
        SyncedThroughStop(old(tasks), old(monitors), stopped.tasks, stopped.monitors, tasks, monitors, id, wanted[id]);
      }
      LeadsOn(stopped, starting, started, settling, View(callers));
      LeadsOn(old(View(callers)), steps, stopped, starting + settling, View(callers));
      steps := steps + (starting + settling);
    }

    /** Creates or replaces one monitor; an unchanged configuration leaves its task alone. */
    method UpsertMonitor(config: Config, now: int, ghost callers: map<nat, Caller>)
      returns (missingId: bool, ghost steps: seq<Step>)
      requires Valid()
      modifies this, guard
      ensures Valid() && (missingId <==> config.id == "")
      ensures missingId ==> View(callers) == old(View(callers))
      ensures !missingId ==> Synced(old(tasks), old(monitors), tasks, monitors, config.id, config)
      ensures !missingId ==> monitors == old(monitors)[config.id := monitors[config.id]]
      ensures |tasks| >= old(|tasks|)
      ensures forall t :: 0 <= t < old(|tasks|) && (config.id in old(monitors) ==> t != old(monitors)[config.id]) ==>
                tasks[t] == old(tasks)[t]
      ensures Leads(old(View(callers)), steps, View(callers))
    {
      missingId, steps := config.id == "", [];
      LeadsNowhere(View(callers));
      if missingId || (config.id in monitors && tasks[monitors[config.id]].config == config) {
        return;
      }
      steps := Install(config, now, callers);
    }

    /** Stops and removes one monitor. */
    method DeleteMonitor(id: string, ghost callers: map<nat, Caller>) returns (ghost steps: seq<Step>)
      requires Valid()
      modifies this, guard
      ensures Valid() && monitors == old(monitors) - {id}
      ensures tasks == if id in old(monitors) then Dropped(old(tasks), old(monitors)[id]) else old(tasks)
      ensures Leads(old(View(callers)), steps, View(callers))
    {
      steps := [];
      LeadsNowhere(View(callers));
      if id == "" {
        return;
      }
      if id in monitors {
        Drop(id, callers);
        steps := [Remove(id)];
      }
      ghost var w := View(callers);
      ghost var more := Settle(callers);
      LeadsOn(old(View(callers)), steps, w, more, View(callers));
      steps := steps + more;
    }

    /** Stops all monitors: every task ever created is cancelled and the guard is down. */
    method Stop(ghost callers: map<nat, Caller>) returns (ghost steps: seq<Step>)
      requires Valid()
      modifies this, guard
      ensures Valid() && monitors == map[] && !G.Running(guard.trace)
      ensures forall t :: 0 <= t < |tasks| ==> tasks[t].cancelled
      ensures Leads(old(View(callers)), steps, View(callers))
    {
      steps := StopRemoved(map[], callers);
      ghost var w := View(callers);
      ghost var more := Settle(callers);
      LeadsOn(old(View(callers)), steps, w, more, View(callers));
      steps := steps + more;
    }
  }
}
