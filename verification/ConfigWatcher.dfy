/**
 Hot reload: the watcher loads the file again, applies the sections that may change at runtime in
 place, and reports the others as needing a restart.
 */
module ConfigWatcher {
  import opened Options

  /** A section's value, as the comparison of two configurations sees it */
  type Value = string

  type Config = map<string, Value>

  /** What loading the file gives under a profile; None is a file that does not load. */
  type Disk = Value -> Option<Config>

  const HOT_RELOADABLE: set<string> := {
    "scheduling", "monitoring", "archive", "llm_logging", "agents_config", "auto_task", "logging",
    "agent_profiles", "global_token_budget_daily", "max_daily_playbook_tokens",
    "max_concurrent_playbook_runs", "rate_limits", "state_machine", "work_graph", "swarm", "resources",
    "test_selection", "metrics", "providers", "provider_failover", "routing", "docs", "graph_layout",
    "dashboard_server", "host_shell", "pricing", "surface", "project_roots", "git_identity", "workspaces",
    "deploy", "knowledge", "wait_policy"
  }

  predicate IsHot(section: string) {
    section in HOT_RELOADABLE
  }

  lemma ProfileIsNotHot()
    ensures !IsHot("profile")
  {
  }

  datatype Report =
    | LoadFailed
    | Report(changed: set<string>, restartRequired: set<string>, applied: set<string>)

  datatype Event =
    | Reloaded(sections: set<string>, config: Config, previous: Config)
    | RestartNeeded(sections: set<string>)

  predicate SameSections(a: Config, b: Config) {
    a.Keys == b.Keys
  }

  ghost predicate Loads(disk: Disk, config: Config) {
    forall profile :: disk(profile).Some? ==> SameSections(disk(profile).value, config)
  }

  function Changed(a: Config, b: Config): set<string>
    requires SameSections(a, b)
  {
    set section | section in a && a[section] != b[section]
  }

  function Hot(sections: set<string>): set<string> {
    set section | section in sections && IsHot(section)
  }

  function Cold(sections: set<string>): set<string> {
    set section | section in sections && !IsHot(section)
  }

  /** The configuration with the hot sections of the file */
  function Applied(config: Config, file: Config): Config
    requires SameSections(config, file)
  {
    map section | section in config :: if IsHot(section) then file[section] else config[section]
  }

  function ReportOn(config: Config, file: Config): Report
    requires SameSections(config, file)
  {
    var changed := Changed(config, file);
    Report(changed, Cold(changed), Hot(changed))
  }

  function EventsOf(config: Config, file: Config): seq<Event>
    requires SameSections(config, file)
  {
    var report := ReportOn(config, file);
    (if report.applied == {} then [] else [Reloaded(report.applied, Applied(config, file), config)])
    + (if report.restartRequired == {} then [] else [RestartNeeded(report.restartRequired)])
  }

  lemma NothingToApply(config: Config, file: Config)
    requires SameSections(config, file) && Hot(Changed(config, file)) == {}
    ensures Applied(config, file) == config
  {
    hide IsHot;
    forall section | section in config ensures Applied(config, file)[section] == config[section] {
      assert section !in Hot(Changed(config, file));
    }
  }

  /** diff_configs */
  method DiffConfigs(a: Config, b: Config) returns (changed: set<string>)
    requires SameSections(a, b)
    ensures changed == Changed(a, b)
  {
    changed := {};
    var todo := a.Keys;
    while todo != {}
      invariant todo <= a.Keys
      invariant changed == set section | section in a && section !in todo && a[section] != b[section]
      decreases |todo|
    {
      var section :| section in todo;
      todo := todo - {section};
      if a[section] != b[section] {
        changed := changed + {section};
      }
    }
  }

  class ConfigWatcher {
    var config: Config
    var lastMtime: real
    var emitted: seq<Event>

    constructor (config: Config, mtime: real)
      ensures this.config == config && lastMtime == mtime && emitted == []
    {
      this.config, lastMtime, emitted := config, mtime, [];
    }

    /** Sets the changed hot sections one by one, in place. */
    method ApplySections(hot: set<string>, file: Config)
      requires SameSections(config, file) && hot == Hot(Changed(config, file))
      modifies this`config
      ensures config == Applied(old(config), file)
    {
      hide IsHot;
      var todo := hot;
      while todo != {}
        invariant todo <= hot && SameSections(config, file)
        invariant forall section :: section in config ==>
          config[section] == if section in hot && section !in todo then file[section] else old(config)[section]
        decreases |todo|
      {
        var section :| section in todo;
        todo := todo - {section};
        config := config[section := file[section]];
      }
      assert config == Applied(old(config), file);
    }

    /** reload */
    method Reload(disk: Disk) returns (report: Report)
      requires "profile" in config && Loads(disk, config)
      modifies this`config, this`emitted
      ensures
        var file := disk(old(config)["profile"]);
        if file.None? then report == LoadFailed && config == old(config) && emitted == old(emitted)
        else
          && report == ReportOn(old(config), file.value)
          && config == Applied(old(config), file.value)
          && emitted == old(emitted) + EventsOf(old(config), file.value)
    {
      hide IsHot;
      var loaded := disk(config["profile"]);
      if loaded.None? {
        return LoadFailed;
      }
      var file, previous := loaded.value, config;
      var changed := DiffConfigs(previous, file);
      if changed == {} {
        NothingToApply(config, file);
        return Report({}, {}, {});
      }
      var hot, restart := Hot(changed), Cold(changed);
      if hot != {} {
        ApplySections(hot, file);
        emitted := emitted + [Reloaded(hot, config, previous)];
      } else {
        NothingToApply(config, file);
      }
      if restart != {} {
        emitted := emitted + [RestartNeeded(restart)];
      }
      return Report(changed, restart, hot);
    }

    /** _check_for_changes: a changed file is looked at once, whether it loads or not. */
    method CheckForChanges(mtime: Option<real>, disk: Disk) returns (reloaded: bool)
      requires "profile" in config && Loads(disk, config)
      modifies this
      ensures reloaded <==> mtime.Some? && mtime.value != old(lastMtime)
      ensures lastMtime == if mtime.Some? then mtime.value else old(lastMtime)
      ensures
        var file := disk(old(config)["profile"]);
        && config == (if reloaded && file.Some? then Applied(old(config), file.value) else old(config))
        && emitted == old(emitted) + (if reloaded && file.Some? then EventsOf(old(config), file.value) else [])
    {
      if mtime.None? || mtime.value == lastMtime {
        return false;
      }
      lastMtime := mtime.value;
      var _ := Reload(disk);
      return true;
    }
  }

  /** Section by section: one that differs is reported; it takes effect if it is hot, and asks for a
      restart if it is not. */
  lemma ReloadBySection(config: Config, file: Config, section: string)
    requires SameSections(config, file) && section in config
    ensures
      var report, differs := ReportOn(config, file), config[section] != file[section];
      && (section in report.changed <==> differs)
      && (section in report.applied <==> differs && section in HOT_RELOADABLE)
      && (section in report.restartRequired <==> differs && section !in HOT_RELOADABLE)
      && Applied(config, file)[section] == (if section in HOT_RELOADABLE then file else config)[section]
  {
  }

  /** Listeners hear of a reload exactly when a hot section differs, with the old and the new
      configuration, and then of a restart exactly when another one does. */
  lemma EventsAre(config: Config, file: Config, e: Event)
    requires SameSections(config, file)
    ensures
      var report, events := ReportOn(config, file), EventsOf(config, file);
      var hot := exists section :: section in config && section in HOT_RELOADABLE && config[section] != file[section];
      var cold := exists section :: section in config && section !in HOT_RELOADABLE && config[section] != file[section];
      && |events| == (if hot then 1 else 0) + (if cold then 1 else 0)
      && (hot ==> events[0] == Reloaded(report.applied, Applied(config, file), config))
      && (cold ==> events[|events| - 1] == RestartNeeded(report.restartRequired))
  {
    hide Applied;
    SomethingDiffers(config, file);
  }

  lemma SomethingDiffers(config: Config, file: Config)
    requires SameSections(config, file)
    ensures Hot(Changed(config, file)) != {} <==>
      exists section :: section in config && section in HOT_RELOADABLE && config[section] != file[section]
    ensures Cold(Changed(config, file)) != {} <==>
      exists section :: section in config && section !in HOT_RELOADABLE && config[section] != file[section]
  {
    var hot, cold := Hot(Changed(config, file)), Cold(Changed(config, file));
    if section :| section in hot {
      assert section in config && section in HOT_RELOADABLE && config[section] != file[section];
    }
    if section :| section in cold {
      assert section in config && section !in HOT_RELOADABLE && config[section] != file[section];
    }
    if section :| section in config && section in HOT_RELOADABLE && config[section] != file[section] {
      assert section in hot;
    }
    if section :| section in config && section !in HOT_RELOADABLE && config[section] != file[section] {
      assert section in cold;
    }
  }

  // ----- Any history of reloads -----

  function Reloading(config: Config, disk: Disk): Config
    requires "profile" in config
    requires disk(config["profile"]).Some? ==> SameSections(disk(config["profile"]).value, config)
  {
    var file := disk(config["profile"]);
    if file.Some? then Applied(config, file.value) else config
  }

  ghost predicate AllLoad(startup: Config, disks: seq<Disk>) {
    "profile" in startup && forall i :: 0 <= i < |disks| ==> Loads(disks[i], startup)
  }

  /** The configuration after the first n reloads */
  ghost function Current(startup: Config, disks: seq<Disk>, n: nat): (config: Config)
    requires n <= |disks| && AllLoad(startup, disks)
    ensures SameSections(config, startup)
  {
    if n == 0 then startup else Reloading(Current(startup, disks, n - 1), disks[n - 1])
  }

  /** The last of the first n files that loaded, all read under the profile of the startup */
  ghost function LastLoaded(startup: Config, disks: seq<Disk>, n: nat): (file: Option<Config>)
    requires n <= |disks| && AllLoad(startup, disks)
    ensures file.Some? ==> SameSections(file.value, startup)
  {
    if n == 0 then None
    else
      var file := disks[n - 1](startup["profile"]);
      if file.Some? then file else LastLoaded(startup, disks, n - 1)
  }

  /** After any history, hot sections are those of the last file that loaded, all others those of
      the startup; failed loads leave no trace. */
  lemma {:induction false} CurrentIsStartupWithLastFile(startup: Config, disks: seq<Disk>, n: nat)
    requires n <= |disks| && AllLoad(startup, disks)
    ensures
      var file := LastLoaded(startup, disks, n);
      Current(startup, disks, n) == if file.Some? then Applied(startup, file.value) else startup
  {
    hide IsHot;
    if n > 0 {
      CurrentIsStartupWithLastFile(startup, disks, n - 1);
      ProfileIsNotHot();
      var before := Current(startup, disks, n - 1);
      assert before["profile"] == startup["profile"];
      var file := disks[n - 1](startup["profile"]);
      if file.Some? && LastLoaded(startup, disks, n - 1).Some? {
        LastApplyWins(startup, LastLoaded(startup, disks, n - 1).value, file.value);
      }
    }
  }

  /** Applying a second file forgets the first. */
  lemma LastApplyWins(config: Config, first: Config, second: Config)
    requires SameSections(config, first) && SameSections(config, second)
    ensures Applied(Applied(config, first), second) == Applied(config, second)
  {
    hide IsHot;
  }

  /** What the next reload reports: the restart set depends on the startup and the file alone, and
      only what differs from the last loaded file is applied. */
  lemma ReportIgnoresHistory(startup: Config, disks: seq<Disk>, n: nat, file: Config)
    requires n <= |disks| && AllLoad(startup, disks) && SameSections(file, startup)
    ensures
      var report := ReportOn(Current(startup, disks, n), file);
      var last := LastLoaded(startup, disks, n);
      && report.restartRequired == Cold(Changed(startup, file))
      && report.applied == Hot(Changed(if last.Some? then last.value else startup, file))
      && report.changed == report.restartRequired + report.applied
  {
    hide IsHot;
    CurrentIsStartupWithLastFile(startup, disks, n);
  }

  /** Reloading the file that was loaded last applies nothing, changes nothing and emits no reload. */
  lemma SameFileAppliesNothing(startup: Config, disks: seq<Disk>, n: nat)
    requires n <= |disks| && AllLoad(startup, disks) && LastLoaded(startup, disks, n).Some?
    ensures
      var config, file := Current(startup, disks, n), LastLoaded(startup, disks, n).value;
      && Applied(config, file) == config && ReportOn(config, file).applied == {}
      && forall e :: e in EventsOf(config, file) ==> e == RestartNeeded(Cold(Changed(startup, file)))
  {
    hide IsHot;
    CurrentIsStartupWithLastFile(startup, disks, n);
    ReportIgnoresHistory(startup, disks, n, LastLoaded(startup, disks, n).value);
  }

  /** A restart is asked for exactly as long as the running configuration is not what the file says. */
  lemma RestartIffNotInForce(config: Config, file: Config)
    requires SameSections(config, file)
    ensures ReportOn(config, file).restartRequired == {} <==> Applied(config, file) == file
  {
    hide IsHot;
    if ReportOn(config, file).restartRequired == {} {
      forall section | section in config ensures Applied(config, file)[section] == file[section] {
        assert section !in Cold(Changed(config, file));
      }
    } else {
      var section :| section in ReportOn(config, file).restartRequired;
      assert Applied(config, file)[section] != file[section];
    }
  }
}
