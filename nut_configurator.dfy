/**
 * The configurator proper: completion of the chosen candidate, change
 * detection against the device store, and the batched commit of service
 * commands.
 *
 * The device store (one file per device) is a map from device name to file
 * text, where a missing file reads as the empty text. The serializer and the
 * parser of configuration text are uninterpreted functions fixed at
 * construction. Every subprocess the configurator starts is recorded as one
 * entry of a command trace.
 */
module Configurator {
  import opened Options
  import opened Classifiers
  import opened Selection
  import opened UpsConfBlock

  /** One external command. */
  datatype Command =
    | SystemctlRun(operation: string, units: set<string>)  // sudo systemctl <operation> <units...>
    | NutConfigRun                                         // sudo fty-nutconfig

  /** Where a device's candidates come from. */
  datatype CandidateSource =
    | ExplicitBlock(block: string)  // the asset carries an upsconf block
    | Scanned(configs: Configs)     // result of scanning the device

  datatype ConfigureStatus =
    | Configured               // a candidate was chosen and completed
    | NoSuitableConfiguration  // nothing chosen; the caller tries again later
    | BlockOutOfRange          // the explicit block was too short and `at` threw

  /** The state a batch of configure and erase calls changes. */
  datatype Batch = Batch(store: map<string, string>, start: set<string>, stop: set<string>)

  /** The fields completion may add or overwrite. */
  const CompletionKeys: set<string> := {"name", "synchronous", "timeout", "pollfreq", "pollinterval"}

  /** The service unit of a device's driver. */
  function DriverUnit(name: string): (u: string)
    ensures |u| > |name| && u[|u| - |name|..] == name
  {
    "nut-driver@" + name
  }

  /** Text stored for a device; a missing file reads as "". */
  function Stored(store: map<string, string>, name: string): (t: string)
    ensures name !in store ==> t == ""
  {
    if name in store then store[name] else ""
  }

  /** `c` and `d` agree on field `k`, including on its absence. */
  predicate SameField(c: Config, d: Config, k: string)
  {
    (k in c <==> k in d) && (k in c ==> c[k] == d[k])
  }

  /** The completed configuration, stated on the candidate as selected. */
  function Completed(config: Config, name: string, polling: string): (r: Config)
    ensures "name" in r && r["name"] == name
    ensures forall k :: k !in CompletionKeys ==> SameField(r, config, k)
  {
    var named := config["name" := name];
    var synchronous := if IsEpdu(config) && CanSnmp(config) then named["synchronous" := "yes"] else named;
    var timed := if CanNetXml(config) then synchronous["timeout" := "15"] else synchronous;
    if CanSnmp(config) then timed["pollfreq" := polling] else timed["pollinterval" := polling]
  }

  /**
   * Batch after writing `text` for `name` only if it differs from what is
   * stored: the store then holds `text`, other devices and the stop set are
   * untouched, and the device's unit is queued to start exactly on change.
   */
  function Updated(b: Batch, name: string, text: string): (u: Batch)
    ensures Stored(u.store, name) == text
    ensures forall other :: other != name ==> Stored(u.store, other) == Stored(b.store, other)
    ensures u.stop == b.stop
    ensures b.start <= u.start <= b.start + {DriverUnit(name)}
    ensures Stored(b.store, name) == text ==> u == b
    ensures Stored(b.store, name) != text ==> DriverUnit(name) in u.start
  {
    if Stored(b.store, name) != text then
      Batch(b.store[name := text], b.start + {DriverUnit(name)}, b.stop)
    else b
  }

  /**
   * Batch after removing the file of `name`: it reads as empty, its unit is
   * queued to stop, and other devices and the start set are untouched.
   */
  function Erased(b: Batch, name: string): (e: Batch)
    ensures name !in e.store && Stored(e.store, name) == ""
    ensures forall other :: other != name ==> Stored(e.store, other) == Stored(b.store, other)
    ensures e.stop == b.stop + {DriverUnit(name)}
    ensures e.start == b.start
  {
    Batch(b.store - {name}, b.start, b.stop + {DriverUnit(name)})
  }

  /** Candidates of a device; only an explicit block of at most one character may throw. */
  function CandidatesOf(name: string, source: CandidateSource, parse: string -> Configs): (r: BlockConfigs)
    ensures r.OutOfRangeThrown? ==> source.ExplicitBlock? && |source.block| <= 1
  {
    match source
    case ExplicitBlock(block) => ConfigsFromBlock(name, block, parse)
    case Scanned(cs) => Parsed(cs)
  }

  /** The commands of one `systemctl` call: none at all for an empty unit set, else exactly one. */
  function SystemctlCommands(operation: string, units: set<string>): (r: seq<Command>)
    ensures r == [] <==> units == {}
    ensures forall c :: c in r ==> c == SystemctlRun(operation, units) && units != {}
    ensures |r| <= 1
  {
    if units == {} then [] else [SystemctlRun(operation, units)]
  }

  const ReloadServer: Command := SystemctlRun("reload-or-restart", {"nut-server"})

  /**
   * The commands one commit issues for the pending sets: the configuration
   * helper always runs, and no `systemctl` command has an empty unit list.
   */
  function CommitCommands(manage: bool, stop: set<string>, start: set<string>): (r: seq<Command>)
    ensures NutConfigRun in r
    ensures forall c :: c in r && c.SystemctlRun? ==> c.units != {}
  {
    if !manage then [NutConfigRun]
    else
      SystemctlCommands("disable", stop) + SystemctlCommands("stop", stop)
      + [NutConfigRun]
      + SystemctlCommands("restart", start) + SystemctlCommands("enable", start)
      + (if stop != {} || start != {} then [ReloadServer] else [])
  }

  class NutConfigurator {
    const manageSystemctl: bool
    const serialize: Config -> string
    const parse: string -> Configs
    var store: map<string, string>
    var startDrivers: set<string>
    var stopDrivers: set<string>
    var trace: seq<Command>

    constructor(manageSystemctl: bool, serialize: Config -> string, parse: string -> Configs,
                store: map<string, string>)
      ensures this.manageSystemctl == manageSystemctl
      ensures this.serialize == serialize && this.parse == parse
      ensures this.store == store && startDrivers == {} && stopDrivers == {} && trace == []
    {
      this.manageSystemctl := manageSystemctl;
      this.serialize := serialize;
      this.parse := parse;
      this.store := store;
      startDrivers := {};
      stopDrivers := {};
      trace := [];
    }

    function Pending(): (b: Batch)
      reads this
    {
      Batch(store, startDrivers, stopDrivers)
    }

    /** `systemctl(operation, first, last)`: nothing is issued for an empty range. */
    method Systemctl(operation: string, units: set<string>)
      modifies this`trace
      ensures trace == old(trace) + SystemctlCommands(operation, units)
    {
      if units == {} {
        return;
      }
      trace := trace + [SystemctlRun(operation, units)];
    }

    /** `updateNUTConfig`: run the configuration helper; its exit status is only logged. */
    method UpdateNutConfig()
      modifies this`trace
      ensures trace == old(trace) + [NutConfigRun]
    {
      trace := trace + [NutConfigRun];
    }

    /** `updateDeviceConfiguration`: complete the candidate, then write it and mark a restart only on change. */
    method UpdateDeviceConfiguration(name: string, config: Config, polling: string)
      modifies this`store, this`startDrivers
      ensures Pending() == Updated(old(Pending()), name, serialize(Completed(config, name, polling)))
    {
      var cfg := config;
      cfg := cfg["name" := name];
      if IsEpdu(cfg) && CanSnmp(cfg) {
        cfg := cfg["synchronous" := "yes"];
      }
      if CanNetXml(cfg) {
        cfg := cfg["timeout" := "15"];
      }
      if CanSnmp(cfg) {
        cfg := cfg["pollfreq" := polling];
      } else {
        cfg := cfg["pollinterval" := polling];
      }
      CompletedStepwise(config, name, polling);

      var oldConfiguration := Stored(store, name);
      var newConfiguration := serialize(cfg);
      if oldConfiguration != newConfiguration {
        store := store[name := newConfiguration];
        startDrivers := startDrivers + {DriverUnit(name)};
      }
    }

    /** `configure`: select a candidate and update the device; nothing changes when none is selected. */
    method Configure(name: string, source: CandidateSource, polling: string) returns (status: ConfigureStatus)
      modifies this`store, this`startDrivers
      ensures match CandidatesOf(name, source, parse)
        case OutOfRangeThrown =>
          status == BlockOutOfRange && Pending() == old(Pending())
        case Parsed(cs) =>
          match SelectBest(cs)
          case None =>
            status == NoSuitableConfiguration && Pending() == old(Pending())
          case Some(i) =>
            status == Configured &&
            Pending() == Updated(old(Pending()), name, serialize(Completed(cs[i], name, polling)))
    {
      var configs: Configs;
      match source {
        case ExplicitBlock(block) =>
          var fromBlock := ConfigurationFromUpsConfBlock(name, block, parse);
          if fromBlock.OutOfRangeThrown? {
            return BlockOutOfRange;
          }
          configs := fromBlock.configs;
        case Scanned(cs) =>
          configs := cs;
      }
      var best := SelectBest(configs);
      if best.None? {
        return NoSuitableConfiguration;
      }
      UpdateDeviceConfiguration(name, configs[best.value], polling);
      status := Configured;
    }

    /** `erase`: remove the device's file (a missing one is fine) and mark its driver to stop. */
    method Erase(name: string)
      modifies this`store, this`stopDrivers
      ensures Pending() == Erased(old(Pending()), name)
    {
      store := store - {name};
      stopDrivers := stopDrivers + {DriverUnit(name)};
    }

    /** `commit`: issue the batched commands in order, then clear both pending sets. */
    method Commit()
      modifies this`trace, this`startDrivers, this`stopDrivers
      ensures trace == old(trace) + CommitCommands(manageSystemctl, old(stopDrivers), old(startDrivers))
      ensures startDrivers == {} && stopDrivers == {}
    {
      if manageSystemctl {
        Systemctl("disable", stopDrivers);
        Systemctl("stop", stopDrivers);
      }
      UpdateNutConfig();
      if manageSystemctl {
        Systemctl("restart", startDrivers);
        Systemctl("enable", startDrivers);
        if stopDrivers != {} || startDrivers != {} {
          Systemctl("reload-or-restart", {"nut-server"});
        }
      }
      stopDrivers := {};
      startDrivers := {};
    }
  }

  // ---------------------------------------------------------------------
  // Completion

  /**
   * What completion adds: SNMP ePDUs become synchronous, NetXML devices get a
   * timeout of 15, and the polling interval goes to `pollfreq` for SNMP and to
   * `pollinterval` otherwise; fields not set are left as they were.
   */
  lemma CompletedFields(config: Config, name: string, polling: string)
    ensures var r := Completed(config, name, polling);
      && (IsEpdu(config) && CanSnmp(config) ==> "synchronous" in r && r["synchronous"] == "yes")
      && (!(IsEpdu(config) && CanSnmp(config)) ==> SameField(r, config, "synchronous"))
      && (CanNetXml(config) ==> "timeout" in r && r["timeout"] == "15")
      && (!CanNetXml(config) ==> SameField(r, config, "timeout"))
      && (CanSnmp(config) ==> "pollfreq" in r && r["pollfreq"] == polling && SameField(r, config, "pollinterval"))
      && (!CanSnmp(config) ==> "pollinterval" in r && r["pollinterval"] == polling && SameField(r, config, "pollfreq"))
  {
  }

  /** Setting a field other than `mibs`, `desc` and `driver` does not change how a candidate is classified. */
  lemma SetKeepsClassification(c: Config, k: string, v: string)
    requires k !in {"mibs", "desc", "driver"}
    ensures IsEpdu(c[k := v]) == IsEpdu(c) && IsAts(c[k := v]) == IsAts(c)
    ensures CanSnmp(c[k := v]) == CanSnmp(c) && CanNetXml(c[k := v]) == CanNetXml(c)
  {
    var d := c[k := v];
    assert SameField(d, c, "mibs") && SameField(d, c, "desc") && SameField(d, c, "driver");
  }

  /** Completion field by field, each test made on the configuration as updated so far. */
  lemma CompletedStepwise(config: Config, name: string, polling: string)
    ensures
      var named := config["name" := name];
      var synchronous := if IsEpdu(named) && CanSnmp(named) then named["synchronous" := "yes"] else named;
      var timed := if CanNetXml(synchronous) then synchronous["timeout" := "15"] else synchronous;
      var polled := if CanSnmp(timed) then timed["pollfreq" := polling] else timed["pollinterval" := polling];
      polled == Completed(config, name, polling)
  {
    var named := config["name" := name];
    SetKeepsClassification(config, "name", name);
    var synchronous := if IsEpdu(named) && CanSnmp(named) then named["synchronous" := "yes"] else named;
    SetKeepsClassification(named, "synchronous", "yes");
    var timed := if CanNetXml(synchronous) then synchronous["timeout" := "15"] else synchronous;
    SetKeepsClassification(synchronous, "timeout", "15");
    var polled := if CanSnmp(timed) then timed["pollfreq" := polling] else timed["pollinterval" := polling];
  }

  /** Completion does not change how a candidate is classified. */
  lemma CompletedKeepsClassification(config: Config, name: string, polling: string)
    ensures var r := Completed(config, name, polling);
      IsEpdu(r) == IsEpdu(config) && IsAts(r) == IsAts(config) &&
      CanSnmp(r) == CanSnmp(config) && CanNetXml(r) == CanNetXml(config)
  {
    var r := Completed(config, name, polling);
    assert SameField(r, config, "mibs") && SameField(r, config, "desc") && SameField(r, config, "driver");
  }

  /** Completing an already completed configuration changes nothing. */
  lemma CompletedIdempotent(config: Config, name: string, polling: string)
    ensures Completed(Completed(config, name, polling), name, polling) == Completed(config, name, polling)
  {
    var r := Completed(config, name, polling);
    CompletedKeepsClassification(config, name, polling);
    CompletedFields(config, name, polling);
    CompletedFields(r, name, polling);
    var rr := Completed(r, name, polling);
    forall k ensures SameField(rr, r, k) {
      if k !in CompletionKeys {
        assert SameField(rr, r, k);
      }
    }
    assert rr.Keys == r.Keys;
  }

  // ---------------------------------------------------------------------
  // Change detection and erasure

  /** Repeating an identical update is a no-op. */
  lemma UpdatedIdempotent(b: Batch, name: string, text: string)
    ensures Updated(Updated(b, name, text), name, text) == Updated(b, name, text)
  {
  }

  /** The same device configured twice from the same candidate writes once. */
  lemma UpdateDeviceTwiceWritesOnce(b: Batch, name: string, config: Config, polling: string,
                                    serialize: Config -> string)
    ensures var text := serialize(Completed(config, name, polling));
      var once := Updated(b, name, text);
      Updated(once, name, text) == once && Stored(once.store, name) == text
  {
    UpdatedIdempotent(b, name, serialize(Completed(config, name, polling)));
  }

  /** Distinct devices have distinct driver units. */
  lemma DriverUnitInjective(a: string, b: string)
    ensures DriverUnit(a) == DriverUnit(b) ==> a == b
  {
    var prefix := "nut-driver@";
    if DriverUnit(a) == DriverUnit(b) {
      assert a == DriverUnit(a)[|prefix|..];
      assert b == DriverUnit(b)[|prefix|..];
    }
  }

  /** A device erased and configured again in one batch is both stopped and restarted. */
  lemma EraseThenUpdate(b: Batch, name: string, text: string)
    requires text != ""
    ensures var u := Updated(Erased(b, name), name, text);
      DriverUnit(name) in u.stop && DriverUnit(name) in u.start && Stored(u.store, name) == text
  {
  }

  // ---------------------------------------------------------------------
  // Commit

  /** Without service management only the configuration helper runs. */
  lemma CommitUnmanaged(stop: set<string>, start: set<string>)
    ensures CommitCommands(false, stop, start) == [NutConfigRun]
  {
  }

  /**
   * With service management: the stop set is disabled and then stopped before
   * the helper; after it the start set is restarted and then enabled, and the
   * server reloaded; no command is issued twice.
   */
  lemma CommitManagedOrder(stop: set<string>, start: set<string>)
    ensures var cmds := CommitCommands(true, stop, start);
      var p := if stop == {} then 0 else 2;
      && p < |cmds| && cmds[p] == NutConfigRun
      && (stop != {} ==> cmds[0] == SystemctlRun("disable", stop) && cmds[1] == SystemctlRun("stop", stop))
      && (start != {} ==>
            p + 2 < |cmds| && cmds[p + 1] == SystemctlRun("restart", start) && cmds[p + 2] == SystemctlRun("enable", start))
      && (forall k :: p < k < |cmds| ==>
            cmds[k] == SystemctlRun("restart", start) || cmds[k] == SystemctlRun("enable", start) ||
            cmds[k] == ReloadServer)
      && (forall k, l :: 0 <= k < l < |cmds| ==> cmds[k] != cmds[l])
  {
    var cmds := CommitCommands(true, stop, start);
    var p := |SystemctlCommands("disable", stop) + SystemctlCommands("stop", stop)|;
    assert cmds[p] == NutConfigRun;
  }

  /** With both sets non-empty, a managed commit issues exactly the six commands in the source's order. */
  lemma CommitManagedSequence(stop: set<string>, start: set<string>)
    requires stop != {} && start != {}
    ensures CommitCommands(true, stop, start) ==
      [SystemctlRun("disable", stop), SystemctlRun("stop", stop), NutConfigRun,
       SystemctlRun("restart", start), SystemctlRun("enable", start), ReloadServer]
  {
  }

  /** With service management each pending set is disabled and stopped, or restarted and enabled, when non-empty. */
  lemma CommitManagedActsOnPending(stop: set<string>, start: set<string>)
    ensures var cmds := CommitCommands(true, stop, start);
      && (stop != {} <==> SystemctlRun("disable", stop) in cmds)
      && (stop != {} <==> SystemctlRun("stop", stop) in cmds)
      && (start != {} <==> SystemctlRun("restart", start) in cmds)
      && (start != {} <==> SystemctlRun("enable", start) in cmds)
  {
    var cmds := CommitCommands(true, stop, start);
    var p := |SystemctlCommands("disable", stop) + SystemctlCommands("stop", stop)|;
    assert cmds[p] == NutConfigRun;
    CommitManagedOrder(stop, start);
  }

  /** The NUT server is reloaded, as the last command, exactly when either set was non-empty. */
  lemma CommitReloadsServerIff(stop: set<string>, start: set<string>)
    ensures var cmds := CommitCommands(true, stop, start);
      (ReloadServer in cmds <==> stop != {} || start != {}) &&
      (stop != {} || start != {} ==> cmds[|cmds| - 1] == ReloadServer)
  {
  }

  /** Erasing one device and committing disables and stops its driver, and restarts nothing. */
  lemma EraseThenCommit(b: Batch, name: string)
    requires b.stop == {} && b.start == {}
    ensures var e := Erased(b, name);
      var u := DriverUnit(name);
      CommitCommands(true, e.stop, e.start) ==
        [SystemctlRun("disable", {u}), SystemctlRun("stop", {u}), NutConfigRun, ReloadServer]
  {
    var u := DriverUnit(name);
    var e := Erased(b, name);
    assert e.stop == {u} && e.start == {};
    assert SystemctlCommands("disable", {u}) == [SystemctlRun("disable", {u})];
    assert SystemctlCommands("stop", {u}) == [SystemctlRun("stop", {u})];
  }

  // ---------------------------------------------------------------------
  // Whole-device scenarios

  /** An SNMP UPS with an MGE MIB: selected, named, and polled through `pollfreq`. */
  lemma SnmpUpsScenario(b: Batch, serialize: Config -> string)
    ensures var c: Config := map["driver" := "snmp-ups", "mibs" := "mge-other"];
      var r := Completed(c, "ups1", "30");
      && SelectBest([c]) == Some(0)
      && r == c["name" := "ups1"]["pollfreq" := "30"]
      && (Stored(b.store, "ups1") != serialize(r) ==>
            "nut-driver@ups1" in Updated(b, "ups1", serialize(r)).start)
  {
    var c: Config := map["driver" := "snmp-ups", "mibs" := "mge-other"];
    assert CanSnmp(c) && !CanNetXml(c);
    assert !IsEpdu(c) by {
      assert c["mibs"] !in EpduMibs;
      assert "desc" !in c;
    }
    SingleSnmpCandidate(c);
    assert DriverUnit("ups1") == "nut-driver@ups1";
  }

  /** A lone SNMP candidate with a non-empty MIB name is selected. */
  lemma SingleSnmpCandidate(c: Config)
    requires CanSnmp(c) && HasNonEmptyMibs(c)
    ensures SelectBest([c]) == Some(0)
  {
    var cs := [c];
    assert cs[0] == c;
    assert AnyOf(cs, CanSnmp);
    assert !AnyOf(cs, CanNetXml);
    BestSnmpMibPreference(cs);
  }

  /** An SNMP ePDU is made synchronous and polled through `pollfreq`. */
  lemma SnmpEpduScenario(polling: string)
    ensures var c: Config := map["driver" := "snmp-ups", "mibs" := "eaton_epdu"];
      var r := Completed(c, "pdu1", polling);
      && IsEpdu(c) && CanSnmp(c)
      && r["synchronous"] == "yes" && r["pollfreq"] == polling && "pollinterval" !in r
  {
    var c: Config := map["driver" := "snmp-ups", "mibs" := "eaton_epdu"];
    assert !CanNetXml(c);
  }

  /** An SNMP ePDU is configured through SNMP although a NetXML candidate comes first. */
  lemma EpduPrefersSnmpOverNetXml()
    ensures SelectBest([map["driver" := "netxml-ups"], map["driver" := "snmp-ups", "mibs" := "eaton_epdu"]]) == Some(1)
  {
    var x: Config := map["driver" := "netxml-ups"];
    var s: Config := map["driver" := "snmp-ups", "mibs" := "eaton_epdu"];
    var cs := [x, s];
    assert CanSnmp(cs[1]) && IsEpdu(cs[1]);
    SnmpEpduOrAtsOutranksNetXml(cs, 1, 1);
    BestSnmpMibPreference(cs);
  }

  /** A block that is empty still configures the device, under its own name and with `pollinterval`. */
  lemma EmptyBlockConfiguresByName(name: string, block: string, parse: string -> Configs, polling: string)
    requires |block| >= 1 && (block[0] == '\0' || (|block| >= 2 && block[1] == '\0'))
    ensures var cands := ConfigsFromBlock(name, block, parse);
      && cands == Parsed([map["name" := name]])
      && SelectBest(cands.configs) == Some(0)
      && Completed(cands.configs[0], name, polling) == map["name" := name, "pollinterval" := polling]
  {
    var c: Config := map["name" := name];
    assert !CanSnmp(c) && !CanNetXml(c);
    SelectBestFallsBackToFirst([c]);
  }
}
