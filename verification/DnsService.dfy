/**
 The DNS override of the service: `core/dns` and the part of the engine manager that
 drives it.

 The adapter's configuration and the state file outlive the process.  `power` counts the
 effects on them that are still carried out before the machine or the process dies; after
 that nothing changes any more until the next start.  `user` is the configuration the
 adapter had before the service ever touched it.
 */
module DnsService {
  import opened Common

  // AdapterDnsConfig
  datatype Config = Config(index: nat, alias: string, guid: Option<string>, description: Option<string>,
                           dhcp4: bool, dhcp6: bool, ipv4: seq<string>, ipv6: seq<string>)

  datatype Provider = Automatic | Cloudflare | Google | Quad9 | System

  predicate Overrides(p: Provider) {
    !p.System?
  }

  function EndpointsV4(p: Provider): seq<string> {
    match p
    case Automatic => ["1.1.1.1", "1.0.0.1"]
    case Cloudflare => ["1.1.1.1", "1.0.0.1"]
    case Google => ["8.8.8.8", "8.8.4.4"]
    case Quad9 => ["9.9.9.9", "149.112.112.112"]
    case System => []
  }

  function EndpointsV6(p: Provider): seq<string> {
    match p
    case Automatic => ["2606:4700:4700::1111", "2606:4700:4700::1001"]
    case Cloudflare => ["2606:4700:4700::1111", "2606:4700:4700::1001"]
    case Google => ["2001:4860:4860::8888", "2001:4860:4860::8844"]
    case Quad9 => ["2620:fe::fe", "2620:fe::9"]
    case System => []
  }

  // The adapter once the provider's servers are set.
  function Overridden(c: Config, p: Provider): Config {
    c.(dhcp4 := false, dhcp6 := false, ipv4 := EndpointsV4(p), ipv6 := EndpointsV6(p))
  }

  // DnsOverrideState
  datatype Saved = Saved(active: bool, original: Config, provider: Provider)

  datatype Engine = GoodbyeDpi | ByeDpi | Native

  // What the environment does to one call: which outside operations succeed.
  datatype Env = Env(profileOk: bool, kaspersky: bool, findOk: bool, saveOk: bool, applyOk: bool, loadOk: bool,
                     restoreOk: bool, clearOk: bool, startOk: bool, healthy: bool)
  {
    // Everything works on a machine with Kaspersky.
    ghost predicate AllWell() {
      profileOk && kaspersky && findOk && saveOk && applyOk && loadOk && restoreOk && clearOk && startOk && healthy
    }
  }

  // The file holds the user's exact configuration, ready to be restored.
  ghost predicate Holds(file: Option<Saved>, user: Config) {
    file.Some? && file.value.active && Overrides(file.value.provider) && file.value.original == user
  }

  // Nothing is lost: the user's configuration is on the adapter or in the file.
  ghost predicate Safe(adapter: Config, file: Option<Saved>, user: Config) {
    adapter == user || Holds(file, user)
  }

  // Moreover the file never holds anything else.
  ghost predicate Kept(adapter: Config, file: Option<Saved>, user: Config) {
    if file.Some? then Holds(file, user) else adapter == user
  }

  datatype Command =
    | Start(e: Engine, env: Env)
    | Auto(preferred: Engine, fallback: Engine, env: Env, env': Env)
    | Stop(env: Env)
    | Choose(p: Provider)
  {
    ghost predicate Works() {
      match this
      case Start(_, env) => Restores(env)
      case Auto(_, _, env, env') => Restores(env) && Restores(env')
      case Stop(env) => Restores(env)
      case Choose(_) => true
    }
  }

  datatype Session = Session(env: Env, charge: nat, commands: seq<Command>)
  {
    ghost predicate Works() {
      Restores(env) && forall i :: 0 <= i < |commands| ==> commands[i].Works()
    }
  }

  // Reading the file and restoring the adapter work.
  ghost predicate Restores(env: Env) {
    env.loadOk && env.restoreOk
  }

  class Service {
    const valid: Config -> bool   // the checks of AdapterDnsConfig::validate
    ghost const user: Config
    // What outlives the process.
    var adapter: Config
    var file: Option<Saved>
    var power: nat
    // ManagerInner.
    var provider: Provider
    var applied: bool
    var engine: Option<Engine>

    // Between the manager's calls: while the process lives, its flag tells where the
    // user's configuration is.
    ghost predicate Inv()
      reads this
    {
      && Whole()
      && (power > 0 ==> (applied ==> engine.Some? && file.Some?) && (!applied ==> adapter == user))
    }

    // Nothing is lost, and what is in the file can be read back.
    ghost predicate Whole()
      reads this
    {
      Kept(adapter, file, user) && (file.Some? ==> valid(user))
    }

    // A machine on which the service has never run.
    constructor (valid: Config -> bool, adapter: Config, power: nat)
      ensures Inv() && this.valid == valid && user == this.adapter == adapter && file == None
    {
      this.valid, user := valid, adapter;
      this.adapter, file, this.power := adapter, None, power;
      provider, applied, engine := Automatic, false, None;
    }

    // ---- Effects ----------------------------------------------------------------

    method WriteFile(s: Saved)
      modifies this`file, this`power
      ensures file == (if old(power) > 0 then Some(s) else old(file))
      ensures power == if old(power) > 0 then old(power) - 1 else 0
    {
      if power > 0 {
        file, power := Some(s), power - 1;
      }
    }

    method RemoveFile()
      modifies this`file, this`power
      ensures file == (if old(power) > 0 then None else old(file))
      ensures power == if old(power) > 0 then old(power) - 1 else 0
    {
      if power > 0 {
        file, power := None, power - 1;
      }
    }

    method SetAdapter(c: Config)
      modifies this`adapter, this`power
      ensures adapter == (if old(power) > 0 then c else old(adapter))
      ensures power == if old(power) > 0 then old(power) - 1 else 0
    {
      if power > 0 {
        adapter, power := c, power - 1;
      }
    }

    // ---- DnsCompatibilityController ---------------------------------------------

    // load_state
    method LoadState(env: Env) returns (ok: bool, s: Option<Saved>)
      ensures ok <==> file.None? || (env.loadOk && valid(file.value.original))
      ensures ok ==> s == file
    {
      if file.None? {
        return true, None;
      }
      ok := env.loadOk && valid(file.value.original);
      s := file;
    }

    // clear_state; a file that cannot be removed is left.
    method ClearState(env: Env)
      modifies this`file, this`power
      ensures file == if old(power) > 0 && env.clearOk then None else old(file)
      ensures power <= old(power)
    {
      if file.Some? && env.clearOk {
        RemoveFile();
      }
    }

    // apply_dns: the snapshot is in the file before the adapter changes.
    method ApplyDns(p: Provider, env: Env) returns (ok: bool)
      requires Overrides(p)
      modifies this`file, this`adapter, this`power
      ensures power <= old(power) && (old(power) == 0 ==> file == old(file) && adapter == old(adapter))
      ensures file == old(file) || (file == Some(Saved(true, old(adapter), p)) && valid(old(adapter)))
      ensures ok <==> env.findOk && valid(old(adapter)) && env.saveOk && env.applyOk
      ensures ok && power > 0 ==> adapter == Overridden(old(adapter), p) && file == Some(Saved(true, old(adapter), p))
      ensures !ok ==> adapter == old(adapter)
      ensures power + 2 >= old(power)
      // With the user's configuration on the adapter nothing is lost, wherever power fails;
      // with another one, storing the snapshot loses the user's.
      ensures old(adapter) == user && old(Kept(adapter, file, user)) ==> Kept(adapter, file, user)
      ensures old(adapter) != user && file != old(file) ==> !Kept(adapter, file, user)
    {
      if !env.findOk || !valid(adapter) || !env.saveOk {
        return false;
      }
      var snapshot := adapter;
      WriteFile(Saved(true, snapshot, p));
      if !env.applyOk {
        return false;
      }
      SetAdapter(Overridden(snapshot, p));
      ok := true;
    }

    // The file can be read back.
    ghost predicate Readable(env: Env)
      reads this
    {
      file.Some? && env.loadOk && valid(file.value.original)
    }

    // restore_dns; a restore that fails leaves the file.
    method RestoreDns(env: Env)
      modifies this`file, this`adapter, this`power
      ensures power <= old(power)
      ensures !env.restoreOk && old(Readable(env) ==> Holds(file, user)) ==>
        adapter == old(adapter) && file == old(file) && power == old(power)
      ensures old(Whole()) ==> Whole() && (adapter == old(adapter) || adapter == user)
      ensures old(Whole()) && env.loadOk && env.restoreOk && power > 0 ==>
        adapter == user && (env.clearOk ==> file == None)
    {
      var ok, s := LoadState(env);
      if ok && s.Some? {
        if s.value.active && Overrides(s.value.provider) {
          if !env.restoreOk {
            return;
          }
          SetAdapter(s.value.original);
        }
        ClearState(env);
      }
    }

    // handle_boot_recovery without resuming.  It clears the file even if the restore failed.
    method BootRecovery(env: Env)
      modifies this`file, this`adapter, this`power
      ensures power <= old(power)
      ensures old(Whole()) && (env.restoreOk || old(adapter) == user) ==> Whole()
      ensures old(Whole()) && env.loadOk && env.restoreOk && power > 0 ==>
        adapter == user && (env.clearOk ==> file == None)
      // Exactly a failed restore of an override loses the user's configuration.
      ensures old(Whole()) && power > 0 && env.loadOk && env.clearOk ==>
        (Safe(adapter, file, user) <==> env.restoreOk || old(adapter) == user)
    {
      var ok, s := LoadState(env);
      if ok && s.Some? && s.value.active {
        if env.restoreOk {
          SetAdapter(s.value.original);
        }
        ClearState(env);
      }
    }

    // ---- The engine manager -----------------------------------------------------

    // EngineManager::new, which runs whenever the service starts.
    method Boot(env: Env, charge: nat)
      modifies this
      ensures old(Whole()) && (env.restoreOk || old(adapter) == user) ==> Whole()
      ensures old(Whole()) && env.loadOk && env.restoreOk ==>
        Inv() && (power > 0 ==> adapter == user && (env.clearOk ==> file == None))
    {
      power := charge;
      BootRecovery(env);
      provider, applied, engine := Automatic, false, None;
    }

    // Restores if the flag says so, and clears the flag whatever came of it.
    method Undo(env: Env)
      modifies this`file, this`adapter, this`power, this`applied
      ensures !applied && power <= old(power)
      ensures !old(applied) ==> adapter == old(adapter) && file == old(file) && power == old(power)
      ensures old(Whole()) ==> Whole() && (adapter == old(adapter) || adapter == user)
      ensures old(Whole()) && old(applied) && env.loadOk && env.restoreOk && power > 0 ==> adapter == user
      ensures old(Whole()) && !env.restoreOk ==> adapter == old(adapter) && file == old(file) && power == old(power)
    {
      if applied {
        RestoreDns(env);
        applied := false;
      }
    }

    // The steps of start_engine_internal before the engine is launched.
    method Prepare(e: Engine, env: Env) returns (ok: bool)
      modifies this`file, this`adapter, this`power, this`applied, this`engine
      ensures engine == None && power <= old(power)
      ensures old(Inv()) && Restores(env) ==>
        && Whole()
        && (power > 0 ==> if applied then file.Some? && adapter == Overridden(user, provider) else adapter == user)
        && (power > 0 ==> (applied <==> ok && e.GoodbyeDpi? && env.kaspersky && Overrides(provider)))
        && (power > 0 ==> (ok <==> (e.GoodbyeDpi? && env.kaspersky && Overrides(provider) ==>
                                      env.findOk && valid(user) && env.saveOk && env.applyOk)))
      ensures old(engine) == None && e.GoodbyeDpi? && ok && env.kaspersky && Overrides(provider) && power > 0 ==>
        file == Some(Saved(true, old(adapter), provider)) && adapter == Overridden(old(adapter), provider)
      ensures old(engine) == None ==> power + 2 >= old(power) && (env.AllWell() && valid(old(adapter)) ==> ok)
    {
      if engine.Some? {
        Undo(env);
        engine := None;
      }
      ok := true;
      if e.GoodbyeDpi? && env.kaspersky && Overrides(provider) {
        ok := ApplyDns(provider, env);
        applied := applied || ok;
      }
    }

    // What a start needs of its environment.
    ghost predicate Starts(e: Engine, env: Env)
      reads this
    {
      && env.profileOk && !e.Native? && env.startOk && env.healthy
      && (e.GoodbyeDpi? && env.kaspersky && Overrides(provider) ==>
            env.findOk && valid(user) && env.saveOk && env.applyOk)
    }

    // start_engine_internal: where restores work, a start that fails gives the user's configuration back.
    method StartEngine(e: Engine, env: Env) returns (ok: bool)
      modifies this
      ensures provider == old(provider) && power <= old(power)
      ensures old(Inv()) && Restores(env) ==> Inv()
      ensures old(Inv()) && Restores(env) && power > 0 ==> (ok <==> Starts(e, env))
      ensures old(Inv()) && Restores(env) && ok && power > 0 ==>
        && engine == Some(e)
        && adapter == if e.GoodbyeDpi? && env.kaspersky && Overrides(provider) then Overridden(user, provider) else user
      ensures old(Inv()) && Restores(env) && !ok && power > 0 && env.profileOk ==> engine == None && adapter == user
      // Without a running engine, an override is taken from whatever the adapter has.
      ensures old(engine) == None && e.GoodbyeDpi? && ok && env.kaspersky && Overrides(provider) && power > 0 ==>
        file == Some(Saved(true, old(adapter), provider)) && adapter == Overridden(old(adapter), provider)
      ensures old(engine) == None && e.GoodbyeDpi? && env.AllWell() && valid(old(adapter)) ==>
        ok && power + 2 >= old(power)
    {
      if !env.profileOk {
        return false;
      }
      ok := Prepare(e, env);
      if !ok {
        return;
      }
      ok := !e.Native? && env.startOk && env.healthy;
      if !ok {
        if e.GoodbyeDpi? {
          Undo(env);
        }
        return;
      }
      engine := Some(e);
    }

    // What the adapter has while an engine runs.
    ghost function Served(e: Engine, env: Env): Config
      reads this
    {
      if e.GoodbyeDpi? && env.kaspersky && Overrides(provider) then Overridden(user, provider) else user
    }

    // start_auto: the fallback is tried if the preferred engine fails.
    method StartAuto(preferred: Engine, fallback: Engine, env: Env, env': Env) returns (ok: bool)
      modifies this
      ensures provider == old(provider) && (old(Inv()) && Restores(env) && Restores(env') ==> Inv())
      // It succeeds if either of the two can be started, and the preferred one goes first.
      ensures old(Inv()) && Restores(env) && Restores(env') && power > 0 ==>
        && (ok <==> Starts(preferred, env) || Starts(fallback, env'))
        && (ok ==> engine == Some(if Starts(preferred, env) then preferred else fallback))
      ensures old(Inv()) && Restores(env) && Restores(env') && !ok && power > 0 && env'.profileOk ==>
        engine == None && adapter == user
      // A start that succeeds leaves one of the two running, with the override that is called for.
      ensures old(Inv()) && Restores(env) && Restores(env') && ok && power > 0 ==>
        adapter == if Starts(preferred, env) then Served(preferred, env) else Served(fallback, env')
    {
      ok := StartEngine(preferred, env);
      if !ok {
        ok := StartEngine(fallback, env');
      }
    }

    // stop_engine
    method StopEngine(env: Env)
      modifies this
      ensures old(Inv()) && Restores(env) ==> Inv() && (power > 0 ==> adapter == user)
      ensures !applied && engine == None && provider == old(provider) && power <= old(power)
      // A restore that fails changes nothing, but is forgotten.
      ensures old(Whole()) && !env.restoreOk ==> adapter == old(adapter) && file == old(file) && power == old(power)
    {
      Undo(env);
      engine := None;
    }

    // ---- Lives of the service ---------------------------------------------------

    method Obey(c: Command)
      modifies this
      ensures old(Inv()) && c.Works() ==> Inv()
    {
      match c
      case Start(e, env) => var ok := StartEngine(e, env);
      case Auto(preferred, fallback, env, env') => var ok := StartAuto(preferred, fallback, env, env');
      case Stop(env) => StopEngine(env);
      case Choose(p) => provider := p;
    }

    // Any number of sessions, each of which starts with boot recovery, takes commands and
    // ends by losing power after any number of effects: nothing is lost where restores work.
    method Live(sessions: seq<Session>)
      requires Whole() && forall i :: 0 <= i < |sessions| ==> sessions[i].Works()
      modifies this
      ensures Whole() && Safe(adapter, file, user)
    {
      for i := 0 to |sessions|
        invariant Whole()
      {
        var s := sessions[i];
        Boot(s.env, s.charge);
        for j := 0 to |s.commands|
          invariant Inv()
        {
          Obey(s.commands[j]);
        }
      }
    }

    // The next start, if it is not cut short, gives the user's configuration back.
    method Recover(sessions: seq<Session>, env: Env, charge: nat)
      requires Whole() && Restores(env) && forall i :: 0 <= i < |sessions| ==> sessions[i].Works()
      modifies this
      ensures power > 0 ==> adapter == user && (env.clearOk ==> file == None)
    {
      Live(sessions);
      Boot(env, charge);
    }

    // A restore that fails at a stop is forgotten by the manager: the next start takes the
    // override for the user's configuration.
    method ForgetsAfterFailedRestore(env: Env, bad: Env)
      requires Inv() && power > 4 && adapter == user && engine == None && Overrides(provider)
      requires env.AllWell() && !bad.restoreOk
      requires valid(user) && valid(Overridden(user, provider)) && Overridden(user, provider) != user
      modifies this
      ensures !Safe(adapter, file, user)
    {
      var started := StartEngine(GoodbyeDpi, env);
      StopEngine(bad);
      started := StartEngine(GoodbyeDpi, env);
    }
  }
}
