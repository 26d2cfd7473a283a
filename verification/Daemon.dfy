/** The running daemon under config reloads: which part holds which setting, which reload rebuilds it, and what
    the reported outcome says. */
module Daemon {
  import opened Basics

  datatype Config = Config(
    facadeAddr: string, servingAddr: string, trackerURL: string, cacheDir: string, repoDBDir: string,
    seeds: int, seedsPerIP: int, tempDir: string, upstreamURL: string)

  /** One opened catalogue snapshot. Two openings of one directory are two snapshots. */
  datatype Snapshot = Snapshot(id: nat, dir: string)

  /** What each part took from the config, and from the other parts, when it was built. */
  datatype CacheWatch = CacheWatch(dir: string, repo: Option<Snapshot>, nudges: nat, started: bool)

  datatype RepoWatch = RepoWatch(dir: string, repo: Snapshot, nudges: nat)

  datatype KeepAliveSettings = KeepAliveSettings(tracker: string, servingAddr: string, cacheDir: string, channel: nat)

  datatype FacadeSettings = FacadeSettings(
    addr: string, tracker: Option<string>, repo: Snapshot, tempDir: string, upstream: string)

  datatype SeederSettings = SeederSettings(addr: string, cacheDir: string, seeds: int, seedsPerIP: int)

  /** Whether each thing that can fail outside does: reading the config, the catalogues, the serving port, the two
      watches, the facade's own check, and the two listeners. */
  datatype World = World(
    loads: bool, opens: bool, parses: bool, watches: bool, rewatches: bool, checks: bool,
    facadeBinds: bool, seederBinds: bool)

  /** The daemon at one moment. `reannounce` is the channel a seeder's request reads; `listening` says whether the
      facade's address is bound; `made` numbers channels and snapshots. */
  datatype State = State(
    config: Config, repo: Option<Snapshot>, client: Option<string>,
    watcher: Option<CacheWatch>, repoWatcher: Option<RepoWatch>, keepAlive: Option<KeepAliveSettings>,
    reannounce: Option<nat>, facade: Option<FacadeSettings>, listening: bool, seeder: Option<SeederSettings>, made: nat)

  function Blank(cfg: Config): State {
    State(cfg, None, None, None, None, None, None, None, false, None, 0)
  }

  // ---------------------------------------------------------------- what it is to be current

  predicate RepoFits(s: State) {
    s.repo.Some? && s.repo.value.dir == s.config.repoDBDir
  }

  /** Both watchers and the keep-alive run, on the current directories, snapshot, address and tracker, and all
      three and the seeder's nudge share one channel. */
  predicate DiscoveryFits(s: State) {
    var c := s.config;
    && s.keepAlive.Some?
    && (var channel := s.keepAlive.value.channel;
        && s.keepAlive == Some(KeepAliveSettings(c.trackerURL, c.servingAddr, c.cacheDir, channel))
        && s.watcher == Some(CacheWatch(c.cacheDir, s.repo, channel, true))
        && (s.repo.Some? ==> s.repoWatcher == Some(RepoWatch(c.repoDBDir, s.repo.value, channel)))
        && s.reannounce == Some(channel))
    && s.client == Some(c.trackerURL)
  }

  /** The facade is for the current address, asks the current tracker, and verifies against the current snapshot.
      Whether it listens, and its temp_dir and upstream_url, are other matters. */
  predicate FacadeFits(s: State) {
    && s.facade.Some?
    && s.facade.value.addr == s.config.facadeAddr
    && s.facade.value.tracker == Some(s.config.trackerURL)
    && s.repo == Some(s.facade.value.repo)
  }

  predicate SeederFits(s: State) {
    var c := s.config;
    s.seeder == Some(SeederSettings(c.servingAddr, c.cacheDir, c.seeds, c.seedsPerIP))
  }

  /** Every part holds the current settings. */
  predicate Coherent(s: State) {
    RepoFits(s) && DiscoveryFits(s) && FacadeFits(s) && SeederFits(s)
  }

  // ---------------------------------------------------------------- what a rebuild may do

  /** The parts, in the order they are built. */
  datatype Part = Catalogues | Discovery | Front | Seeding

  const ALL_PARTS: set<Part> := {Catalogues, Discovery, Front, Seeding}

  const NOTHING := Config("", "", "", "", "", 0, 0, "", "")

  /** The settings a part takes, directly or with the snapshot and the client it is given; all others blank. */
  function Takes(p: Part, c: Config): Config {
    match p
    case Catalogues => NOTHING.(repoDBDir := c.repoDBDir)
    case Discovery =>
      NOTHING.(trackerURL := c.trackerURL, servingAddr := c.servingAddr, cacheDir := c.cacheDir,
               repoDBDir := c.repoDBDir)
    case Front =>
      NOTHING.(facadeAddr := c.facadeAddr, trackerURL := c.trackerURL, repoDBDir := c.repoDBDir,
               tempDir := c.tempDir, upstreamURL := c.upstreamURL)
    case Seeding =>
      NOTHING.(servingAddr := c.servingAddr, cacheDir := c.cacheDir, seeds := c.seeds, seedsPerIP := c.seedsPerIP)
  }

  /** What a reload looks at: all of that but temp_dir and upstream_url. */
  function Watched(p: Part, c: Config): Config {
    Takes(p, c).(tempDir := "", upstreamURL := "")
  }

  lemma WhatIsWatched(a: Config, b: Config)
    ensures Watched(Catalogues, a) != Watched(Catalogues, b) <==> a.repoDBDir != b.repoDBDir
    ensures Watched(Discovery, a) != Watched(Discovery, b) <==>
      a.repoDBDir != b.repoDBDir || a.trackerURL != b.trackerURL
      || a.servingAddr != b.servingAddr || a.cacheDir != b.cacheDir
    ensures Watched(Front, a) != Watched(Front, b) <==>
      a.repoDBDir != b.repoDBDir || a.trackerURL != b.trackerURL || a.facadeAddr != b.facadeAddr
    ensures Watched(Seeding, a) != Watched(Seeding, b) <==>
      a.servingAddr != b.servingAddr || a.cacheDir != b.cacheDir
      || a.seeds != b.seeds || a.seedsPerIP != b.seedsPerIP
  {
  }

  /** The parts a reload rebuilds: those for which something watched has changed, and the seeder with discovery. */
  function Moved(a: Config, b: Config): set<Part> {
    set p: Part | p in ALL_PARTS
      && (Watched(p, a) != Watched(p, b) || (p == Seeding && Watched(Discovery, a) != Watched(Discovery, b)))
  }

  /** The part is new and right for the current config, and what it shares with others is new too. */
  predicate Built(p: Part, s: State, s': State, w: World) {
    match p
    case Catalogues => RepoFits(s') && s.made <= s'.repo.value.id
    case Discovery => DiscoveryFits(s') && s.made <= s'.keepAlive.value.channel < s'.made
    case Front =>
      && s'.repo.Some? && s'.listening == w.facadeBinds
      && (var c := s'.config;
          s'.facade == Some(FacadeSettings(c.facadeAddr, s'.client, s'.repo.value, c.tempDir, c.upstreamURL)))
    case Seeding => SeederFits(s')
  }

  /** What is left of a part that could not be built: the old snapshot; no keep-alive, though a nudge may be in
      place; a facade that has been closed; no seeder. */
  predicate Broken(p: Part, s: State, s': State) {
    match p
    case Catalogues => s'.repo == s.repo
    case Discovery => s'.keepAlive.None? && (s'.reannounce.Some? ==> s.made <= s'.reannounce.value < s'.made)
    case Front => s'.facade == s.facade && !s'.listening
    case Seeding => s'.seeder.None?
  }

  predicate Same(p: Part, s: State, s': State) {
    match p
    case Catalogues => s'.repo == s.repo
    case Discovery =>
      && s'.client == s.client && s'.watcher == s.watcher && s'.repoWatcher == s.repoWatcher
      && s'.keepAlive == s.keepAlive && s'.reannounce == s.reannounce
    case Front => s'.facade == s.facade && s'.listening == s.listening
    case Seeding => s'.seeder == s.seeder
  }

  /** The facade's address being free is not among the conditions. */
  predicate Buildable(p: Part, cfg: Config, hasRepo: bool, w: World) {
    match p
    case Catalogues => w.opens
    case Discovery => w.parses && w.watches && (hasRepo ==> w.rewatches)
    case Front => w.checks && hasRepo
    case Seeding => w.seederBinds && cfg.cacheDir != ""
  }

  /** How many parts, in order, are dealt with before one that is wanted cannot be built. */
  function Stop(s: State, w: World, wanted: set<Part>): nat {
    var hasRepo := s.repo.Some? || Catalogues in wanted;
    if Catalogues in wanted && !Buildable(Catalogues, s.config, hasRepo, w) then 0
    else if Discovery in wanted && !Buildable(Discovery, s.config, hasRepo, w) then 1
    else if Front in wanted && !Buildable(Front, s.config, hasRepo, w) then 2
    else if Seeding in wanted && !Buildable(Seeding, s.config, hasRepo, w) then 3
    else 4
  }

  /** Part number n of a rebuild that stops at `stop`. */
  predicate Dealt(n: nat, p: Part, stop: nat, s: State, s': State, w: World, wanted: set<Part>) {
    if n < stop then if p in wanted then Built(p, s, s', w) else Same(p, s, s')
    else if n == stop then Broken(p, s, s')
    else Same(p, s, s')
  }

  /** The wanted parts up to the first that cannot be built are new, that one is broken, and every other is as it
      was. */
  predicate Rebuilds(s: State, s': State, w: World, wanted: set<Part>, ok: bool) {
    var stop := Stop(s, w, wanted);
    && (ok <==> stop == 4)
    && s'.config == s.config && s.made <= s'.made
    && (Catalogues !in wanted && Discovery !in wanted ==> s'.made == s.made)
    && Dealt(0, Catalogues, stop, s, s', w, wanted)
    && Dealt(1, Discovery, stop, s, s', w, wanted)
    && Dealt(2, Front, stop, s, s', w, wanted)
    && Dealt(3, Seeding, stop, s, s', w, wanted)
  }

  /** A reload whose config cannot be read does nothing; any other installs the config first. */
  predicate Reloads(s: State, cfg: Config, w: World, ok: bool, s': State) {
    if !w.loads then !ok && s' == s
    else Rebuilds(s.(config := cfg), s', w, Moved(s.config, cfg), ok)
  }

  // ---------------------------------------------------------------- the objects

  /** The facade's HTTP server. It binds its address in a goroutine of its own, and nobody hears of a failure. */
  class FacadeServer {
    const facade: FacadeSettings
    var listening: bool

    constructor (facade: FacadeSettings, binds: bool)
      ensures this.facade == facade && listening == binds
    {
      this.facade, listening := facade, binds;
    }

    method Close()
      modifies this
      ensures !listening
    {
      listening := false;
    }
  }

  class Daemon {
    var config: Config
    var repo: Option<Snapshot>
    var client: Option<string>
    var watcher: Option<CacheWatch>
    var repoWatcher: Option<RepoWatch>
    var keepAlive: Option<KeepAliveSettings>
    var reannounce: Option<nat>
    var httpServer: FacadeServer?
    var seedServer: Option<SeederSettings>
    var made: nat

    constructor (cfg: Config)
      ensures Now() == Blank(cfg) && httpServer == null
    {
      config, repo, client, watcher, repoWatcher := cfg, None, None, None, None;
      keepAlive, reannounce, httpServer, seedServer, made := None, None, null, None, 0;
    }

    function Now(): State
      reads this, httpServer
    {
      State(config, repo, client, watcher, repoWatcher, keepAlive, reannounce,
            if httpServer == null then None else Some(httpServer.facade),
            httpServer != null && httpServer.listening, seedServer, made)
    }

    method OpenRepositories(w: World) returns (ok: bool)
      modifies `repo, `made
      ensures ok == w.opens && old(made) <= made
      ensures if ok then RepoFits(Now()) && repo.value.id == old(made) < made else repo == old(repo)
    {
      if !w.opens {
        return false;
      }
      repo := Some(Snapshot(made, config.repoDBDir));
      made := made + 1;
      return true;
    }

    /** The nudge is in place before anything can fail, and stays if something does. */
    method StartDiscovery(w: World) returns (ok: bool)
      requires keepAlive.None? && reannounce.None? && watcher.None? && repoWatcher.None?
      modifies `client, `watcher, `repoWatcher, `keepAlive, `reannounce, `made
      ensures ok <==> w.parses && w.watches && (repo.Some? ==> w.rewatches)
      ensures old(made) <= made
      ensures ok ==> DiscoveryFits(Now()) && old(made) <= keepAlive.value.channel < made
      ensures !ok ==> keepAlive.None? && (reannounce.Some? <==> w.parses) && client == old(client)
      ensures !ok ==> repoWatcher.None? && (watcher.Some? <==> w.parses && !w.watches)
      ensures reannounce.Some? ==> old(made) <= reannounce.value < made
    {
      if !w.parses {
        return false;
      }
      var changed := made;
      made := made + 1;
      reannounce := Some(changed);
      watcher := Some(CacheWatch(config.cacheDir, repo, changed, w.watches));
      if !w.watches {
        return false;
      }
      if repo.Some? {
        repoWatcher := Some(RepoWatch(config.repoDBDir, repo.value, changed));
        if !w.rewatches {
          repoWatcher := None;
          watcher := None;
          return false;
        }
      }
      client := Some(config.trackerURL);
      keepAlive := Some(KeepAliveSettings(config.trackerURL, config.servingAddr, config.cacheDir, changed));
      return true;
    }

    method StopDiscovery()
      modifies `watcher, `repoWatcher, `keepAlive, `reannounce
      ensures keepAlive.None? && reannounce.None? && watcher.None? && repoWatcher.None?
    {
      keepAlive := None;
      reannounce := None;
      watcher := None;
      repoWatcher := None;
    }

    /** The old server is closed whatever comes of the new one; the new one captures address, client, snapshot,
        temp_dir and upstream_url; and success is reported whether or not it can bind. */
    method StartHTTPServer(w: World) returns (ok: bool)
      modifies `httpServer, httpServer
      ensures ok <==> w.checks && repo.Some?
      ensures old(httpServer) != null ==> !old(httpServer).listening
      ensures if ok then
        && fresh(httpServer) && Now().listening == w.facadeBinds
        && Now().facade
          == Some(FacadeSettings(config.facadeAddr, client, repo.value, config.tempDir, config.upstreamURL))
      else
        httpServer == old(httpServer)
    {
      if httpServer != null {
        httpServer.Close();
      }
      if repo.None? || !w.checks {
        return false;
      }
      httpServer := new FacadeServer(
        FacadeSettings(config.facadeAddr, client, repo.value, config.tempDir, config.upstreamURL), w.facadeBinds);
      return true;
    }

    method StartSeedServer(w: World) returns (ok: bool)
      modifies `seedServer
      ensures ok <==> w.seederBinds && config.cacheDir != ""
      ensures if ok then SeederFits(Now()) else seedServer.None?
    {
      seedServer := None;
      if config.cacheDir == "" {
        return false;
      }
      if !w.seederBinds {
        return false;
      }
      seedServer := Some(SeederSettings(config.servingAddr, config.cacheDir, config.seeds, config.seedsPerIP));
      return true;
    }

    /** Dependency order: the catalogue feeds the watchers, and the listeners depend on both. */
    method Build(w: World, wanted: set<Part>) returns (ok: bool)
      requires Discovery !in wanted ==> Catalogues !in wanted
      modifies this, httpServer
      ensures Rebuilds(old(Now()), Now(), w, wanted, ok)
      ensures httpServer == old(httpServer) || fresh(httpServer)
    {
      ok := BuildSources(w, wanted);
      if !ok {
        return;
      }
      ok := BuildListeners(w, wanted);
    }

    method BuildSources(w: World, wanted: set<Part>) returns (ok: bool)
      requires Discovery !in wanted ==> Catalogues !in wanted
      modifies `repo, `client, `watcher, `repoWatcher, `keepAlive, `reannounce, `made
      ensures var stop := Stop(old(Now()), w, wanted);
        && (ok <==> stop >= 2) && old(made) <= made && (Discovery !in wanted ==> made == old(made))
        && (ok ==> (repo.Some? <==> old(repo).Some? || Catalogues in wanted))
        && Dealt(0, Catalogues, stop, old(Now()), Now(), w, wanted)
        && Dealt(1, Discovery, stop, old(Now()), Now(), w, wanted)
    {
      ok := true;
      if Catalogues in wanted {
        ok := OpenRepositories(w);
        if !ok {
          return;
        }
      }
      if Discovery in wanted {
        StopDiscovery();
        ok := StartDiscovery(w);
      }
    }

    method BuildListeners(w: World, wanted: set<Part>) returns (ok: bool)
      modifies `httpServer, `seedServer, httpServer
      ensures ok <==>
        && (Front in wanted ==> w.checks && repo.Some?)
        && (Seeding in wanted ==> w.seederBinds && config.cacheDir != "")
      ensures httpServer == old(httpServer) || fresh(httpServer)
      ensures var stop := if Front in wanted && !(w.checks && repo.Some?) then 2 else if !ok then 3 else 4;
        && Dealt(2, Front, stop, old(Now()), Now(), w, wanted)
        && Dealt(3, Seeding, stop, old(Now()), Now(), w, wanted)
    {
      ok := true;
      if Front in wanted {
        ok := StartHTTPServer(w);
        if !ok {
          return;
        }
      }
      if Seeding in wanted {
        ok := StartSeedServer(w);
      }
    }

    method Start(w: World) returns (ok: bool)
      requires Now() == Blank(config)
      modifies this, httpServer
      ensures Rebuilds(Blank(old(config)), Now(), w, ALL_PARTS, ok)
      ensures Coherent(Now()) <==> ok
      ensures ok ==> (Now().listening <==> w.facadeBinds)
    {
      ok := Build(w, ALL_PARTS);
      StartedIsCoherent(old(config), w, ok, Now());
    }

    method Reload(newCfg: Config, w: World) returns (ok: bool)
      modifies this, httpServer
      ensures Reloads(old(Now()), newCfg, w, ok, Now())
      ensures old(Coherent(Now())) && w.loads ==> (Coherent(Now()) <==> ok)
      ensures httpServer == old(httpServer) || fresh(httpServer)
    {
      if !w.loads {
        return false;
      }
      ghost var was := Now();
      var wanted := WhatMoved(newCfg);
      config := newCfg;
      assert Now() == was.(config := newCfg);
      ok := Build(w, wanted);
      if Coherent(was) {
        ReloadIsCoherentIffItSucceeds(was, newCfg, w, ok, Now());
      }
    }

    /** The parts to rebuild, from which settings have changed. */
    method WhatMoved(newCfg: Config) returns (wanted: set<Part>)
      ensures wanted == Moved(config, newCfg)
    {
      var facadeChanged := config.facadeAddr != newCfg.facadeAddr;
      var servingChanged := config.servingAddr != newCfg.servingAddr;
      var trackerChanged := config.trackerURL != newCfg.trackerURL;
      var cacheChanged := config.cacheDir != newCfg.cacheDir;
      var repoDBChanged := config.repoDBDir != newCfg.repoDBDir;
      var capsChanged := config.seeds != newCfg.seeds || config.seedsPerIP != newCfg.seedsPerIP;
      wanted := {};
      WhatIsWatched(config, newCfg);
      if repoDBChanged {
        wanted := wanted + {Catalogues};
      }
      if trackerChanged || servingChanged || cacheChanged || repoDBChanged {
        wanted := wanted + {Discovery};
      }
      if facadeChanged || trackerChanged || repoDBChanged {
        wanted := wanted + {Front};
      }
      if servingChanged || cacheChanged || capsChanged || trackerChanged || repoDBChanged {
        wanted := wanted + {Seeding};
      }
    }

    /** The locked half of a seeder's request for a re-announce: the channel to send to. The send comes later. */
    method ReadReannounce() returns (to: Option<nat>)
      ensures to == Now().reannounce
      ensures Coherent(Now()) ==> keepAlive.Some? && to == Some(keepAlive.value.channel)
    {
      to := reannounce;
    }

    method Shutdown()
      modifies this, httpServer
      ensures keepAlive.None? && reannounce.None? && watcher.None? && repoWatcher.None? && seedServer.None?
      ensures !Now().listening
    {
      if httpServer != null {
        httpServer.Close();
      }
      seedServer := None;
      StopDiscovery();
    }
  }

  // ---------------------------------------------------------------- what a part holds

  predicate FacadeUses(s: State, cfg: Config) {
    s.facade.Some? && s.facade.value.tempDir == cfg.tempDir && s.facade.value.upstream == cfg.upstreamURL
  }

  /** Every setting in the part is that of the config. */
  predicate Holds(p: Part, s: State) {
    match p
    case Catalogues => RepoFits(s)
    case Discovery => DiscoveryFits(s)
    case Front => FacadeFits(s) && FacadeUses(s, s.config) && s.facade.value.repo.dir == s.config.repoDBDir
    case Seeding => SeederFits(s)
  }

  /** `Takes` is exactly what a part holds: a part right for one config is right for another exactly when both give
      it the same. */
  lemma TakesIsWhatIsHeld(p: Part, s: State, c: Config)
    requires s.repo.Some? && Holds(p, s)
    ensures Holds(p, s.(config := c)) <==> Takes(p, c) == Takes(p, s.config)
  {
  }

  /** What a coherent daemon does with each setting. */
  lemma CoherentMeans(s: State)
    requires Coherent(s)
    ensures s.keepAlive.Some? && s.watcher.Some? && s.repoWatcher.Some? && s.facade.Some? && s.seeder.Some?
    ensures s.keepAlive.value.tracker == s.config.trackerURL && s.facade.value.tracker == Some(s.config.trackerURL)
    ensures s.keepAlive.value.servingAddr == s.config.servingAddr && s.seeder.value.addr == s.config.servingAddr
    ensures s.watcher.value.dir == s.config.cacheDir && s.watcher.value.started
    ensures s.keepAlive.value.cacheDir == s.config.cacheDir && s.seeder.value.cacheDir == s.config.cacheDir
    ensures s.repo.value.dir == s.config.repoDBDir && s.repoWatcher.value.dir == s.config.repoDBDir
    ensures s.watcher.value.repo == s.repo && Some(s.repoWatcher.value.repo) == s.repo
    ensures Some(s.facade.value.repo) == s.repo && s.facade.value.addr == s.config.facadeAddr
    ensures s.seeder.value.seeds == s.config.seeds && s.seeder.value.seedsPerIP == s.config.seedsPerIP
    ensures s.watcher.value.nudges == s.repoWatcher.value.nudges == s.keepAlive.value.channel
    ensures s.reannounce == Some(s.keepAlive.value.channel)
  {
  }

  // ---------------------------------------------------------------- one start, one reload

  /** A start reports success exactly when every part holds the current settings; whether the facade listens then
      is another matter. */
  lemma StartedIsCoherent(cfg: Config, w: World, ok: bool, s: State)
    requires Rebuilds(Blank(cfg), s, w, ALL_PARTS, ok)
    ensures Coherent(s) <==> ok
    ensures ok ==> (s.listening <==> w.facadeBinds)
  {
  }

  /** A config that cannot be read changes nothing, and that is reported. */
  lemma UnreadableConfigChangesNothing(s: State, cfg: Config, w: World, ok: bool, s': State)
    requires Reloads(s, cfg, w, ok, s') && !w.loads
    ensures !ok && s' == s
  {
  }

  /** A start succeeds exactly when the catalogues open, the serving port parses, both watches can be set, the facade
      finds itself usable, the seeder can bind, and there is a cache directory. */
  lemma StartSucceedsIff(cfg: Config, w: World, ok: bool, s: State)
    requires Rebuilds(Blank(cfg), s, w, ALL_PARTS, ok)
    ensures ok <==>
      w.opens && w.parses && w.watches && w.rewatches && w.checks && w.seederBinds && cfg.cacheDir != ""
  {
  }

  /** A reload succeeds exactly when the config can be read and every change in it can be carried out. */
  lemma ReloadSucceedsIff(s: State, cfg: Config, w: World, ok: bool, s': State)
    requires Reloads(s, cfg, w, ok, s') && s.repo.Some?
    ensures var c := s.config;
      var discovery := c.repoDBDir != cfg.repoDBDir || c.trackerURL != cfg.trackerURL
                       || c.servingAddr != cfg.servingAddr || c.cacheDir != cfg.cacheDir;
      ok <==>
        && w.loads
        && (c.repoDBDir != cfg.repoDBDir ==> w.opens)
        && (discovery ==> w.parses && w.watches && w.rewatches)
        && (c.repoDBDir != cfg.repoDBDir || c.trackerURL != cfg.trackerURL || c.facadeAddr != cfg.facadeAddr ==>
              w.checks)
        && (discovery || c.seeds != cfg.seeds || c.seedsPerIP != cfg.seedsPerIP ==>
              w.seederBinds && cfg.cacheDir != "")
  {
    WhatIsWatched(s.config, cfg);
  }

  /** From a coherent daemon, a reload rebuilds exactly the parts that the new config makes stale, and those that
      hold something of a part so rebuilt. */
  lemma ExactlyTheStaleAreRebuilt(s: State, cfg: Config)
    requires Coherent(s)
    ensures var moved, now := Moved(s.config, cfg), s.(config := cfg);
      && (Catalogues in moved <==> !RepoFits(now))
      && (Discovery in moved <==> !DiscoveryFits(now))
      && (Front in moved <==> !FacadeFits(now) || Catalogues in moved)
      && (Seeding in moved <==> !SeederFits(now) || Discovery in moved)
  {
  }

  /** From any state at all, a reload that succeeds leaves every part with the current settings exactly when each
      part that no changed setting made it rebuild was already right for the new config. */
  lemma SuccessIsCoherentIff(s: State, cfg: Config, w: World, s': State)
    requires Reloads(s, cfg, w, true, s')
    ensures Coherent(s') <==>
      var moved, now := Moved(s.config, cfg), s.(config := cfg);
      && (Catalogues in moved || RepoFits(now))
      && (Discovery in moved || DiscoveryFits(now))
      && (Front in moved || FacadeFits(now))
      && (Seeding in moved || SeederFits(now))
  {
  }

  /** From a coherent daemon, a reload whose config could be read leaves a coherent daemon exactly when it reports
      success. */
  lemma ReloadIsCoherentIffItSucceeds(s: State, cfg: Config, w: World, ok: bool, s': State)
    requires Coherent(s) && w.loads && Reloads(s, cfg, w, ok, s')
    ensures Coherent(s') <==> ok
  {
    if ok {
      SuccessIsCoherentIff(s, cfg, w, s');
    }
  }

  /** Success does not say that the facade listens. It does exactly when the reload built it and could bind, or did
      not build it and it listened before. */
  lemma SuccessListensIff(s: State, cfg: Config, w: World, s': State)
    requires Reloads(s, cfg, w, true, s')
    ensures s'.listening <==> if Front in Moved(s.config, cfg) then w.facadeBinds else s.listening
  {
  }

  /** After a failure the reported outcome says nothing: the config that failed is installed, so loading it again
      finds nothing changed, rebuilds nothing and succeeds. */
  lemma RetryAfterFailureRebuildsNothing(s: State, cfg: Config, w: World, failed: State,
                                         retry: World, ok: bool, s': State)
    requires Coherent(s) && w.loads && Reloads(s, cfg, w, false, failed)
    requires retry.loads && Reloads(failed, cfg, retry, ok, s')
    ensures ok && s' == failed && !Coherent(s')
  {
    ReloadIsCoherentIffItSucceeds(s, cfg, w, false, failed);
  }

  /** A successful reload that moves repo_db_dir gives every part of any daemon the current settings, whatever failed
      before. */
  lemma MovingTheCataloguesHeals(s: State, cfg: Config, w: World, s': State)
    requires s.config.repoDBDir != cfg.repoDBDir && Reloads(s, cfg, w, true, s')
    ensures Coherent(s')
  {
    SuccessIsCoherentIff(s, cfg, w, s');
  }

  /** One successful reload that changes temp_dir or upstream_url takes effect exactly when it also moves the
      facade's address, the tracker or the catalogues. */
  lemma NewUpstreamTakesEffectIff(s: State, cfg: Config, w: World, s': State)
    requires Coherent(s) && FacadeUses(s, s.config) && Reloads(s, cfg, w, true, s')
    requires cfg.tempDir != s.config.tempDir || cfg.upstreamURL != s.config.upstreamURL
    ensures FacadeUses(s', cfg) <==>
      || cfg.facadeAddr != s.config.facadeAddr
      || cfg.trackerURL != s.config.trackerURL
      || cfg.repoDBDir != s.config.repoDBDir
  {
  }

  // ---------------------------------------------------------------- runs of reloads

  datatype Sighup = Sighup(cfg: Config, world: World)

  /** A run of reloads: the states it goes through and the outcomes reported. */
  predicate Runs(trace: seq<State>, run: seq<Sighup>, oks: seq<bool>) {
    && |trace| == |run| + 1 && |oks| == |run|
    && forall i :: 0 <= i < |run| ==> Reloads(trace[i], run[i].cfg, run[i].world, oks[i], trace[i + 1])
  }

  lemma OneMoreReload(trace: seq<State>, run: seq<Sighup>, oks: seq<bool>, hup: Sighup, ok: bool, s: State)
    requires Runs(trace, run, oks) && Reloads(trace[|run|], hup.cfg, hup.world, ok, s)
    ensures Runs(trace + [s], run + [hup], oks + [ok])
  {
  }

  method Serve(d: Daemon, run: seq<Sighup>) returns (oks: seq<bool>, ghost trace: seq<State>)
    modifies d, d.httpServer
    ensures Runs(trace, run, oks) && trace[0] == old(d.Now()) && trace[|run|] == d.Now()
  {
    oks, trace := [], [d.Now()];
    for i := 0 to |run|
      invariant Runs(trace, run[..i], oks) && trace[0] == old(d.Now()) && trace[i] == d.Now()
      invariant d.httpServer == old(d.httpServer) || fresh(d.httpServer)
    {
      var ok := d.Reload(run[i].cfg, run[i].world);
      assert run[..i + 1] == run[..i] + [run[i]];
      OneMoreReload(trace, run[..i], oks, run[i], ok, d.Now());
      oks, trace := oks + [ok], trace + [d.Now()];
    }
    assert run[..|run|] == run;
  }

  predicate AllSucceed(oks: seq<bool>) {
    forall i :: 0 <= i < |oks| ==> oks[i]
  }

  lemma RunsPrefix(trace: seq<State>, run: seq<Sighup>, oks: seq<bool>, n: nat)
    requires Runs(trace, run, oks) && n <= |run|
    ensures Runs(trace[..n + 1], run[..n], oks[..n])
    ensures AllSucceed(oks) ==> AllSucceed(oks[..n])
  {
  }

  function Latest(cfg: Config, run: seq<Sighup>): Config {
    if run == [] then cfg else run[|run| - 1].cfg
  }

  lemma {:induction false} SuccessfulRunsStayCoherent(trace: seq<State>, run: seq<Sighup>, oks: seq<bool>)
    requires Runs(trace, run, oks) && Coherent(trace[0]) && AllSucceed(oks)
    ensures Coherent(trace[|run|]) && trace[|run|].config == Latest(trace[0].config, run)
    decreases |run|
  {
    if run != [] {
      var n := |run| - 1;
      RunsPrefix(trace, run, oks, n);
      SuccessfulRunsStayCoherent(trace[..n + 1], run[..n], oks[..n]);
      assert Reloads(trace[n], run[n].cfg, run[n].world, oks[n], trace[n + 1]);
      ReloadIsCoherentIffItSucceeds(trace[n], run[n].cfg, run[n].world, oks[n], trace[n + 1]);
    }
  }

  /** The last reload that built the facade, if any: the last whose config moved its address, the tracker or the
      catalogues. */
  function LastFront(cfg: Config, run: seq<Sighup>): Option<Sighup> {
    if run == [] then None
    else
      var init, last := run[..|run| - 1], run[|run| - 1];
      if Front in Moved(Latest(cfg, init), last.cfg) then Some(last) else LastFront(cfg, init)
  }

  /** However often temp_dir and upstream_url have changed since, the facade uses those of the config it was last
      built from; and it listens exactly when it could bind then. */
  lemma {:induction false} FacadeIsThatOfItsLastRebuild(trace: seq<State>, run: seq<Sighup>, oks: seq<bool>)
    requires Runs(trace, run, oks) && Coherent(trace[0]) && AllSucceed(oks)
    ensures match LastFront(trace[0].config, run)
      case None => trace[|run|].facade == trace[0].facade && trace[|run|].listening == trace[0].listening
      case Some(built) =>
        FacadeUses(trace[|run|], built.cfg) && trace[|run|].listening == built.world.facadeBinds
    decreases |run|
  {
    if run != [] {
      var n := |run| - 1;
      RunsPrefix(trace, run, oks, n);
      FacadeIsThatOfItsLastRebuild(trace[..n + 1], run[..n], oks[..n]);
      assert trace[n].config == Latest(trace[0].config, run[..n]) by {
        SuccessfulRunsStayCoherent(trace[..n + 1], run[..n], oks[..n]);
      }
      FacadeIsRebuiltOrStays(trace[n], run[n], trace[n + 1]);
    }
  }

  lemma FacadeIsRebuiltOrStays(s: State, hup: Sighup, s': State)
    requires Reloads(s, hup.cfg, hup.world, true, s')
    ensures if Front in Moved(s.config, hup.cfg) then FacadeUses(s', hup.cfg) && s'.listening == hup.world.facadeBinds
            else s'.facade == s.facade && s'.listening == s.listening
  {
  }

  /** The facade's address is taken when the daemon starts. The start reports success, every part holds its settings,
      and nothing listens; and so it stays, with success reported each time, however often the same config is
      reloaded and whatever else works by then. */
  lemma {:induction false} OccupiedAddressGoesUnreported(cfg: Config, w: World, started: State, ok: bool,
                                                         trace: seq<State>, run: seq<Sighup>, oks: seq<bool>)
    requires Rebuilds(Blank(cfg), started, w, ALL_PARTS, ok)
    requires w.opens && w.parses && w.watches && w.rewatches && w.checks && w.seederBinds && cfg.cacheDir != ""
    requires !w.facadeBinds
    requires Runs(trace, run, oks) && trace[0] == started
    requires forall i :: 0 <= i < |run| ==> run[i].cfg == cfg && run[i].world.loads
    ensures ok && AllSucceed(oks)
    ensures trace[|run|] == started && Coherent(started) && !started.listening
    decreases |run|
  {
    StartedIsCoherent(cfg, w, ok, started);
    if run != [] {
      var n := |run| - 1;
      RunsPrefix(trace, run, oks, n);
      OccupiedAddressGoesUnreported(cfg, w, started, ok, trace[..n + 1], run[..n], oks[..n]);
      assert Reloads(trace[n], run[n].cfg, run[n].world, oks[n], trace[n + 1]);
      assert forall i :: 0 <= i < n ==> oks[..n][i] == oks[i];
    }
  }

  // ---------------------------------------------------------------- which channel a seeder's nudge goes to

  /** Channels in use have been made, and a running keep-alive is the one nudged. */
  predicate Numbered(s: State) {
    && (s.reannounce.Some? ==> s.reannounce.value < s.made)
    && (s.keepAlive.Some? ==> s.reannounce == Some(s.keepAlive.value.channel))
  }

  lemma ReloadKeepsNumbers(s: State, cfg: Config, w: World, ok: bool, s': State)
    requires Numbered(s) && Reloads(s, cfg, w, ok, s')
    ensures Numbered(s') && s.made <= s'.made
    ensures s'.reannounce.Some? ==>
      s.made <= s'.reannounce.value || (s'.reannounce == s.reannounce && s'.keepAlive == s.keepAlive)
  {
  }

  /** In every run, failed reloads included: if what is read is the channel some keep-alive was given, that keep-alive
      is the one running at the read. The channel of a replaced or stopped one is never read. */
  lemma {:induction false} ReadsNameNoOldKeepAlive(trace: seq<State>, run: seq<Sighup>, oks: seq<bool>, i: nat)
    requires Runs(trace, run, oks) && Numbered(trace[0]) && i <= |run| && trace[i].keepAlive.Some?
    ensures Numbered(trace[|run|])
    ensures var channel := trace[i].keepAlive.value.channel;
      && channel < trace[|run|].made
      && (trace[|run|].reannounce == Some(channel) ==> trace[|run|].keepAlive == trace[i].keepAlive)
    decreases |run|
  {
    RunKeepsNumbers(trace, run, oks);
    if i < |run| {
      var n := |run| - 1;
      RunsPrefix(trace, run, oks, n);
      ReadsNameNoOldKeepAlive(trace[..n + 1], run[..n], oks[..n], i);
      assert Reloads(trace[n], run[n].cfg, run[n].world, oks[n], trace[n + 1]);
      ReloadKeepsNumbers(trace[n], run[n].cfg, run[n].world, oks[n], trace[n + 1]);
    }
  }

  /** The reload gets as far as stopping discovery. */
  predicate ReplacesDiscovery(s: State, hup: Sighup) {
    var moved := Moved(s.config, hup.cfg);
    hup.world.loads && Discovery in moved && Stop(s.(config := hup.cfg), hup.world, moved) >= 1
  }

  /** A nudge whose channel is read after i reloads and sent to after j goes to the keep-alive that runs at the send. */
  predicate Reaches(trace: seq<State>, i: nat, j: nat)
    requires i < |trace| && j < |trace|
  {
    trace[j].keepAlive.Some? && trace[i].reannounce == Some(trace[j].keepAlive.value.channel)
  }

  lemma ReloadHandsOver(s: State, hup: Sighup, ok: bool, s': State)
    requires Numbered(s) && Reloads(s, hup.cfg, hup.world, ok, s')
    ensures if ReplacesDiscovery(s, hup) then s'.keepAlive.Some? ==> s.made <= s'.keepAlive.value.channel
            else s'.keepAlive == s.keepAlive && s'.reannounce == s.reannounce
  {
  }

  lemma {:induction false} UndisturbedStays(trace: seq<State>, run: seq<Sighup>, oks: seq<bool>, i: nat)
    requires Runs(trace, run, oks) && Numbered(trace[0]) && i <= |run|
    requires forall k :: i <= k < |run| ==> !ReplacesDiscovery(trace[k], run[k])
    ensures trace[|run|].keepAlive == trace[i].keepAlive
    decreases |run|
  {
    if i < |run| {
      var n := |run| - 1;
      RunsPrefix(trace, run, oks, n);
      UndisturbedStays(trace[..n + 1], run[..n], oks[..n], i);
      RunKeepsNumbers(trace[..n + 1], run[..n], oks[..n]);
      ReloadHandsOver(trace[n], run[n], oks[n], trace[n + 1]);
    }
  }

  lemma LastReloadHandsOver(trace: seq<State>, run: seq<Sighup>, oks: seq<bool>)
    requires Runs(trace, run, oks) && Numbered(trace[0]) && run != []
    ensures var s, s' := trace[|run| - 1], trace[|run|];
      && s.made <= s'.made
      && (s'.keepAlive.Some? ==> s.made <= s'.keepAlive.value.channel || s'.keepAlive == s.keepAlive)
      && (ReplacesDiscovery(s, run[|run| - 1]) && s'.keepAlive.Some? ==> s.made <= s'.keepAlive.value.channel)
  {
    var n := |run| - 1;
    RunsPrefix(trace, run, oks, n);
    RunKeepsNumbers(trace[..n + 1], run[..n], oks[..n]);
    ReloadKeepsNumbers(trace[n], run[n].cfg, run[n].world, oks[n], trace[n + 1]);
    ReloadHandsOver(trace[n], run[n], oks[n], trace[n + 1]);
  }

  lemma {:induction false} ReplacedIsNewer(trace: seq<State>, run: seq<Sighup>, oks: seq<bool>, k: nat)
    requires Runs(trace, run, oks) && Numbered(trace[0]) && k < |run| && ReplacesDiscovery(trace[k], run[k])
    ensures trace[k].made <= trace[|run|].made
    ensures trace[|run|].keepAlive.Some? ==> trace[k].made <= trace[|run|].keepAlive.value.channel
    decreases |run|
  {
    LastReloadHandsOver(trace, run, oks);
    var n := |run| - 1;
    if k < n {
      RunsPrefix(trace, run, oks, n);
      ReplacedIsNewer(trace[..n + 1], run[..n], oks[..n], k);
    }
  }

  lemma {:induction false} MadeGrows(trace: seq<State>, run: seq<Sighup>, oks: seq<bool>, i: nat)
    requires Runs(trace, run, oks) && Numbered(trace[0]) && i <= |run|
    ensures trace[i].made <= trace[|run|].made
    decreases |run|
  {
    if i < |run| {
      var n := |run| - 1;
      RunsPrefix(trace, run, oks, n);
      MadeGrows(trace[..n + 1], run[..n], oks[..n], i);
      LastReloadHandsOver(trace, run, oks);
    }
  }

  /** The read and the send are two steps, and reloads may fall between them. A nudge reaches the running keep-alive
      exactly when one was running at the read and no reload replaced discovery before the send. */
  lemma NudgeReachesIff(trace: seq<State>, run: seq<Sighup>, oks: seq<bool>, i: nat)
    requires Runs(trace, run, oks) && Numbered(trace[0]) && i <= |run|
    ensures Reaches(trace, i, |run|) <==>
      trace[i].keepAlive.Some? && forall k :: i <= k < |run| ==> !ReplacesDiscovery(trace[k], run[k])
  {
    assert Numbered(trace[i]) by {
      RunsPrefix(trace, run, oks, i);
      RunKeepsNumbers(trace[..i + 1], run[..i], oks[..i]);
    }
    if k :| i <= k < |run| && ReplacesDiscovery(trace[k], run[k]) {
      ReplacedIsNewer(trace, run, oks, k);
      RunsPrefix(trace, run, oks, k);
      MadeGrows(trace[..k + 1], run[..k], oks[..k], i);
    } else {
      UndisturbedStays(trace, run, oks, i);
    }
  }

  /** It misses. A request reads the channel, a successful reload moves cache_dir, and the send goes to the old
      keep-alive's channel, though the daemon was coherent at the read and is coherent at the send. */
  lemma LateNudgeMisses(s: State, cacheDir: string, w: World, s': State)
    requires Coherent(s) && Numbered(s) && cacheDir != s.config.cacheDir
    requires Reloads(s, s.config.(cacheDir := cacheDir), w, true, s')
    ensures Coherent(s') && Numbered(s') && !Reaches([s, s'], 0, 1)
  {
    var cfg := s.config.(cacheDir := cacheDir);
    ReloadIsCoherentIffItSucceeds(s, cfg, w, true, s');
    ReloadKeepsNumbers(s, cfg, w, true, s');
    ReloadHandsOver(s, Sighup(cfg, w), true, s');
  }

  lemma {:induction false} RunKeepsNumbers(trace: seq<State>, run: seq<Sighup>, oks: seq<bool>)
    requires Runs(trace, run, oks) && Numbered(trace[0])
    ensures Numbered(trace[|run|])
    decreases |run|
  {
    if run != [] {
      var n := |run| - 1;
      RunsPrefix(trace, run, oks, n);
      RunKeepsNumbers(trace[..n + 1], run[..n], oks[..n]);
      assert Reloads(trace[n], run[n].cfg, run[n].world, oks[n], trace[n + 1]);
      ReloadKeepsNumbers(trace[n], run[n].cfg, run[n].world, oks[n], trace[n + 1]);
    }
  }
}
