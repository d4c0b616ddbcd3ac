/** The desktop application: Start, Stop and applying a changed configuration drive routes and engine
    together. */
module App {
  import opened Bytes
  import opened RouteTable
  import opened Routes
  import opened Lifecycle

  datatype Config = Config(key: Key, autoRoute: bool)

  /** A change of one of these restarts the engine; any other is a hot reload. */
  predicate NeedsRestart(before: Config, after: Config) {
    || before.key.device != after.key.device
    || before.key.iface != after.key.iface
    || before.autoRoute != after.autoRoute
    || before.key.proxy != after.key.proxy
  }

  /** What a start demands when nothing below it fails. */
  predicate Startable(c: Config, lookup: Option<Lookup>) {
    Sound(c.key) && (c.autoRoute ==> lookup.Some?)
  }

  /** A tunnel is up, and a proxy about to be used, but not the first, has no host route. */
  ghost predicate Exposed(table: set<Route>, lookup: Option<Lookup>) {
    TunnelUp(table) && lookup.Some? && MissingBehind(table, SessionFor(lookup.value))
  }

  /** The commands of a successful set-up, and no others. */
  ghost predicate SetUpOnly(before: seq<Attempt>, after: seq<Attempt>, lookup: Option<Lookup>) {
    && lookup.Some?
    && StoppedAtFailure(before, after, SetupPlan(lookup.value), |SetupPlan(lookup.value)|, true)
  }

  lemma SetUpShows(before: seq<Attempt>, after: seq<Attempt>, lookup: Option<Lookup>)
    ensures SetUpOnly(before, after, lookup) ==> |before| < |after|
  {
  }

  // What the operations do, as relations between states.

  datatype State = State(cfg: Config, running: bool, policy: Option<RoutingProxy>, device: Option<string>,
                         dialer: seq<SockOpt>, up: RouteState, routes: set<Route>, log: seq<Attempt>,
                         history: seq<(set<Route>, Session)>, failures: nat)

  /** The tables recorded since belong to a set-up with this look-up. */
  ghost predicate RecordedBy(s: State, t: State, lookup: Option<Lookup>) {
    if lookup.None? then s.history == t.history else RecordedFor(s.history, t.history, SessionFor(lookup.value))
  }

  /** The routes that are up are those that were, or those of a set-up with this look-up. */
  predicate UpFrom(s: State, t: State, lookup: Option<Lookup>) {
    t.up.Active? ==> t.up == s.up || (lookup.Some? && Belongs(t.up, lookup.value))
  }

  /** The user has no route that a rollback would take along. */
  ghost predicate Safe(table: set<Route>, lookup: Option<Lookup>) {
    lookup.Some? ==> NothingOfTheUsers(table, lookup.value, NonLoopback(lookup.value.proxyIPs), NotReady)
  }

  /** What a set-up with this look-up, if there was one, has done to the routes; `ok` says that it succeeded. */
  ghost predicate Routed(s: State, lookup: Option<Lookup>, ok: bool, t: State) {
    && Settled(s.log, t.log) && RecordedBy(s, t, lookup) && UpFrom(s, t, lookup)
    && (ok ==>
          && SetUpOnly(s.log, t.log, lookup) && Belongs(t.up, lookup.value)
          && t.routes == SetUpFor(s.routes, lookup.value)
          && (TunnelUp(s.routes) && !Loops(s.history) ==> (Loops(t.history) <==> Exposed(s.routes, lookup))))
    && (StrandedAtOnce(s.log, t.log) ==> lookup.Some? && t.routes == SetUpFor(s.routes, lookup.value))
  }

  lemma RoutedOn(s: State, lookup: Option<Lookup>, ok: bool, a: State, t: State)
    requires Routed(s, lookup, ok, a) && RoutesUntouched(a, t)
    ensures Routed(s, lookup, ok, t)
  {
  }

  lemma RoutedFrom(s: State, a: State, lookup: Option<Lookup>, ok: bool, t: State)
    requires RoutesUntouched(s, a) && Routed(a, lookup, ok, t)
    ensures Routed(s, lookup, ok, t)
  {
  }

  lemma NotRouted(s: State, lookup: Option<Lookup>)
    ensures Routed(s, lookup, false, s) && !StrandedIn(s.log, s.log)
  {
  }

  /** `startLocked` from `s`, with `lookup` as what the route queries find, ends in `t`. One failure is not enough to
      leave anything of a set-up in the table. */
  ghost predicate Started(s: State, lookup: Option<Lookup>, ok: bool, t: State) {
    && t.cfg == s.cfg && t.failures >= s.failures
    && Routed(s, lookup, ok && !s.running && s.cfg.autoRoute, t)
    && (s.running ==> ok && t == s)
    && (!s.running ==> (ok <==> t.failures == s.failures && Startable(s.cfg, lookup)))
    && (ok ==> t.running)
    && (!ok && t.failures == s.failures ==> !t.running)
    && (ok && !s.running ==>
          && t.policy == Some(Policy(s.cfg.key)) && AsAsked(s.cfg.key, t.policy.value)
          && t.device == Some(s.cfg.key.device) && t.dialer == StartOptions(s.cfg.key))
    && (!s.running && !s.cfg.autoRoute ==> RoutesUntouched(s, t))
    && (!ok && t.failures <= s.failures + 1 && Safe(s.routes, lookup) ==> t.routes == s.routes)
  }

  predicate RoutesUntouched(s: State, t: State) {
    t.up == s.up && t.routes == s.routes && t.log == s.log && t.history == s.history
  }

  /** `stopLocked`: what is up is torn down, and only then the engine is stopped. */
  ghost predicate Stopped(s: State, ok: bool, t: State) {
    && t.cfg == s.cfg && t.failures == s.failures + (if ok then 0 else 1)
    && t.running == (s.running && !ok)
    && t.policy == (if ok then None else s.policy) && t.device == (if ok then None else s.device)
    && t.dialer == s.dialer
    && (ok ==> t.up.Inactive?)
    && (s.up.Inactive? ==> RoutesUntouched(s, t))
    && (s.up.Active? ==>
          && t.up == (if t.up.Inactive? then Inactive else s.up)
          && StoppedAtFailure(s.log, t.log, TeardownPlan(s.up), 2 + |s.up.proxyIPs|, t.up.Inactive?)
          && t.routes == AfterTeardown(s.routes, s.up, Succeeded(t.log[|s.log|..]))
          && RecordedFor(s.history, t.history, SessionOf(s.up)))
  }

  /** `applyRunningConfigLocked`: the configuration of `s` is already the new one. */
  ghost predicate Changed(s: State, before: Config, lookup: Option<Lookup>, lookupBefore: Option<Lookup>, ok: bool,
                          t: State) {
    if !s.running then ok && t == s
    else if s.cfg.key.proxy == "" then !ok && t == s
    else if NeedsRestart(before, s.cfg) then Restarted(s, before, lookup, lookupBefore, ok, t)
    else Reloaded(s, before, ok, t)
  }

  /** A hot reload. */
  predicate Reloaded(s: State, before: Config, ok: bool, t: State) {
    && RoutesUntouched(s, t) && t.running && t.failures >= s.failures
    && (ok <==> t.failures == s.failures && Acceptable(Policy(s.cfg.key)))
    && t.cfg == (if ok then s.cfg else before)
    && t.policy == (if ok then Some(Policy(s.cfg.key)) else s.policy)
    && t.dialer == (if ok then ReloadOptions(s.cfg.key) else s.dialer)
    && t.device == s.device
  }

  /** Stop, start, and start again as before if that fails. */
  ghost predicate Restarted(s: State, before: Config, lookup: Option<Lookup>, lookupBefore: Option<Lookup>, ok: bool,
                            t: State) {
    exists a: State, stopped: bool ::
      && Stopped(s, stopped, a)
      && if stopped then StartedOrBack(a, before, lookup, lookupBefore, ok, t) else !ok && t == a
  }

  ghost predicate StartedOrBack(s: State, before: Config, lookup: Option<Lookup>, lookupBefore: Option<Lookup>,
                                ok: bool, t: State) {
    || (ok && Started(s, lookup, true, t))
    || (!ok && exists a: State, again: bool ::
               Started(s, lookup, false, a) && Started(a.(cfg := before), lookupBefore, again, t))
  }

  lemma RestartedBy(s: State, stopped: bool, a: State, before: Config, lookup: Option<Lookup>,
                    lookupBefore: Option<Lookup>, ok: bool, t: State)
    requires Stopped(s, stopped, a)
    requires if stopped then StartedOrBack(a, before, lookup, lookupBefore, ok, t) else !ok && t == a
    ensures Restarted(s, before, lookup, lookupBefore, ok, t)
  {
  }

  lemma ThereBy(s: State, before: Config, lookup: Option<Lookup>, lookupBefore: Option<Lookup>, t: State)
    requires Started(s, lookup, true, t)
    ensures StartedOrBack(s, before, lookup, lookupBefore, true, t)
  {
  }

  lemma BackBy(s: State, before: Config, lookup: Option<Lookup>, lookupBefore: Option<Lookup>, a: State, again: bool,
               t: State)
    requires Started(s, lookup, false, a) && Started(a.(cfg := before), lookupBefore, again, t)
    ensures StartedOrBack(s, before, lookup, lookupBefore, false, t)
  {
  }

  /** What a change comes to, by what has changed. With automatic routes, a new proxy, device, interface or the
      switching on of the routes means that routes are up for the proxies now looked up, each with a host route;
      switching them off, that none are. In any of these cases the engine runs on the device, with the interface and the
      mark, that the configuration names. Nothing else touches routes or device. A configuration that cannot be
      started leaves the old one running again, if that can and nothing fails. */
  ghost predicate InEffect(s: State, before: Config, lookup: Option<Lookup>, lookupBefore: Option<Lookup>, ok: bool,
                           t: State) {
    var was, now := before.key, s.cfg.key;
    var rewired := was.proxy != now.proxy || was.device != now.device || was.iface != now.iface
                   || before.autoRoute != s.cfg.autoRoute;
    && t.failures >= s.failures
    && (!s.running ==> ok && t == s)
    && (t.cfg == s.cfg || (!ok && t.cfg == before))
    && (t.failures == s.failures && Startable(s.cfg, lookup) ==> ok)
    && (s.running && ok ==> t.running && t.policy.Some? && AsAsked(now, t.policy.value))
    && (s.running && ok && rewired && s.cfg.autoRoute ==> lookup.Some? && GuardedNow(t, lookup.value))
    && (s.running && ok && rewired && !s.cfg.autoRoute ==> t.up.Inactive?)
    && (s.running && ok && rewired ==> t.device == Some(now.device) && DialsAs(now, t.dialer))
    && (s.running && !rewired ==>
          && RoutesUntouched(s, t) && t.running && t.device == s.device
          && (!ok ==> t.policy == s.policy && t.dialer == s.dialer))
    && (s.running && rewired && now.proxy != "" && t.failures == s.failures && !Startable(s.cfg, lookup)
        && Startable(before, lookupBefore) ==>
          !ok && t.cfg == before && t.running && t.policy == Some(Policy(before.key)))
  }

  lemma ChangeIsInEffect(s: State, before: Config, lookup: Option<Lookup>, lookupBefore: Option<Lookup>, ok: bool,
                         t: State)
    requires Changed(s, before, lookup, lookupBefore, ok, t) && (s.running ==> s.policy.Some?)
    ensures InEffect(s, before, lookup, lookupBefore, ok, t)
  {
    hide Settled, RecordedBy, UpFrom, Exposed, Loops, TunnelUp, StrandedAtOnce, StoppedAtFailure, TeardownPlan;
    hide AfterTeardown, RecordedFor, SetupPlan, SetUpFor, Belongs, NonLoopback, Restarted;
    PolicyAsAsked(s.cfg.key, Policy(s.cfg.key));
    if Restarted(s, before, lookup, lookupBefore, ok, t) {
      RestartMeans(s, before, lookup, lookupBefore, ok, t);
      if ok {
        RestartRewires(s, before, lookup, lookupBefore, t);
      }
    }
  }

  lemma RestartRewires(s: State, before: Config, lookup: Option<Lookup>, lookupBefore: Option<Lookup>, t: State)
    requires Restarted(s, before, lookup, lookupBefore, true, t)
    ensures s.cfg.autoRoute ==> lookup.Some? && GuardedNow(t, lookup.value)
    ensures !s.cfg.autoRoute ==> t.up.Inactive?
    ensures t.device == Some(s.cfg.key.device) && DialsAs(s.cfg.key, t.dialer)
  {
    hide Settled, RecordedBy, UpFrom, Exposed, Loops, TunnelUp, StrandedAtOnce, StoppedAtFailure, TeardownPlan;
    hide AfterTeardown, RecordedFor, Startable, SetupPlan, SetUpFor, Belongs, NonLoopback, StartOptions;
    StartOptionsExactly(s.cfg.key);
    forall l: Lookup, table | lookup == Some(l)
      ensures HostRoutes(SessionFor(l), NonLoopback(l.proxyIPs)) <= SetUpFor(table, l)
    {
      SetUpGuards(table, l);
    }
  }

  /** Routes are up for exactly these proxies, and each has its host route. */
  ghost predicate GuardedNow(t: State, l: Lookup) {
    Belongs(t.up, l) && HostRoutes(SessionFor(l), NonLoopback(l.proxyIPs)) <= t.routes
  }

  lemma SetUpGuards(table: set<Route>, l: Lookup)
    ensures HostRoutes(SessionFor(l), NonLoopback(l.proxyIPs)) <= SetUpFor(table, l)
  {
    hide NonLoopback;
  }

  ghost predicate DialsAs(k: Key, dialer: seq<SockOpt>) {
    forall o :: o in dialer <==>
                  (k.iface != "" && o == BindToInterface(k.iface)) || (k.mark != 0 && o == RoutingMark(k.mark))
  }

  /** What a restart comes to, when the new configuration can be started and when only the old one can. */
  lemma RestartMeans(s: State, before: Config, lookup: Option<Lookup>, lookupBefore: Option<Lookup>, ok: bool,
                     t: State)
    requires Restarted(s, before, lookup, lookupBefore, ok, t)
    ensures t.failures >= s.failures && (t.cfg == s.cfg || (!ok && t.cfg == before))
    ensures ok ==> t.running && t.policy == Some(Policy(s.cfg.key))
    ensures t.failures == s.failures ==> (ok <==> Startable(s.cfg, lookup))
    ensures t.failures == s.failures && !Startable(s.cfg, lookup) && Startable(before, lookupBefore) ==>
              !ok && t.cfg == before && t.running && t.policy == Some(Policy(before.key))
  {
    hide Settled, RecordedBy, UpFrom, RoutesUntouched, SetUpOnly, Belongs, SetUpFor, Exposed, Loops, TunnelUp;
    hide StrandedAtOnce, StoppedAtFailure, TeardownPlan, AfterTeardown, RecordedFor, Startable;
  }

  class DesktopApp {
    const engine: Engine
    const os: System
    const routes: RouteManager
    var cfg: Config
    ghost var failures: nat
    ghost var stranded: bool // a teardown inside a failed set-up has itself failed: `StrandedIn` of the log
    ghost var overlaid: bool // a set-up has been started on top of routes left active that way

    /** Failures of anything below, so far. */
    ghost function Failures(): nat
      reads this, engine, os
    {
      failures + engine.failures + os.failures
    }

    ghost function Now(): State
      reads this, engine, os, routes
    {
      State(cfg, engine.Running(), engine.routing, engine.device, engine.dialer, routes.up, os.routes, os.log,
            os.history, Failures())
    }

    ghost function Repr(): set<object> {
      {this, engine, os, routes}
    }

    /** Unless a teardown inside a failed set-up has failed, routes are active only while the engine runs.
        Unless a second set-up was then started on top of what it left, no table the system has ever
        been in would have sent proxy traffic into the tunnel. */
    ghost predicate Valid()
      reads this, engine, os, routes
    {
      && routes.os == os && engine.Valid() && os.Consistent()
      && (!overlaid ==> routes.Valid())
      && (!stranded ==> !overlaid && (routes.up.Active? ==> engine.Running()))
    }

    constructor (os: System, cfg: Config)
      requires !TunnelUp(os.routes) && os.AllGuarded() && os.Consistent()
      ensures Valid() && fresh(Repr() - {os}) && this.os == os && !stranded && !engine.Running()
    {
      this.os, this.cfg := os, cfg;
      engine := new Engine();
      routes := new RouteManager(os);
      stranded, overlaid, failures := false, false, 0;
    }

    /** `startLocked`; `lookup` is what the route queries will find. */
    method Start(lookup: Option<Lookup>) returns (ok: bool)
      requires Valid()
      modifies Repr()
      ensures Valid() && Started(old(Now()), lookup, ok, Now())
      ensures Failures() >= old(Failures()) && Settled(old(os.log), os.log)
      ensures stranded == (old(stranded) || StrandedIn(old(os.log), os.log))
      ensures stranded && !old(stranded) ==> !ok && Failures() >= old(Failures()) + 2
      ensures overlaid ==> old(overlaid || (routes.up.Active? && !engine.Running() && cfg.autoRoute))
      ensures !ok && !stranded ==> routes.up.Inactive?
    {
      hide Routed, StrandedIn, Settled, Loops, Replayed, Tables, Recorded, Guarded, Safe;
      NothingYet(os.log);
      NotRouted(Now(), lookup);
      if engine.Running() {
        return true;
      }
      ok := *; // normalise the configuration, reach the proxy, select the interface
      failures := failures + if ok then 0 else 1;
      RoutedOn(old(Now()), lookup, false, old(Now()), Now());
      if !ok || cfg.key.proxy == "" {
        return false;
      }
      engine.Insert(cfg.key);
      ok := engine.Start();
      RoutedOn(old(Now()), lookup, false, old(Now()), Now());
      if ok && cfg.autoRoute {
        ghost var before := Now();
        ok := RouteOrStop(lookup);
        RoutedFrom(old(Now()), before, lookup, ok, Now());
      }
    }

    /** The set-up of the routes on a running engine, which is stopped again when it fails. */
    method RouteOrStop(lookup: Option<Lookup>) returns (ok: bool)
      requires Valid() && engine.Running() && (!stranded ==> routes.up.Inactive?)
      modifies Repr()
      ensures Valid() && cfg == old(cfg) && Failures() >= old(Failures())
      ensures ok <==> Failures() == old(Failures()) && lookup.Some?
      ensures ok ==> engine.Running() && engine.routing == old(engine.routing)
      ensures ok ==> engine.device == old(engine.device) && engine.dialer == old(engine.dialer)
      ensures !ok && Failures() == old(Failures()) ==> !engine.Running()
      ensures Routed(old(Now()), lookup, ok, Now()) && Settled(old(os.log), os.log)
      ensures stranded == (old(stranded) || (!ok && routes.up.Active?))
      ensures stranded == (old(stranded) || StrandedIn(old(os.log), os.log))
      ensures stranded && !old(stranded) ==> Failures() >= old(Failures()) + 2
      ensures overlaid == old(overlaid || routes.up.Active?)
      ensures !ok && Failures() <= old(Failures()) + 1 && Safe(old(os.routes), lookup) ==>
                os.routes == old(os.routes)
    {
      hide Routed, Safe, StrandedIn, Settled, Loops, TunnelUp, Replayed, Tables, Recorded, Guarded, Acceptable, AsAsked;
      hide NonLoopback, HostRoutes;
      overlaid := overlaid || routes.up.Active?;
      routes.IdleWhenInactive();
      ok := SetUpRoutes(lookup);
      ghost var routed := Now();
      if !ok {
        stranded := stranded || routes.up.Active?;
        var stopped := engine.Stop();
      }
      RoutedOn(old(Now()), lookup, ok, routed, Now());
    }

    /** The outcome of a set-up, as far as the application looks at it. */
    method SetUpRoutes(lookup: Option<Lookup>) returns (ok: bool)
      requires routes.os == os && os.Consistent()
      modifies os, routes`up
      ensures os.Consistent()
      ensures ok <==> os.failures == old(os.failures) && lookup.Some?
      ensures os.failures >= old(os.failures) && Settled(old(os.log), os.log)
      ensures Routed(old(Now()), lookup, ok, Now())
      ensures old(routes.up.Inactive?) && !ok ==> (routes.up.Active? <==> StrandedIn(old(os.log), os.log))
      ensures StrandedIn(old(os.log), os.log) ==> !ok && os.failures >= old(os.failures) + 2
      ensures !ok && os.failures <= old(os.failures) + 1 && Safe(old(os.routes), lookup) ==> os.routes == old(os.routes)
      ensures old(routes.Idle()) ==> routes.Valid()
    {
      hide MissingBehind, StoppedAtFailure, TeardownPlan, CleanupPlan, SetupPlan, Loops, StrandedIn, Settled, TunnelUp;
      hide Left, StrandedAtOnce, NothingOfTheUsers, Restored, Tried, Attempted, Installed, NonLoopback;
      ghost var added, original, readOk, reached;
      var stage, clean;
      stage, clean, added, original, readOk, reached := routes.SetupRoutes(lookup);
      ok := stage == Done;
      if ok {
        assert os.log[|reached|..] == [];
        LeftDone(old(os.routes), lookup.value, added, original);
      }
      if !ok && os.failures <= old(os.failures) + 1 && lookup.Some? && Safe(old(os.routes), lookup) {
        var l := lookup.value;
        NothingOfFewer(old(os.routes), l, added, NonLoopback(l.proxyIPs), stage);
        LeftEarly(old(os.routes), l, added, original, os.log[|reached|..]);
      }
      StrandedAtOnceIsStranded(old(os.log), os.log);
      if stage == NotReady && !clean {
        NothingTakenDown(old(os.log), reached, os.log, old(os.routes), lookup.value, added, original);
      }
    }

    /** `stopLocked`: the engine keeps running when the routes cannot be taken down. */
    method Stop() returns (ok: bool)
      requires Valid()
      modifies Repr()
      ensures Valid() && stranded == old(stranded) && overlaid == old(overlaid)
      ensures Stopped(old(Now()), ok, Now()) && os.routes <= old(os.routes)
      ensures Failures() >= old(Failures()) && (ok ==> routes.up.Inactive?)
      ensures Settled(old(os.log), os.log) && !StrandedIn(old(os.log), os.log)
    {
      hide AfterTeardown, StoppedAtFailure, TeardownPlan, RecordedFor, StrandedIn, Settled, Loops, Guarded;
      hide Replayed, Tables, Recorded, Succeeded, NonLoopback;
      NothingYet(os.log);
      if routes.up.Active? {
        ok := routes.TeardownRoutes();
        if !ok {
          return;
        }
      }
      ok := engine.Stop();
    }

    /** `applyRunningConfigLocked`: `cfg` is already the new configuration. */
    method ApplyRunningConfig(before: Config, lookup: Option<Lookup>, lookupBefore: Option<Lookup>)
        returns (ok: bool)
      requires Valid()
      modifies Repr()
      ensures Valid() && Changed(old(Now()), before, lookup, lookupBefore, ok, Now())
      ensures InEffect(old(Now()), before, lookup, lookupBefore, ok, Now())
      ensures Failures() >= old(Failures()) && Settled(old(os.log), os.log)
      ensures stranded == (old(stranded) || StrandedIn(old(os.log), os.log))
      ensures stranded && !old(stranded) ==> Failures() >= old(Failures()) + 2
      ensures overlaid ==> old(overlaid) || stranded
    {
      hide StrandedIn, Settled, Loops, SetUpOnly, Exposed, TunnelUp, SetUpFor, Replayed, Tables, Recorded, Guarded;
      hide Restarted, Reloaded, InEffect, StartOptions, AsAsked, NonLoopback, HostRoutes;
      NothingYet(os.log);
      if !engine.Running() {
        ok := true;
      } else if cfg.key.proxy == "" {
        ok := false;
      } else if before.key.device != cfg.key.device || before.key.iface != cfg.key.iface
                || before.autoRoute != cfg.autoRoute || before.key.proxy != cfg.key.proxy {
        ok := Restart(before, lookup, lookupBefore);
      } else {
        ok := HotReload(before);
      }
      ChangeIsInEffect(old(Now()), before, lookup, lookupBefore, ok, Now());
    }

    /** The branch of `applyRunningConfigLocked` that does not touch routes and device. */
    method HotReload(before: Config) returns (ok: bool)
      requires Valid() && engine.Running() && cfg.key.proxy != ""
      modifies this, engine
      ensures Valid() && Reloaded(old(Now()), before, ok, Now())
      ensures stranded == old(stranded) && overlaid == old(overlaid) && Failures() >= old(Failures())
    {
      hide ReloadOptions, StartOptions, AsAsked, NonLoopback, HostRoutes, Loops, TunnelUp, Replayed, Tables, Recorded;
      ok := engine.Reload(cfg.key);
      if !ok {
        cfg := before;
      }
    }

    /** The branch of `applyRunningConfigLocked` that restarts the engine. */
    method Restart(before: Config, lookup: Option<Lookup>, lookupBefore: Option<Lookup>) returns (ok: bool)
      requires Valid()
      modifies Repr()
      ensures Valid() && Restarted(old(Now()), before, lookup, lookupBefore, ok, Now())
      ensures Failures() >= old(Failures()) && Settled(old(os.log), os.log)
      ensures stranded == (old(stranded) || StrandedIn(old(os.log), os.log))
      ensures stranded && !old(stranded) ==> Failures() >= old(Failures()) + 2
      ensures overlaid ==> old(overlaid) || stranded
    {
      hide StrandedIn, Settled, Loops, SetUpOnly, Exposed, TunnelUp, SetUpFor, Replayed, Tables, Recorded, Guarded;
      hide Started, Stopped, StartedOrBack, Restarted;
      ok := Stop();
      ghost var stopped := Now();
      if !ok {
        RestartedBy(old(Now()), false, stopped, before, lookup, lookupBefore, false, Now());
        return;
      }
      ok := StartOrBack(before, lookup, lookupBefore);
      StrandedTogether(old(os.log), stopped.log, os.log);
      RestartedBy(old(Now()), true, stopped, before, lookup, lookupBefore, ok, Now());
    }

    method StartOrBack(before: Config, lookup: Option<Lookup>, lookupBefore: Option<Lookup>) returns (ok: bool)
      requires Valid() && routes.up.Inactive?
      modifies Repr()
      ensures Valid() && StartedOrBack(old(Now()), before, lookup, lookupBefore, ok, Now())
      ensures Failures() >= old(Failures()) && Settled(old(os.log), os.log)
      ensures stranded == (old(stranded) || StrandedIn(old(os.log), os.log))
      ensures stranded && !old(stranded) ==> Failures() >= old(Failures()) + 2
      ensures overlaid ==> old(overlaid) || stranded
    {
      hide StrandedIn, Settled, Loops, SetUpOnly, Exposed, TunnelUp, SetUpFor, Replayed, Tables, Recorded, Guarded;
      hide Started, StartedOrBack;
      ok := Start(lookup);
      ghost var started := Now();
      if ok {
        ThereBy(old(Now()), before, lookup, lookupBefore, started);
        return;
      }
      cfg := before;
      var again := Start(lookupBefore);
      BackBy(old(Now()), before, lookup, lookupBefore, started, again, Now());
      StrandedTogether(old(os.log), started.log, os.log);
    }
  }

  /** How an idle application comes to let proxy traffic loop. `between` is the log after the first start. If it
      shows that this start neither saw its routes come up nor took any of them down, and the second start has set up
      its own, then a table on record loops exactly when some proxy of the second start, other than its first, has
      no host route among those that the first left. */
  method StartTwice(app: DesktopApp, first: Option<Lookup>, second: Option<Lookup>)
      returns (one: bool, two: bool, ghost between: seq<Attempt>)
    requires app.Valid() && !app.stranded && !app.engine.Running() && app.cfg.autoRoute
    modifies app.Repr()
    ensures app.Valid() && old(app.os.log) <= between <= app.os.log
    ensures one ==> SetUpOnly(old(app.os.log), between, first) && two && app.os.log == between
    ensures two ==> app.engine.Running() && (app.os.log == between || SetUpOnly(between, app.os.log, second))
    ensures StrandedAtOnce(old(app.os.log), between) && SetUpOnly(between, app.os.log, second) && two ==>
              && first.Some?
              && (Loops(app.os.history)
                  <==> MissingBehind(SetUpFor(old(app.os.routes), first.value), SessionFor(second.value)))
  {
    hide Loops, MissingBehind, StoppedAtFailure;
    one := app.Start(first);
    between := app.os.log;
    if StrandedAtOnce(old(app.os.log), between) {
      SetUpTunnel(old(app.os.routes), first.value);
    }
    two := app.Start(second);
    SetUpShows(between, app.os.log, second);
  }

  datatype Command =
    | StartApp(lookup: Option<Lookup>)
    | StopApp
    | Save(cfg: Config, lookup: Option<Lookup>, lookupBefore: Option<Lookup>)

  /** What a command does. */
  ghost predicate Performed(command: Command, s: State, ok: bool, t: State) {
    match command
    case StartApp(lookup) => Started(s, lookup, ok, t)
    case StopApp => Stopped(s, ok, t)
    case Save(cfg, lookup, lookupBefore) => Changed(s.(cfg := cfg), s.cfg, lookup, lookupBefore, ok, t)
  }

  function Found(lookup: Option<Lookup>): set<Lookup> {
    if lookup.None? then {} else {lookup.value}
  }

  function Lookups(command: Command): set<Lookup> {
    match command
    case StartApp(lookup) => Found(lookup)
    case StopApp => {}
    case Save(_, lookup, lookupBefore) => Found(lookup) + Found(lookupBefore)
  }

  function AllLookups(commands: seq<Command>): set<Lookup> {
    set c, l | c in commands && l in Lookups(c) :: l
  }

  /** The proxies to be protected are those of one of these look-ups, or of the routes that were up to begin with. */
  ghost predicate Ours(task: Session, s: State, ls: set<Lookup>) {
    || (s.up.Active? && SameTask(task, SessionOf(s.up)))
    || exists l :: l in ls && SameTask(task, SessionFor(l))
  }

  /** Between `s` and `t` no table was recorded for any other proxies, nor are routes for others up. */
  ghost predicate RecordedForOurs(first: State, ls: set<Lookup>, s: State, t: State) {
    && s.history <= t.history
    && (forall k :: |s.history| <= k < |t.history| ==> Ours(t.history[k].1, first, ls))
    && (t.up.Active? ==> Ours(SessionOf(t.up), first, ls))
  }

  lemma OursThen(first: State, ls: set<Lookup>, s: State, a: State, t: State)
    requires RecordedForOurs(first, ls, s, a) && RecordedForOurs(first, ls, a, t)
    ensures RecordedForOurs(first, ls, s, t)
  {
  }

  lemma BelongsIsTask(up: RouteState, l: Lookup)
    requires Belongs(up, l)
    ensures SameTask(SessionOf(up), SessionFor(l))
  {
    NonLoopbackIdempotent(l.proxyIPs);
  }

  lemma StartedForOurs(first: State, ls: set<Lookup>, s: State, lookup: Option<Lookup>, ok: bool, t: State)
    requires Started(s, lookup, ok, t) && Found(lookup) <= ls
    requires s.up.Active? ==> Ours(SessionOf(s.up), first, ls)
    ensures RecordedForOurs(first, ls, s, t)
  {
    hide NonLoopback, Settled, StrandedAtOnce, SetUpOnly, Exposed, Loops, SetUpFor, TunnelUp;
    if lookup.Some? {
      assert lookup.value in ls;
      if t.up.Active? && t.up != s.up {
        BelongsIsTask(t.up, lookup.value);
      }
    }
  }

  lemma StoppedForOurs(first: State, ls: set<Lookup>, s: State, ok: bool, t: State)
    requires Stopped(s, ok, t)
    requires s.up.Active? ==> Ours(SessionOf(s.up), first, ls)
    ensures RecordedForOurs(first, ls, s, t)
  {
    hide NonLoopback, StoppedAtFailure, AfterTeardown, TeardownPlan;
  }

  lemma PerformedForOurs(first: State, ls: set<Lookup>, command: Command, s: State, ok: bool, t: State)
    requires Performed(command, s, ok, t) && Lookups(command) <= ls
    requires s.up.Active? ==> Ours(SessionOf(s.up), first, ls)
    ensures RecordedForOurs(first, ls, s, t)
  {
    hide Started, Stopped, Ours;
    match command
    case StartApp(lookup) =>
      StartedForOurs(first, ls, s, lookup, ok, t);
    case StopApp =>
      StoppedForOurs(first, ls, s, ok, t);
    case Save(cfg, lookup, lookupBefore) =>
      var s' := s.(cfg := cfg);
      if Restarted(s', s.cfg, lookup, lookupBefore, ok, t) {
        RestartedForOurs(first, ls, s', s.cfg, lookup, lookupBefore, ok, t);
      }
  }

  lemma RestartedForOurs(first: State, ls: set<Lookup>, s: State, before: Config, lookup: Option<Lookup>,
                         lookupBefore: Option<Lookup>, ok: bool, t: State)
    requires Restarted(s, before, lookup, lookupBefore, ok, t) && Found(lookup) <= ls && Found(lookupBefore) <= ls
    requires s.up.Active? ==> Ours(SessionOf(s.up), first, ls)
    ensures RecordedForOurs(first, ls, s, t)
  {
    hide Started, Stopped, Ours;
    var a: State, stopped: bool :|
      && Stopped(s, stopped, a)
      && if stopped then StartedOrBack(a, before, lookup, lookupBefore, ok, t) else !ok && t == a;
    StoppedForOurs(first, ls, s, stopped, a);
    if stopped {
      if ok {
        StartedForOurs(first, ls, a, lookup, true, t);
      } else {
        var b: State, again: bool :|
          Started(a, lookup, false, b) && Started(b.(cfg := before), lookupBefore, again, t);
        StartedForOurs(first, ls, a, lookup, false, b);
        StartedForOurs(first, ls, b.(cfg := before), lookupBefore, again, t);
        OursThen(first, ls, a, b, t);
      }
      OursThen(first, ls, s, a, t);
    }
  }

  /** A run: each command takes one state to the next, and each result is that of its command. */
  ghost predicate RunOf(commands: seq<Command>, results: seq<bool>, states: seq<State>) {
    && |results| == |commands| && |states| == |commands| + 1
    && forall i :: 0 <= i < |commands| ==> Performed(commands[i], states[i], results[i], states[i + 1])
  }

  /** In every run, tables are recorded only for the proxies of its look-ups and of the routes up at its start. */
  lemma {:induction false} RunIsForOurs(commands: seq<Command>, results: seq<bool>, states: seq<State>, n: nat)
    requires RunOf(commands, results, states) && n <= |commands|
    ensures RecordedForOurs(states[0], AllLookups(commands), states[0], states[n])
  {
    hide Performed;
    var first, ls := states[0], AllLookups(commands);
    if n > 0 {
      RunIsForOurs(commands, results, states, n - 1);
      assert commands[n - 1] in commands;
      PerformedForOurs(first, ls, commands[n - 1], states[n - 1], results[n - 1], states[n]);
      OursThen(first, ls, first, states[n - 1], states[n]);
    }
  }

  method Perform(app: DesktopApp, command: Command) returns (ok: bool)
    requires app.Valid()
    modifies app.Repr()
    ensures app.Valid() && Performed(command, old(app.Now()), ok, app.Now())
    ensures app.Failures() >= old(app.Failures()) && Settled(old(app.os.log), app.os.log)
    ensures app.stranded == (old(app.stranded) || StrandedIn(old(app.os.log), app.os.log))
    ensures app.stranded && !old(app.stranded) ==> app.Failures() >= old(app.Failures()) + 2
  {
    hide StrandedIn, Settled, Started, Stopped, Changed;
    match command
    case StartApp(lookup) =>
      ok := app.Start(lookup);
    case StopApp =>
      ok := app.Stop();
    case Save(cfg, lookup, lookupBefore) =>
      var before := app.cfg;
      app.cfg := cfg;
      ok := app.ApplyRunningConfig(before, lookup, lookupBefore);
  }

  /** Any run of the application, with any command of the system or step of the engine failing. The record of tables
      is what the commands in the log have made of them, and so is the table (`System.Consistent`, in `Valid`); the
      proxies each was recorded for are those of the command that was running. */
  method Run(app: DesktopApp, commands: seq<Command>) returns (results: seq<bool>, ghost states: seq<State>)
    requires app.Valid() && !app.stranded
    modifies app.Repr()
    ensures app.Valid() && app.Failures() >= old(app.Failures())
    ensures RunOf(commands, results, states) && states[0] == old(app.Now()) && states[|commands|] == app.Now()
    ensures RecordedForOurs(old(app.Now()), AllLookups(commands), old(app.Now()), app.Now())
    ensures !StrandedIn(old(app.os.log), app.os.log) ==>
              && app.os.AllGuarded()
              && (app.routes.up.Active? || TunnelUp(app.os.routes) ==> app.engine.Running())
    ensures app.Failures() <= old(app.Failures()) + 1 ==> !StrandedIn(old(app.os.log), app.os.log)
    ensures old(app.os.log) <= app.os.log && app.stranded == StrandedIn(old(app.os.log), app.os.log)
    ensures !app.overlaid ==> app.os.AllGuarded()
  {
    results, states := [], [app.Now()];
    for i := 0 to |commands|
      invariant app.Valid() && app.Failures() >= old(app.Failures())
      invariant Settled(old(app.os.log), app.os.log)
      invariant app.stranded == StrandedIn(old(app.os.log), app.os.log)
      invariant app.stranded ==> app.Failures() >= old(app.Failures()) + 2
      invariant RunOf(commands[..i], results, states) && states[0] == old(app.Now()) && states[i] == app.Now()
    {
      hide StrandedIn, Settled, Performed;
      ghost var log := app.os.log;
      var ok := Perform(app, commands[i]);
      RunOn(commands[..i], results, states, commands[i], ok, app.Now());
      assert commands[..i] + [commands[i]] == commands[..i + 1];
      results, states := results + [ok], states + [app.Now()];
      StrandedTogether(old(app.os.log), log, app.os.log);
    }
    assert commands[..|commands|] == commands;
    RunIsForOurs(commands, results, states, |commands|);
  }

  lemma RunOn(commands: seq<Command>, results: seq<bool>, states: seq<State>, command: Command, ok: bool, t: State)
    requires RunOf(commands, results, states) && Performed(command, states[|commands|], ok, t)
    ensures RunOf(commands + [command], results + [ok], states + [t])
  {
    hide Performed;
  }
}
