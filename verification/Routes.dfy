/** The route transaction of the Windows desktop: set-up with rollback, and teardown. */
module Routes {
  import opened Bytes
  import opened RouteTable

  /** First occurrences, in order: what `resolveProxyIPs` keeps of a look-up. */
  function Distinct(ips: seq<Ip>): seq<Ip> {
    if ips == [] then []
    else
      var d, last := Distinct(ips[..|ips| - 1]), ips[|ips| - 1];
      if last in d then d else d + [last]
  }

  lemma {:induction false} DistinctSound(ips: seq<Ip>)
    ensures forall ip :: ip in Distinct(ips) <==> ip in ips
    ensures forall i, j :: 0 <= i < j < |Distinct(ips)| ==> Distinct(ips)[i] != Distinct(ips)[j]
    ensures ips != [] ==> Distinct(ips) != [] && Distinct(ips)[0] == ips[0]
  {
    if ips != [] {
      DistinctSound(ips[..|ips| - 1]);
      assert ips == ips[..|ips| - 1] + [ips[|ips| - 1]];
    }
  }

  function V4(found: seq<Option<Ip>>): seq<Ip> {
    if found == [] then []
    else V4(found[..|found| - 1]) + if found[|found| - 1].Some? then [found[|found| - 1].value] else []
  }

  /** The de-duplication loop of `resolveProxyIPs`; an address that is not IPv4 is `None`. */
  method ResolveProxyIPs(found: seq<Option<Ip>>) returns (result: Option<seq<Ip>>)
    ensures result == if V4(found) == [] then None else Some(Distinct(V4(found)))
  {
    var seen: set<Ip> := {};
    var kept: seq<Ip> := [];
    for i := 0 to |found|
      invariant kept == Distinct(V4(found[..i]))
      invariant forall ip :: ip in seen <==> ip in kept
    {
      assert found[..i + 1][..i] == found[..i];
      ghost var before := V4(found[..i]);
      if found[i].Some? && found[i].value !in seen {
        seen := seen + {found[i].value};
        kept := kept + [found[i].value];
      }
      assert before + [] == before;
      assert found[i].Some? ==> (before + [found[i].value])[..|before|] == before;
    }
    assert found[..|found|] == found;
    DistinctSound(V4(found));
    if |kept| == 0 {
      return None;
    }
    return Some(kept);
  }

  datatype Lookup = Lookup(gateway: Ip, tunIndex: nat, proxyIPs: seq<Ip>, physicalIndex: nat)

  function SessionFor(l: Lookup): Session {
    Session(l.gateway, l.physicalIndex, l.proxyIPs)
  }

  datatype RouteState =
    | Inactive
    | Active(tunIndex: nat, physicalIndex: nat, gateway: Ip, proxyIPs: seq<Ip>, original: TunConfig)

  function SessionOf(s: RouteState): Session
    requires s.Active?
  {
    Session(s.gateway, s.physicalIndex, s.proxyIPs)
  }

  /** Where a set-up ended. */
  datatype Stage =
    | LookupFailed | AddressFailed | DnsFailed | HostAddFailed | DefaultAddFailed | NotReady | Done

  /** The table right after a set-up. */
  function Installed(table: set<Route>, l: Lookup, added: seq<Ip>): set<Route> {
    table + HostRoutes(Session(l.gateway, l.physicalIndex, added), added) + {Route(0, 0, TUN_GATEWAY, l.tunIndex)}
  }

  /** The table right after a set-up that adds all its routes. */
  function SetUpFor(table: set<Route>, l: Lookup): set<Route> {
    Installed(table, l, NonLoopback(l.proxyIPs))
  }

  /** The table after a teardown. */
  function Removed(table: set<Route>, l: Lookup, added: seq<Ip>): set<Route> {
    Without(WithoutTunDefault(table, l.tunIndex), added, l.physicalIndex)
  }

  lemma NothingToRestore()
    ensures Restored(NO_CONFIG) == Dhcp
  {
  }

  lemma HostsThenRemoved(table: set<Route>, l: Lookup, added: seq<Ip>)
    ensures Without(table + HostRoutes(SessionFor(l), added), added, l.physicalIndex)
            == Without(table, added, l.physicalIndex)
  {
  }

  lemma InstalledThenRemoved(table: set<Route>, l: Lookup, added: seq<Ip>)
    ensures Removed(Installed(table, l, added), l, added) == Removed(table, l, added)
  {
  }

  /** Without a tunnel before, the set-up's own is the only one, and its proxies are guarded. */
  lemma InstalledGuarded(table: set<Route>, l: Lookup, added: seq<Ip>)
    requires !TunnelUp(table) && NonLoopback(added) == added
    ensures forall r :: r in Installed(table, l, added) && IsTunDefault(r) ==> r.iface == l.tunIndex
    ensures Guarded(Installed(table, l, added), Session(l.gateway, l.physicalIndex, added))
  {
  }

  /** The table held, on the physical interface, a /32 route of its own for one of these addresses. */
  ghost predicate HadHostRoute(table: set<Route>, ips: seq<Ip>, iface: nat) {
    exists r :: r in table && r.prefix == 32 && r.iface == iface && r.dest in ips
  }

  /** Rolling back a failed set-up restores the table exactly when the user had no host route for one of
      the addresses on that interface: `route DELETE` does not look at the gateway and takes it along. */
  lemma RollbackExact(table: set<Route>, added: seq<Ip>, iface: nat)
    ensures Without(table, added, iface) == table <==> !HadHostRoute(table, added, iface)
  {
    if HadHostRoute(table, added, iface) {
      var r :| r in table && r.prefix == 32 && r.iface == iface && r.dest in added;
      assert r !in Without(table, added, iface);
    }
  }

  /** The same for a set-up followed by a teardown, where also a default route by 198.18.0.1 on the TUN
      interface must not have been there before. */
  lemma SetupTeardownExact(table: set<Route>, l: Lookup, added: seq<Ip>)
    ensures Removed(Installed(table, l, added), l, added) == table
            <==> !HadHostRoute(table, added, l.physicalIndex)
                 && !(exists r :: r in table && IsTunDefault(r) && r.iface == l.tunIndex)
  {
    InstalledThenRemoved(table, l, added);
    RollbackExact(WithoutTunDefault(table, l.tunIndex), added, l.physicalIndex);
    if r :| r in table && IsTunDefault(r) && r.iface == l.tunIndex {
      assert r !in Removed(table, l, added);
    } else {
      assert WithoutTunDefault(table, l.tunIndex) == table;
    }
  }

  /** A concrete table the rollback does not restore: the user's own route to the proxy is lost. */
  lemma RollbackLosesUserRoute()
    ensures var mine := Route(1, 32, 7, 4);
            Without({mine}, [1], 4) != {mine}
  {
    assert Route(1, 32, 7, 4) !in Without({Route(1, 32, 7, 4)}, [1], 4);
  }

  // A set-up under a tunnel that an earlier one left behind.

  /** Some proxy other than the first has no host route. */
  ghost predicate MissingBehind(table: set<Route>, s: Session) {
    exists ip :: ip in NonLoopback(s.proxies) && ip != NonLoopback(s.proxies)[0] && HostRoute(s, ip) !in table
  }

  /** Under a tunnel, what adding the host routes of `hosts`, and failing to add the next or not, does:
      some table on the way is not guarded. */
  ghost predicate LoopsAdding(table: set<Route>, s: Session, hosts: seq<Ip>, failed: bool) {
    if hosts == [] then failed && !Guarded(table, s) else MissingBehind(table, s)
  }

  /** When the first host route is there, only those behind it can be missing. */
  lemma GuardedFirst(table: set<Route>, s: Session, hosts: seq<Ip>)
    requires TunnelUp(table) && hosts != [] && hosts <= NonLoopback(s.proxies)
    ensures !MissingBehind(table, s) ==> Guarded(table + HostRoutes(s, hosts), s)
    ensures MissingBehind(table, s) && |hosts| == 1 ==> !Guarded(table + HostRoutes(s, hosts), s)
    ensures MissingBehind(table, s) ==> !Guarded(table, s)
  {
    var all, now := NonLoopback(s.proxies), table + HostRoutes(s, hosts);
    var d :| d in table && IsTunDefault(d);
    assert d in now;
    assert hosts[0] == all[0] && hosts[0] in hosts;
    if ip :| ip in all && ip != all[0] && HostRoute(s, ip) !in table {
      assert HostRoute(s, ip) in HostRoutes(s, all);
      if |hosts| == 1 {
        assert HostRoute(s, ip) !in now;
      }
    } else {
      assert HostRoute(s, all[0]) in HostRoutes(s, hosts);
    }
  }

  lemma LoopsOneMore(table: set<Route>, s: Session, hosts: seq<Ip>, ip: Ip, ok: bool,
                     history: seq<(set<Route>, Session)>)
    requires TunnelUp(table) && hosts + [ip] <= NonLoopback(s.proxies)
    requires Loops(history) <==> LoopsAdding(table, s, hosts, false)
    ensures var now := if ok then table + HostRoutes(s, hosts + [ip]) else table + HostRoutes(s, hosts);
            Loops(history + [(now, s)]) <==> LoopsAdding(table, s, if ok then hosts + [ip] else hosts, !ok)
  {
    hide Loops, MissingBehind, Guarded, TunnelUp, NonLoopback;
    var now := if ok then table + HostRoutes(s, hosts + [ip]) else table + HostRoutes(s, hosts);
    LoopsSnoc(history, now, s);
    GuardedFirst(table, s, hosts + [ip]);
    if hosts != [] {
      assert hosts <= hosts + [ip];
      GuardedFirst(table, s, hosts);
    } else {
      assert table + HostRoutes(s, []) == table;
    }
  }

  lemma LoopsBehind(table: set<Route>, s: Session, hosts: seq<Ip>, failed: bool)
    requires TunnelUp(table) && hosts <= NonLoopback(s.proxies) && (failed <==> hosts != NonLoopback(s.proxies))
    ensures MissingBehind(table, s) ==> LoopsAdding(table, s, hosts, failed)
    ensures !failed ==> (MissingBehind(table, s) <==> LoopsAdding(table, s, hosts, failed))
  {
    if hosts == [] && failed {
      GuardedFirst(table, s, NonLoopback(s.proxies));
    }
  }

  lemma BothKept(a: Ip, b: Ip)
    requires !IsLoopback(a) && !IsLoopback(b)
    ensures NonLoopback([a, b]) == [a, b]
  {
    assert [a, b][..1] == [a] && [a][..0] == [];
    assert NonLoopback([a]) == [a];
  }

  lemma NothingAdded(table: set<Route>, s: Session, ips: seq<Ip>)
    ensures NonLoopback(ips[..0]) == [] && table + HostRoutes(s, []) == table && !LoopsAdding(table, s, [], false)
  {
  }

  /** Such a table is what a set-up for one proxy leaves when it can neither see its routes nor take any of them
      down; the second of the proxies used next has no host route in it. */
  lemma StrandedTable()
    ensures var table := Installed({}, Lookup(7, 9, [1], 4), [1]);
            TunnelUp(table) && MissingBehind(table, Session(7, 4, [1, 2]))
  {
    hide NonLoopback;
    var s, table := Session(7, 4, [1, 2]), Installed({}, Lookup(7, 9, [1], 4), [1]);
    var default := Route(0, 0, TUN_GATEWAY, 9);
    assert default in table && IsTunDefault(default);
    BothKept(1, 2);
    assert HostRoute(s, 2) !in table;
  }

  // The commands a set-up, a cleanup and a teardown consist of, and the tables they leave.

  function HostAdds(s: Session, ips: seq<Ip>): (plan: seq<Command>)
    ensures |plan| == |ips|
  {
    if ips == [] then []
    else HostAdds(s, ips[..|ips| - 1]) + [AddRoute(HostRoute(s, ips[|ips| - 1]))]
  }

  function AddPlan(l: Lookup): seq<Command> {
    HostAdds(SessionFor(l), NonLoopback(l.proxyIPs)) + [AddRoute(Route(0, 0, TUN_GATEWAY, l.tunIndex))]
  }

  function InstallPlan(l: Lookup): seq<Command> {
    AddPlan(l) + [Query]
  }

  const ADDRESS_PLAN := [ConfigureAddress(Static(TUN_GATEWAY, TUN_PREFIX, None)), ConfigureDns(TUN_DNS)]

  function SetupPlan(l: Lookup): seq<Command> {
    ADDRESS_PLAN + InstallPlan(l)
  }

  lemma {:induction false} HostAddAt(s: Session, ips: seq<Ip>, i: nat)
    requires i < |ips|
    ensures HostAdds(s, ips)[i] == AddRoute(HostRoute(s, ips[i]))
  {
    if i < |ips| - 1 {
      HostAddAt(s, ips[..|ips| - 1], i);
    }
  }

  function Deletions(ips: seq<Ip>, iface: nat): (plan: seq<Command>)
    ensures |plan| == |ips|
  {
    if ips == [] then []
    else Deletions(ips[..|ips| - 1], iface) + [DeleteRoute(ips[|ips| - 1], 32, None, iface)]
  }

  function CleanupPlan(added: seq<Ip>, iface: nat, original: TunConfig): seq<Command> {
    Deletions(added, iface) + [ConfigureAddress(Restored(original))]
  }

  function TeardownPlan(s: RouteState): seq<Command>
    requires s.Active?
  {
    [DeleteRoute(0, 0, Some(TUN_GATEWAY), s.tunIndex)] + CleanupPlan(s.proxyIPs, s.physicalIndex, s.original)
  }

  /** The addresses whose deletions succeeded. */
  function Gone(ips: seq<Ip>, tries: seq<Attempt>): seq<Ip>
    requires |ips| <= |tries|
  {
    if ips == [] then []
    else Gone(ips[..|ips| - 1], tries) + if tries[|ips| - 1].ok then [ips[|ips| - 1]] else []
  }

  lemma {:induction false} GoneLocal(ips: seq<Ip>, tries: seq<Attempt>, more: seq<Attempt>)
    requires |ips| <= |tries|
    ensures Gone(ips, tries + more) == Gone(ips, tries)
  {
    if ips != [] {
      GoneLocal(ips[..|ips| - 1], tries, more);
    }
  }

  lemma GoneOneMore(ips: seq<Ip>, i: nat, iface: nat, tries: seq<Attempt>, a: Attempt)
    requires i < |ips| && |tries| == i
    ensures Gone(ips[..i + 1], tries + [a]) == Gone(ips[..i], tries) + if a.ok then [ips[i]] else []
    ensures Deletions(ips[..i + 1], iface) == Deletions(ips[..i], iface) + [DeleteRoute(ips[i], 32, None, iface)]
    ensures ips[..i + 1] == ips[..i] + [ips[i]]
  {
    assert ips[..i + 1][..i] == ips[..i];
    GoneLocal(ips[..i], tries, [a]);
  }

  /** The first `upto` commands of a plan were tried in order, up to the first that failed. */
  ghost predicate StoppedAtFailure(before: seq<Attempt>, after: seq<Attempt>, plan: seq<Command>, upto: nat, ok: bool) {
    && before <= after && |after| - |before| <= upto <= |plan|
    && (forall i :: |before| <= i < |after| ==> after[i].command == plan[i - |before|])
    && (ok ==> |after| - |before| == upto)
    && (!ok ==> |before| < |after|)
    && (forall i :: |before| <= i < |after| ==> (after[i].ok <==> ok || i < |after| - 1))
  }

  lemma StoppedOneLater(before: seq<Attempt>, between: seq<Attempt>, after: seq<Attempt>, plan: seq<Command>, upto: nat)
    requires StoppedAtFailure(before, between, plan, upto, true) && upto < |plan|
    requires |after| == |between| + 1 && between <= after && after[|between|].command == plan[upto]
    ensures StoppedAtFailure(before, after, plan, upto + 1, after[|between|].ok)
  {
    forall i | |before| <= i < |after|
      ensures i < |between| ==> after[i] == between[i]
    {
    }
  }

  lemma NothingTried(log: seq<Attempt>, plan: seq<Command>)
    ensures StoppedAtFailure(log, log, plan, 0, true)
  {
  }

  lemma StoppedInLonger(before: seq<Attempt>, after: seq<Attempt>, plan: seq<Command>, more: seq<Command>, ok: bool)
    requires StoppedAtFailure(before, after, plan, |plan|, ok)
    ensures StoppedAtFailure(before, after, plan + more, if ok then |plan| else |plan + more|, ok)
  {
  }

  lemma StoppedFurther(before: seq<Attempt>, between: seq<Attempt>, after: seq<Attempt>,
                       plan: seq<Command>, more: seq<Command>, ok: bool)
    requires StoppedAtFailure(before, between, plan, |plan|, true)
    requires StoppedAtFailure(between, after, more, |more|, ok)
    ensures StoppedAtFailure(before, after, plan + more, |plan + more|, ok)
  {
    forall i | |before| <= i < |after|
      ensures i < |between| ==> after[i] == between[i]
      ensures after[i].command == (plan + more)[i - |before|]
    {
    }
  }

  lemma {:induction false} DeletionAt(ips: seq<Ip>, iface: nat, i: nat)
    requires i < |ips|
    ensures Deletions(ips, iface)[i] == DeleteRoute(ips[i], 32, None, iface)
  {
    if i < |ips| - 1 {
      DeletionAt(ips[..|ips| - 1], iface, i);
    }
  }

  lemma WithoutOneMore(table: set<Route>, ips: seq<Ip>, ip: Ip, iface: nat)
    ensures (set r | r in Without(table, ips, iface) && !Deletes(r, ip, 32, None, iface))
            == Without(table, ips + [ip], iface)
  {
  }

  /** The table once the first `done` commands of a teardown have succeeded. */
  function AfterTeardown(table: set<Route>, s: RouteState, done: nat): (left: set<Route>)
    requires s.Active?
    ensures left <= table
    ensures done > |s.proxyIPs| ==> left == Without(WithoutTunDefault(table, s.tunIndex), s.proxyIPs, s.physicalIndex)
  {
    if done == 0 then table
    else if done > |s.proxyIPs| then Without(WithoutTunDefault(table, s.tunIndex), s.proxyIPs, s.physicalIndex)
    else Without(WithoutTunDefault(table, s.tunIndex), s.proxyIPs[..done - 1], s.physicalIndex)
  }

  lemma TeardownStep(table: set<Route>, s: RouteState, i: nat)
    requires s.Active? && i < |s.proxyIPs|
    ensures 1 + i < |TeardownPlan(s)| && TeardownPlan(s)[1 + i] == DeleteRoute(s.proxyIPs[i], 32, None, s.physicalIndex)
    ensures (set r | r in AfterTeardown(table, s, 1 + i) && !Deletes(r, s.proxyIPs[i], 32, None, s.physicalIndex))
            == AfterTeardown(table, s, 2 + i)
  {
    var gone := WithoutTunDefault(table, s.tunIndex);
    DeletionAt(s.proxyIPs, s.physicalIndex, i);
    assert s.proxyIPs[..i] + [s.proxyIPs[i]] == s.proxyIPs[..i + 1];
    assert i + 1 == |s.proxyIPs| ==> s.proxyIPs[..i + 1] == s.proxyIPs;
    WithoutOneMore(gone, s.proxyIPs[..i], s.proxyIPs[i], s.physicalIndex);
  }

  lemma TeardownStarts(table: set<Route>, s: RouteState)
    requires s.Active?
    ensures (set r | r in table && !Deletes(r, 0, 0, Some(TUN_GATEWAY), s.tunIndex)) == AfterTeardown(table, s, 1)
    ensures TeardownPlan(s)[0] == DeleteRoute(0, 0, Some(TUN_GATEWAY), s.tunIndex)
    ensures |TeardownPlan(s)| == 2 + |s.proxyIPs|
    ensures TeardownPlan(s)[1 + |s.proxyIPs|] == ConfigureAddress(Restored(s.original))
  {
    assert s.proxyIPs[..0] == [];
    assert WithoutTunDefault(table, s.tunIndex) == Without(WithoutTunDefault(table, s.tunIndex), [], s.physicalIndex);
  }

  /** How many of these commands succeeded, when they stopped at the first that did not. */
  function Succeeded(tries: seq<Attempt>): nat {
    if tries != [] && !tries[|tries| - 1].ok then |tries| - 1 else |tries|
  }

  function ActiveFor(l: Lookup, added: seq<Ip>, original: TunConfig): RouteState {
    Active(l.tunIndex, l.physicalIndex, l.gateway, added, original)
  }

  /** `up` after a set-up that found it as `before`. */
  function UpAfter(stage: Stage, clean: bool, l: Lookup, added: seq<Ip>, original: TunConfig,
                   before: RouteState): RouteState {
    match stage
    case Done => ActiveFor(l, added, original)
    case NotReady => if clean then Inactive else ActiveFor(l, added, original)
    case _ => before
  }

  /** Active routes as a set-up with this look-up makes them. */
  predicate Belongs(up: RouteState, l: Lookup) {
    up.Active? && up == ActiveFor(l, NonLoopback(l.proxyIPs), up.original)
  }

  /** How many commands a set-up tried before it was done or began to roll back. */
  function Tried(stage: Stage, hosts: nat): nat {
    match stage
    case LookupFailed => 0
    case AddressFailed => 1
    case DnsFailed => 2
    case HostAddFailed | DefaultAddFailed => hosts + 3
    case NotReady | Done => hosts + 4
  }

  /** The rollback from a stage, the log having reached `reached` when it began. */
  ghost predicate RolledBack(reached: seq<Attempt>, log: seq<Attempt>, stage: Stage, clean: bool, l: Lookup,
                             added: seq<Ip>, original: TunConfig) {
    match stage
    case HostAddFailed | DefaultAddFailed => Attempted(reached, log, CleanupPlan(added, l.physicalIndex, original))
    case NotReady => StoppedAtFailure(reached, log, TeardownPlan(ActiveFor(l, added, original)), |added| + 2, clean)
    case _ => log == reached
  }

  /** Which commands there are in the plans. */
  lemma Kinds(l: Lookup, added: seq<Ip>, original: TunConfig)
    ensures forall i :: 0 <= i < |AddPlan(l)| ==> InstallPlan(l)[i].AddRoute?
    ensures InstallPlan(l)[|AddPlan(l)|] == Query
    ensures var plan := CleanupPlan(added, l.physicalIndex, original);
            forall i :: 0 <= i < |plan| ==> if i < |added| then plan[i].DeleteRoute? else plan[i].ConfigureAddress?
    ensures var plan := TeardownPlan(ActiveFor(l, added, original));
            forall i :: 0 <= i < |plan| ==> if i < |added| + 1 then plan[i].DeleteRoute? else plan[i].ConfigureAddress?
  {
    var s, all := SessionFor(l), NonLoopback(l.proxyIPs);
    forall i | 0 <= i < |all|
      ensures HostAdds(s, all)[i].AddRoute?
    {
      HostAddAt(s, all, i);
    }
    forall i | 0 <= i < |added|
      ensures Deletions(added, l.physicalIndex)[i].DeleteRoute?
    {
      DeletionAt(added, l.physicalIndex, i);
    }
  }

  /** A teardown by itself is over when it stops, and strands nothing. */
  lemma TeardownSettles(before: seq<Attempt>, after: seq<Attempt>, s: RouteState, ok: bool)
    requires s.Active? && StoppedAtFailure(before, after, TeardownPlan(s), 2 + |s.proxyIPs|, ok)
    ensures Settled(before, after) && !StrandedIn(before, after)
  {
    hide Deletions, Restored;
    Kinds(Lookup(s.gateway, s.tunIndex, [], s.physicalIndex), s.proxyIPs, s.original);
    forall i | |before| <= i < |after|
      ensures if i - |before| < |s.proxyIPs| + 1 then after[i].command.DeleteRoute?
              else after[i].command.ConfigureAddress?
    {
      assert after[i].command == TeardownPlan(s)[i - |before|];
    }
  }

  /** When the log shows the routes stranded. */
  lemma StrandedExactly(before: seq<Attempt>, reached: seq<Attempt>, log: seq<Attempt>, stage: Stage, clean: bool,
                        l: Lookup, added: seq<Ip>, original: TunConfig)
    requires stage in {HostAddFailed, DefaultAddFailed, NotReady, Done}
    requires StoppedAtFailure(before, reached, InstallPlan(l), |InstallPlan(l)|, stage == Done)
    requires added <= NonLoopback(l.proxyIPs) && |reached| == |before| + Tried(stage, |added|) - 2
    requires stage == HostAddFailed <==> added != NonLoopback(l.proxyIPs)
    requires reached <= log && RolledBack(reached, log, stage, clean, l, added, original)
    ensures Settled(before, log)
    ensures stage == NotReady && !clean <==> StrandedIn(before, log)
  {
    hide NonLoopback, HostAdds, Deletions, Restored;
    Kinds(l, added, original);
    forall i | |before| <= i < |reached|
      ensures log[i] == Attempt(Query, false) <==> stage == NotReady && i == |reached| - 1
    {
      assert log[i] == reached[i];
    }
    forall i | |reached| <= i < |log|
      ensures log[i].command.DeleteRoute? || log[i].command.ConfigureAddress?
      ensures stage == NotReady && i < |log| - 1 ==> log[i].command.DeleteRoute?
      ensures i == |log| - 1 && (stage == NotReady ==> clean) ==> log[i].command.ConfigureAddress?
    {
      if stage == NotReady {
        assert log[i].command == TeardownPlan(ActiveFor(l, added, original))[i - |reached|];
      } else {
        assert log[i].command == CleanupPlan(added, l.physicalIndex, original)[i - |reached|];
      }
    }
    if stage == Done {
      assert log[|log| - 1].command == InstallPlan(l)[|AddPlan(l)|];
    } else if stage == NotReady && !clean {
      assert Strands(log, |reached| - 1, |log| - 1);
    } else {
      assert log[|log| - 1].command.ConfigureAddress?;
    }
  }

  /** The table a set-up leaves; `tries` are the commands of its rollback. */
  function Left(table: set<Route>, l: Lookup, added: seq<Ip>, original: TunConfig, stage: Stage,
                tries: seq<Attempt>): set<Route>
    requires stage == HostAddFailed || stage == DefaultAddFailed ==> |added| <= |tries|
  {
    match stage
    case LookupFailed | AddressFailed | DnsFailed => table
    case HostAddFailed | DefaultAddFailed =>
      Without(table + HostRoutes(SessionFor(l), added), Gone(added, tries), l.physicalIndex)
    case NotReady => AfterTeardown(Installed(table, l, added), ActiveFor(l, added, original), Succeeded(tries))
    case Done => Installed(table, l, added)
  }

  /** The last set-up did not see its routes come up, and the first command of its teardown failed. */
  ghost predicate StrandedAtOnce(before: seq<Attempt>, after: seq<Attempt>) {
    |before| + 2 <= |after| && Strands(after, |after| - 2, |after| - 1)
  }

  /** Then the table is as the set-up made it. */
  lemma NothingTakenDown(before: seq<Attempt>, reached: seq<Attempt>, log: seq<Attempt>, table: set<Route>, l: Lookup,
                         added: seq<Ip>, original: TunConfig)
    requires RolledBack(reached, log, NotReady, false, l, added, original) && reached <= log
    ensures StrandedAtOnce(before, log) ==>
              Left(table, l, added, original, NotReady, log[|reached|..]) == Installed(table, l, added)
  {
    Kinds(l, added, original);
    forall i | |reached| <= i < |log|
      ensures log[i].command != Query
    {
      assert log[i].command == TeardownPlan(ActiveFor(l, added, original))[i - |reached|];
    }
  }

  lemma StrandedAtOnceIsStranded(before: seq<Attempt>, after: seq<Attempt>)
    ensures StrandedAtOnce(before, after) ==> StrandedIn(before, after)
  {
  }

  lemma LeftEarly(table: set<Route>, l: Lookup, added: seq<Ip>, original: TunConfig, tries: seq<Attempt>)
    ensures Left(table, l, added, original, AddressFailed, tries) == table
    ensures Left(table, l, added, original, DnsFailed, tries) == table
  {
  }

  lemma LeftDone(table: set<Route>, l: Lookup, added: seq<Ip>, original: TunConfig)
    ensures Left(table, l, added, original, Done, []) == Installed(table, l, added)
  {
  }

  lemma SetUpTunnel(table: set<Route>, l: Lookup)
    ensures TunnelUp(SetUpFor(table, l))
  {
    assert Route(0, 0, TUN_GATEWAY, l.tunIndex) in SetUpFor(table, l);
  }

  /** Nothing of the user's is taken along by the deletions of a rollback from `stage`. */
  ghost predicate NothingOfTheUsers(table: set<Route>, l: Lookup, added: seq<Ip>, stage: Stage) {
    && !HadHostRoute(table, added, l.physicalIndex)
    && (stage == NotReady ==> !exists r :: r in table && IsTunDefault(r) && r.iface == l.tunIndex)
  }

  lemma NothingOfFewer(table: set<Route>, l: Lookup, added: seq<Ip>, all: seq<Ip>, stage: Stage)
    requires added <= all && NothingOfTheUsers(table, l, all, NotReady)
    ensures NothingOfTheUsers(table, l, added, stage)
  {
  }

  /** A rollback that was clean restores the table exactly then. */
  lemma CleanRestoresExactly(table: set<Route>, reached: seq<Attempt>, log: seq<Attempt>, stage: Stage, l: Lookup,
                             added: seq<Ip>, original: TunConfig)
    requires stage in {HostAddFailed, DefaultAddFailed, NotReady}
    requires reached <= log && RolledBack(reached, log, stage, true, l, added, original)
    requires stage != NotReady ==> |added| <= |log| - |reached| && Gone(added, log[|reached|..]) == added
    ensures Left(table, l, added, original, stage, log[|reached|..]) == table
            <==> NothingOfTheUsers(table, l, added, stage)
  {
    hide Gone, CleanupPlan, TeardownPlan;
    if stage == NotReady {
      SetupTeardownExact(table, l, added);
    } else {
      HostsThenRemoved(table, l, added);
      RollbackExact(table, added, l.physicalIndex);
    }
  }

  class RouteManager {
    const os: System
    var up: RouteState

    /** Nothing of TunFlow is in the table. */
    ghost predicate Idle()
      reads this, os
    {
      up.Inactive? && !TunnelUp(os.routes) && os.AllGuarded()
    }

    /** Kept by every set-up and teardown that starts from it: no table has ever let proxy traffic loop,
        the tunnel's default route is present only while `up` is active, and then on its interface. */
    ghost predicate Valid()
      reads this, os
    {
      && os.AllGuarded()
      && (forall r :: r in os.routes && IsTunDefault(r) ==> up.Active? && r.iface == up.tunIndex)
      && (up.Active? ==> Guarded(os.routes, SessionOf(up)) && NonLoopback(up.proxyIPs) == up.proxyIPs)
    }

    lemma IdleWhenInactive()
      ensures Idle() <==> Valid() && up.Inactive?
    {
    }

    constructor (os: System)
      requires !TunnelUp(os.routes) && os.AllGuarded()
      ensures this.os == os && Idle() && Valid()
    {
      this.os, up := os, Inactive;
    }

    /** The loop of `cleanup`: every route is tried, whatever became of the one before. */
    method RemoveAll(ips: seq<Ip>, iface: nat) returns (clean: bool)
      requires os.Consistent()
      modifies os`routes, os`history, os`failures, os`log
      ensures os.Consistent()
      ensures Attempted(old(os.log), os.log, Deletions(ips, iface))
      ensures os.routes == Without(old(os.routes), Gone(ips, os.log[|old(os.log)|..]), iface)
      ensures clean ==> Gone(ips, os.log[|old(os.log)|..]) == ips
      ensures RecordedFor(old(os.history), os.history, os.session)
      ensures os.failures >= old(os.failures) && (clean <==> os.failures == old(os.failures))
      ensures old(!TunnelUp(os.routes) && os.AllGuarded()) ==> !TunnelUp(os.routes) && os.AllGuarded()
    {
      hide Replayed, Tables, Recorded, TunnelUp, Loops, Guarded, NonLoopback, HostRoutes;
      clean := true;
      ghost var tries := [];
      for i := 0 to |ips|
        invariant os.Consistent()
        invariant |tries| == i && os.log == old(os.log) + tries
        invariant forall j :: 0 <= j < i ==> tries[j].command == Deletions(ips[..i], iface)[j]
        invariant os.routes == Without(old(os.routes), Gone(ips[..i], tries), iface)
        invariant clean ==> Gone(ips[..i], tries) == ips[..i]
        invariant RecordedFor(old(os.history), os.history, os.session)
        invariant os.failures >= old(os.failures) && (clean <==> os.failures == old(os.failures))
        invariant old(!TunnelUp(os.routes) && os.AllGuarded()) ==> !TunnelUp(os.routes) && os.AllGuarded()
      {
        hide Gone, Deletions, Without;
        ghost var table, record := os.routes, os.history;
        var ok := os.RouteDelete(ips[i], 32, None, iface);
        QuietStill(record, table, os.routes, os.session);
        clean := clean && ok;
        ghost var attempt := Attempt(DeleteRoute(ips[i], 32, None, iface), ok);
        GoneOneMore(ips, i, iface, tries, attempt);
        WithoutOneMore(old(os.routes), Gone(ips[..i], tries), ips[i], iface);
        tries := tries + [attempt];
      }
      assert ips[..|ips|] == ips && os.log[|old(os.log)|..] == tries;
    }

    /** The `cleanup` closure: every command is tried, the address included, and what is gone afterwards is what
        each of them removed. */
    method Cleanup(added: seq<Ip>, physicalIndex: nat, original: TunConfig) returns (clean: bool)
      requires os.Consistent()
      modifies os
      ensures os.Consistent()
      ensures Attempted(old(os.log), os.log, CleanupPlan(added, physicalIndex, original))
      ensures old(os.log) <= os.log && |os.log| == |old(os.log)| + |added| + 1
      ensures os.routes == Without(old(os.routes), Gone(added, os.log[|old(os.log)|..]), physicalIndex)
      ensures os.tun == if os.log[|os.log| - 1].ok then Restored(original) else old(os.tun)
      ensures os.session == old(os.session) && os.dns == old(os.dns)
      ensures RecordedFor(old(os.history), os.history, os.session)
      ensures clean ==> os.log[|os.log| - 1].ok && Gone(added, os.log[|old(os.log)|..]) == added
      ensures clean <==> os.failures == old(os.failures)
      ensures os.routes <= old(os.routes) && os.failures >= old(os.failures)
      ensures old(!TunnelUp(os.routes) && os.AllGuarded()) ==> os.AllGuarded()
    {
      hide Replayed, Tables, Recorded, Gone, Deletions;
      clean := RemoveAll(added, physicalIndex);
      ghost var tries := os.log[|old(os.log)|..];
      var ok := os.SetAddress(Restored(original));
      clean := clean && ok;
      ghost var last := Attempt(ConfigureAddress(Restored(original)), ok);
      GoneLocal(added, tries, [last]);
      assert os.log == old(os.log) + (tries + [last]) && os.log[|old(os.log)|..] == tries + [last];
    }

    /** The loop over the proxy addresses: a host route for each, until one cannot be added. */
    method AddHosts(l: Lookup) returns (ok: bool, hosts: seq<Ip>)
      requires os.session == SessionFor(l)
      requires os.Consistent()
      modifies os`routes, os`history, os`failures, os`log
      ensures os.Consistent()
      ensures hosts <= NonLoopback(l.proxyIPs) && (ok <==> hosts == NonLoopback(l.proxyIPs))
      ensures StoppedAtFailure(old(os.log), os.log, HostAdds(os.session, NonLoopback(l.proxyIPs)),
                               |NonLoopback(l.proxyIPs)|, ok)
      ensures |os.log| == |old(os.log)| + |hosts| + if ok then 0 else 1
      ensures os.failures == old(os.failures) + if ok then 0 else 1
      ensures RecordedFor(old(os.history), os.history, os.session)
      ensures os.routes == old(os.routes) + HostRoutes(os.session, hosts)
      ensures old(!TunnelUp(os.routes) && os.AllGuarded()) ==> !TunnelUp(os.routes) && os.AllGuarded()
      ensures old(TunnelUp(os.routes) && os.AllGuarded()) ==>
                (Loops(os.history) <==> LoopsAdding(old(os.routes), os.session, hosts, !ok))
    {
      hide Replayed, Tables, Recorded, LoopsAdding, Loops, Guarded, TunnelUp, HostAdds, HostRoutes, StoppedAtFailure;
      hide NonLoopback, SameTask;
      ok, hosts := true, [];
      NothingAdded(os.routes, os.session, l.proxyIPs);
      NothingTried(os.log, HostAdds(os.session, NonLoopback(l.proxyIPs)));
      for i := 0 to |l.proxyIPs|
        invariant os.Consistent()
        invariant hosts == NonLoopback(l.proxyIPs[..i])
        invariant StoppedAtFailure(old(os.log), os.log, HostAdds(os.session, NonLoopback(l.proxyIPs)), |hosts|, true)
        invariant |os.log| == |old(os.log)| + |hosts|
        invariant os.routes == old(os.routes) + HostRoutes(os.session, hosts)
        invariant ok && os.failures == old(os.failures) && RecordedFor(old(os.history), os.history, os.session)
        invariant old(!TunnelUp(os.routes) && os.AllGuarded()) ==> !TunnelUp(os.routes) && os.AllGuarded()
        invariant old(TunnelUp(os.routes) && os.AllGuarded()) ==>
                    (Loops(os.history) <==> LoopsAdding(old(os.routes), os.session, hosts, false))
      {
        NonLoopbackStep(l.proxyIPs, i);
        if !IsLoopback(l.proxyIPs[i]) {
          ok := AddHost(l, hosts, l.proxyIPs[i], old(os.log), old(os.routes));
          if !ok {
            return;
          }
          hosts := hosts + [l.proxyIPs[i]];
        }
      }
      assert l.proxyIPs[..|l.proxyIPs|] == l.proxyIPs;
    }

    /** One host route more. The ghosts are the log and the table when the loop began. */
    method AddHost(l: Lookup, hosts: seq<Ip>, ip: Ip, ghost log: seq<Attempt>, ghost table: set<Route>)
        returns (ok: bool)
      requires os.session == SessionFor(l) && hosts + [ip] <= NonLoopback(l.proxyIPs)
      requires StoppedAtFailure(log, os.log, HostAdds(os.session, NonLoopback(l.proxyIPs)), |hosts|, true)
      requires os.routes == table + HostRoutes(os.session, hosts) && |os.log| == |log| + |hosts|
      requires os.Consistent()
      modifies os`routes, os`history, os`failures, os`log
      ensures os.Consistent()
      ensures StoppedAtFailure(log, os.log, HostAdds(os.session, NonLoopback(l.proxyIPs)),
                               if ok then |hosts| + 1 else |NonLoopback(l.proxyIPs)|, ok)
      ensures |os.log| == |log| + |hosts| + 1 && old(os.log) <= os.log
      ensures os.failures == old(os.failures) + if ok then 0 else 1
      ensures RecordedFor(old(os.history), os.history, os.session)
      ensures os.routes == table + HostRoutes(os.session, if ok then hosts + [ip] else hosts)
      ensures old(!TunnelUp(os.routes) && os.AllGuarded()) ==> !TunnelUp(os.routes) && os.AllGuarded()
      ensures TunnelUp(table) && old(Loops(os.history) <==> LoopsAdding(table, os.session, hosts, false)) ==>
                (Loops(os.history)
                 <==> LoopsAdding(table, os.session, if ok then hosts + [ip] else hosts, !ok))
    {
      hide Replayed, Tables, Recorded, LoopsAdding, Loops, HostAdds, NonLoopback;
      ghost var all := NonLoopback(l.proxyIPs);
      ok := os.RouteAdd(Route(ip, 32, l.gateway, l.physicalIndex));
      HostAddAt(os.session, all, |hosts|);
      assert all[|hosts|] == (hosts + [ip])[|hosts|];
      StoppedOneLater(log, old(os.log), os.log, HostAdds(os.session, all), |hosts|);
      HostRoutesSnoc(os.session, hosts, ip);
      LoopsSnoc(old(os.history), os.routes, os.session);
      if TunnelUp(table) && old(Loops(os.history) <==> LoopsAdding(table, os.session, hosts, false)) {
        LoopsOneMore(table, os.session, hosts, ip, ok, old(os.history));
      }
    }

    /** The part of `setupRoutesLocked` that touches the route table. `reached` is the log when the set-up was
        done or began to roll back. */
    method InstallRoutes(l: Lookup, original: TunConfig)
        returns (stage: Stage, clean: bool, added: seq<Ip>, ghost reached: seq<Attempt>)
      requires os.Consistent()
      modifies os, this`up
      ensures os.Consistent()
      ensures stage in {HostAddFailed, DefaultAddFailed, NotReady, Done}
      ensures added <= NonLoopback(l.proxyIPs) && (stage == HostAddFailed <==> added != NonLoopback(l.proxyIPs))
      ensures StoppedAtFailure(old(os.log), reached, InstallPlan(l), |InstallPlan(l)|, stage == Done)
      ensures |reached| == |old(os.log)| + Tried(stage, |added|) - 2
      ensures reached <= os.log && RolledBack(reached, os.log, stage, clean, l, added, original)
      ensures stage == Done ==> os.failures == old(os.failures)
      ensures stage != Done ==> os.failures > old(os.failures) && (clean <==> os.failures == old(os.failures) + 1)
      ensures os.routes == Left(old(os.routes), l, added, original, stage, os.log[|reached|..])
      ensures os.tun == if stage != Done && os.log[|os.log| - 1].ok then Restored(original) else old(os.tun)
      ensures up == UpAfter(stage, clean, l, added, original, old(up))
      ensures stage != Done && clean ==> os.tun == Restored(original)
      ensures stage in {HostAddFailed, DefaultAddFailed} && clean ==>
                |added| <= |os.log| - |reached| && Gone(added, os.log[|reached|..]) == added
      ensures os.dns == old(os.dns) && RecordedFor(old(os.history), os.history, SessionFor(l))
      ensures old(TunnelUp(os.routes) && os.AllGuarded()) && MissingBehind(old(os.routes), SessionFor(l)) ==>
                Loops(os.history)
      ensures old(TunnelUp(os.routes) && os.AllGuarded()) && stage == Done ==>
                (Loops(os.history) <==> MissingBehind(old(os.routes), SessionFor(l)))
      ensures old(Idle()) ==> Valid()
    {
      hide Replayed, Tables, Recorded, NonLoopback, HostAdds, Deletions, Gone;
      hide StoppedAtFailure, Attempted, MissingBehind, Loops;
      hide CleanupPlan, TeardownPlan, Installed, LoopsAdding, Without, AfterTeardown;
      hide HostRoutes, Restored, Succeeded;
      var failed;
      failed, added := AddRoutes(l);
      ghost var record := os.history;
      reached, clean := os.log, true;
      StoppedInLonger(old(os.log), os.log, AddPlan(l), [Query], failed.None?);
      if failed.Some? {
        stage := failed.value;
        clean := Cleanup(added, l.physicalIndex, original);
      } else {
        NonLoopbackIdempotent(l.proxyIPs);
        if old(Idle()) {
          InstalledGuarded(old(os.routes), l, added);
        }
        ghost var tried := os.log;
        stage, clean := AwaitRoutes(l, added, original);
        reached := os.log[..|tried| + 1];
        StoppedOneLater(old(os.log), tried, reached, InstallPlan(l), |AddPlan(l)|);
      }
      LoopsStay(record, os.history);
      if old(TunnelUp(os.routes)) {
        LoopsBehind(old(os.routes), SessionFor(l), added, stage == HostAddFailed);
      }
    }

    /** What remains to be seen for `Valid` when `up` becomes active. */
    ghost predicate ValidAs(l: Lookup, added: seq<Ip>)
      reads os
    {
      && os.AllGuarded() && NonLoopback(added) == added
      && (forall r :: r in os.routes && IsTunDefault(r) ==> r.iface == l.tunIndex)
      && Guarded(os.routes, Session(l.gateway, l.physicalIndex, added))
    }

    /** The query whether the routes have come up, and the teardown if they have not. */
    method AwaitRoutes(l: Lookup, added: seq<Ip>, original: TunConfig) returns (stage: Stage, clean: bool)
      requires os.Consistent()
      modifies os, this`up
      ensures os.Consistent()
      ensures stage in {NotReady, Done} && |old(os.log)| < |os.log|
      ensures os.log[..|old(os.log)| + 1] == old(os.log) + [Attempt(Query, stage == Done)]
      ensures stage == Done ==> os.failures == old(os.failures) && os.history == old(os.history)
      ensures stage == NotReady ==> os.failures == old(os.failures) + if clean then 1 else 2
      ensures RolledBack(os.log[..|old(os.log)| + 1], os.log, stage, clean, l, added, original)
      ensures os.routes == if stage == Done then old(os.routes)
                           else AfterTeardown(old(os.routes), ActiveFor(l, added, original),
                                              Succeeded(os.log[|old(os.log)| + 1..]))
      ensures os.tun == if stage == NotReady && os.log[|os.log| - 1].ok then Restored(original) else old(os.tun)
      ensures stage == NotReady ==> (clean <==> os.log[|os.log| - 1].ok)
      ensures up == UpAfter(stage, clean, l, added, original, old(up))
      ensures os.dns == old(os.dns)
      ensures RecordedFor(old(os.history), os.history, Session(l.gateway, l.physicalIndex, added))
      ensures old(ValidAs(l, added)) ==> Valid()
    {
      hide Replayed, Tables, Recorded, NonLoopback, Loops, CleanupPlan, Restored;
      up := Active(l.tunIndex, l.physicalIndex, l.gateway, added, original);
      var ready := os.Try(Query);
      stage, clean := Done, true;
      if !ready {
        clean := TeardownRoutes();
        stage := NotReady;
      }
    }

    /** The routes of a set-up in order, up to the first that cannot be added. */
    method AddRoutes(l: Lookup) returns (failed: Option<Stage>, added: seq<Ip>)
      requires os.Consistent()
      modifies os`session, os`routes, os`history, os`failures, os`log
      ensures os.Consistent()
      ensures os.session == SessionFor(l) && added <= NonLoopback(l.proxyIPs)
      ensures failed in {None, Some(HostAddFailed), Some(DefaultAddFailed)}
      ensures failed == Some(HostAddFailed) <==> added != NonLoopback(l.proxyIPs)
      ensures StoppedAtFailure(old(os.log), os.log, AddPlan(l), |AddPlan(l)|, failed.None?)
      ensures |os.log| == |old(os.log)| + |added| + 1
      ensures os.failures == old(os.failures) + if failed.None? then 0 else 1
      ensures os.routes == if failed.Some? then old(os.routes) + HostRoutes(SessionFor(l), added)
                           else Installed(old(os.routes), l, added)
      ensures RecordedFor(old(os.history), os.history, os.session)
      ensures old(!TunnelUp(os.routes) && os.AllGuarded()) ==>
                os.AllGuarded() && (failed.Some? ==> !TunnelUp(os.routes))
      ensures old(TunnelUp(os.routes) && os.AllGuarded()) ==>
                (Loops(os.history)
                 <==> LoopsAdding(old(os.routes), os.session, added, failed == Some(HostAddFailed)))
    {
      hide Replayed, Tables, Recorded, NonLoopback, HostAdds, StoppedAtFailure, LoopsAdding, Loops;
      os.session := SessionFor(l);
      var ok;
      ok, added := AddHosts(l);
      ghost var adds, default := HostAdds(os.session, NonLoopback(l.proxyIPs)), Route(0, 0, TUN_GATEWAY, l.tunIndex);
      StoppedInLonger(old(os.log), os.log, adds, [AddRoute(default)], ok);
      if !ok {
        return Some(HostAddFailed), added;
      }
      ghost var tried, record := os.log, os.history;
      ok := os.RouteAdd(Route(0, 0, TUN_GATEWAY, l.tunIndex));
      StoppedOneLater(old(os.log), tried, os.log, AddPlan(l), |adds|);
      LoopsSnoc(record, os.routes, os.session);
      failed := if ok then None else Some(DefaultAddFailed);
    }

    /** `setupRoutesLocked`. `lookup` is what the queries before the first command found, if they all
        succeeded; `readOk` says whether the TUN address could be read. */
    method SetupRoutes(lookup: Option<Lookup>)
        returns (stage: Stage, clean: bool, ghost added: seq<Ip>, ghost original: TunConfig, ghost readOk: bool,
                 ghost reached: seq<Attempt>)
      requires os.Consistent()
      modifies os, this`up
      ensures os.Consistent()
      ensures readOk ==> Restored(original) == old(os.tun)
      ensures !readOk ==> original == NO_CONFIG && Restored(original) == Dhcp
      ensures lookup.None? <==> stage == LookupFailed
      ensures lookup.None? ==> os.log == old(os.log) && os.failures == old(os.failures)
      ensures old(os.log) <= os.log
      ensures lookup.None? ==> os.history == old(os.history)
      ensures lookup.Some? ==> RecordedFor(old(os.history), os.history, SessionFor(lookup.value))
      ensures lookup.Some? ==>
                var l := lookup.value;
                && added <= NonLoopback(l.proxyIPs)
                && (stage == HostAddFailed ==> added != NonLoopback(l.proxyIPs))
                && (stage in {DefaultAddFailed, NotReady, Done} ==> added == NonLoopback(l.proxyIPs))
                && StoppedAtFailure(old(os.log), reached, SetupPlan(l), |SetupPlan(l)|, stage == Done)
                && |reached| == |old(os.log)| + Tried(stage, |added|)
                && reached <= os.log && RolledBack(reached, os.log, stage, clean, l, added, original)
                && os.routes == Left(old(os.routes), l, added, original, stage, os.log[|reached|..])
                && up == UpAfter(stage, clean, l, added, original, old(up))
      ensures lookup.None? ==> os.routes == old(os.routes) && up == old(up)
      ensures lookup.Some? ==> (stage == Done <==> os.failures == old(os.failures)) && os.failures >= old(os.failures)
      ensures stage in {HostAddFailed, DefaultAddFailed, NotReady} ==> (clean <==> os.failures == old(os.failures) + 1)
      ensures os.tun == if stage in {LookupFailed, AddressFailed} then old(os.tun)
                        else if stage in {HostAddFailed, DefaultAddFailed, NotReady} && os.log[|os.log| - 1].ok
                        then Restored(original)
                        else Static(TUN_GATEWAY, TUN_PREFIX, None)
      ensures os.dns == if stage in {LookupFailed, AddressFailed, DnsFailed} then old(os.dns) else Some(TUN_DNS)
      ensures stage in {HostAddFailed, DefaultAddFailed, NotReady} && clean ==>
                && os.tun == Restored(original)
                && (os.routes == old(os.routes)
                    <==> NothingOfTheUsers(old(os.routes), lookup.value, added, stage))
      ensures Settled(old(os.log), os.log)
      ensures stage == NotReady && !clean <==> StrandedIn(old(os.log), os.log)
      ensures old(TunnelUp(os.routes) && os.AllGuarded()) && lookup.Some?
              && MissingBehind(old(os.routes), SessionFor(lookup.value)) ==>
                stage in {AddressFailed, DnsFailed} || Loops(os.history)
      ensures old(TunnelUp(os.routes) && os.AllGuarded()) && stage == Done ==>
                (Loops(os.history) <==> MissingBehind(old(os.routes), SessionFor(lookup.value)))
      ensures old(Idle()) ==> Valid()
    {
      hide Replayed, Tables, Recorded, NonLoopback, HostAdds, Deletions, Gone;
      hide StoppedAtFailure, Attempted, MissingBehind, Loops, NothingOfTheUsers, Restored, AfterTeardown;
      hide Without, Installed, TeardownPlan, CleanupPlan;
      added, clean, reached := [], true, os.log;
      var readable, config := os.ReadTunConfig();
      if !readable {
        config := NO_CONFIG;
      }
      NothingToRestore();
      readOk, original := readable, config;
      if lookup.None? {
        stage := LookupFailed;
        return;
      }
      var failed := ConfigureTun();
      reached := os.log;
      StoppedInLonger(old(os.log), os.log, ADDRESS_PLAN, InstallPlan(lookup.value), failed.None?);
      if failed.Some? {
        return failed.value, clean, added, original, readOk, reached;
      }
      ghost var configured := os.log;
      stage, clean, added, reached := InstallRoutes(lookup.value, config);
      StoppedFurther(old(os.log), configured, reached, ADDRESS_PLAN, InstallPlan(lookup.value), stage == Done);
      StrandedExactly(configured, reached, os.log, stage, clean, lookup.value, added, original);
      if stage != Done && clean {
        CleanRestoresExactly(old(os.routes), reached, os.log, stage, lookup.value, added, original);
      }
      StrandedTogether(old(os.log), configured, os.log);
    }

    /** Address and DNS server of the TUN interface. */
    method ConfigureTun() returns (failed: Option<Stage>)
      requires os.Consistent()
      modifies os`tun, os`dns, os`failures, os`log
      ensures os.Consistent()
      ensures failed in {None, Some(AddressFailed), Some(DnsFailed)}
      ensures StoppedAtFailure(old(os.log), os.log, ADDRESS_PLAN, 2, failed.None?)
      ensures |os.log| == |old(os.log)| + if failed == Some(AddressFailed) then 1 else 2
      ensures os.tun == if failed == Some(AddressFailed) then old(os.tun) else Static(TUN_GATEWAY, TUN_PREFIX, None)
      ensures os.dns == if failed.None? then Some(TUN_DNS) else old(os.dns)
      ensures os.failures == old(os.failures) + if failed.None? then 0 else 1
      ensures Settled(old(os.log), os.log) && !StrandedIn(old(os.log), os.log)
    {
      hide Replayed, Tables, Recorded;
      var ok := os.SetAddress(Static(TUN_GATEWAY, TUN_PREFIX, None));
      if !ok {
        return Some(AddressFailed);
      }
      ok := os.SetDns(TUN_DNS);
      failed := if ok then None else Some(DnsFailed);
    }

    /** `teardownRoutesLocked`: the default route goes first; the first failure stops everything and
        leaves `up` as it is. */
    method TeardownRoutes() returns (ok: bool)
      requires os.Consistent()
      modifies os, this`up
      ensures os.Consistent()
      ensures old(up.Inactive?) ==> ok && os.routes == old(os.routes) && os.tun == old(os.tun)
      ensures old(up.Inactive?) ==> os.log == old(os.log)
      ensures old(up.Active?) ==>
                && StoppedAtFailure(old(os.log), os.log, TeardownPlan(old(up)), 2 + |old(up.proxyIPs)|, ok)
                && os.routes == AfterTeardown(old(os.routes), old(up), Succeeded(os.log[|old(os.log)|..]))
                && os.tun == if ok then Restored(old(up.original)) else old(os.tun)
      ensures up == if ok then Inactive else old(up)
      ensures ok <==> up.Inactive?
      ensures os.failures == old(os.failures) + if ok then 0 else 1
      ensures os.routes <= old(os.routes) && os.dns == old(os.dns)
      ensures old(up.Inactive?) ==> os.history == old(os.history)
      ensures old(up.Active?) ==> RecordedFor(old(os.history), os.history, SessionOf(old(up)))
      ensures Settled(old(os.log), os.log) && !StrandedIn(old(os.log), os.log)
      ensures old(Valid()) ==> Valid()
    {
      hide Replayed, Tables, Recorded;
      if up.Inactive? {
        return true;
      }
      hide StoppedAtFailure, TeardownPlan, StrandedIn, Settled, Loops, NonLoopback;
      TeardownStarts(os.routes, up);
      os.session := SessionOf(up);
      ok := RemoveRoutes();
      ghost var tried := os.log;
      if ok {
        ok := os.SetAddress(Restored(up.original));
        StoppedOneLater(old(os.log), tried, os.log, TeardownPlan(up), 1 + |up.proxyIPs|);
      }
      TeardownSettles(old(os.log), os.log, up, ok);
      if ok {
        up := Inactive;
      }
    }

    /** The deletions of a teardown, up to the first that fails. */
    method RemoveRoutes() returns (ok: bool)
      requires up.Active? && os.session == SessionOf(up)
      requires os.Consistent()
      modifies os`routes, os`history, os`failures, os`log
      ensures os.Consistent()
      ensures StoppedAtFailure(old(os.log), os.log, TeardownPlan(up), |up.proxyIPs| + if ok then 1 else 2, ok)
      ensures RecordedFor(old(os.history), os.history, os.session)
      ensures os.failures == old(os.failures) + if ok then 0 else 1
      ensures os.routes == AfterTeardown(old(os.routes), up, Succeeded(os.log[|old(os.log)|..]))
      ensures old(Valid()) ==> Valid() && (ok ==> !TunnelUp(os.routes))
    {
      hide Replayed, Tables, Recorded, TeardownPlan, HostRoutes, NonLoopback;
      ghost var plan := TeardownPlan(up);
      TeardownStarts(os.routes, up);
      NothingTried(os.log, plan);
      ok := os.RouteDelete(0, 0, Some(TUN_GATEWAY), up.tunIndex);
      StoppedOneLater(old(os.log), old(os.log), os.log, plan, 0);
      var i := 0;
      while ok && i < |up.proxyIPs|
        invariant os.Consistent()
        invariant i <= |up.proxyIPs| && |os.log| == |old(os.log)| + 1 + i
        invariant StoppedAtFailure(old(os.log), os.log, plan, 1 + i, ok)
        invariant os.routes == AfterTeardown(old(os.routes), up, if ok then 1 + i else i)
        invariant os.routes <= old(os.routes)
        invariant old(Valid()) ==> os.AllGuarded() && (ok || i > 0 ==> !TunnelUp(os.routes))
        invariant RecordedFor(old(os.history), os.history, os.session)
        invariant os.failures == old(os.failures) + if ok then 0 else 1
        decreases |up.proxyIPs| - i
      {
        hide AfterTeardown, StoppedAtFailure, Guarded, Loops;
        ok := RemoveHost(i, old(os.log), old(os.routes));
        i := i + 1;
      }
    }

    /** One host route less. The ghosts are the log and the table when the teardown began. */
    method RemoveHost(i: nat, ghost log: seq<Attempt>, ghost table: set<Route>) returns (ok: bool)
      requires up.Active? && i < |up.proxyIPs| && os.Consistent()
      requires StoppedAtFailure(log, os.log, TeardownPlan(up), 1 + i, true) && |os.log| == |log| + 1 + i
      requires os.routes == AfterTeardown(table, up, 1 + i)
      modifies os`routes, os`history, os`failures, os`log
      ensures os.Consistent()
      ensures StoppedAtFailure(log, os.log, TeardownPlan(up), 2 + i, ok) && |os.log| == |log| + 2 + i
      ensures os.routes == AfterTeardown(table, up, if ok then 2 + i else 1 + i) && os.routes <= old(os.routes)
      ensures os.history == old(os.history) + [(os.routes, os.session)]
      ensures os.failures == old(os.failures) + if ok then 0 else 1
      ensures old(!TunnelUp(os.routes) && os.AllGuarded()) ==> !TunnelUp(os.routes) && os.AllGuarded()
    {
      hide Replayed, Tables, Recorded, TeardownPlan, AfterTeardown, StoppedAtFailure, HostRoutes, NonLoopback;
      TeardownStep(table, up, i);
      ok := os.RouteDelete(up.proxyIPs[i], 32, None, up.physicalIndex);
      StoppedOneLater(log, old(os.log), os.log, TeardownPlan(up), 1 + i);
    }

    /** A successful set-up followed by a successful teardown leaves the table and the TUN address as they
        were, unless the user had routes the teardown takes for its own. The DNS server is left behind: it is
        what it was only if it was that one already. */
    method UpAndDown(l: Lookup) returns (ok: bool, ghost readOk: bool)
      requires Idle() && !HadHostRoute(os.routes, l.proxyIPs, l.physicalIndex)
      requires os.Consistent()
      modifies os, this`up
      ensures os.Consistent()
      ensures Valid()
      ensures ok <==> os.failures == old(os.failures)
      ensures ok ==> Idle() && os.routes == old(os.routes)
      ensures ok ==> os.dns == Some(TUN_DNS)
      ensures ok && readOk ==> os.tun == old(os.tun)
    {
      hide Replayed, Tables, Recorded;
      var stage, clean;
      ghost var added, original, reached;
      stage, clean, added, original, readOk, reached := SetupRoutes(Some(l));
      if stage != Done {
        return false, readOk;
      }
      NonLoopbackMembers(l.proxyIPs);
      SetupTeardownExact(old(os.routes), l, added);
      ok := TeardownRoutes();
    }
  }
}
