/** The operating system's IPv4 route table and the commands TunFlow runs against it. */
module RouteTable {
  import opened Bytes

  type Ip = x: int | 0 <= x < 0x1_0000_0000

  const TUN_GATEWAY: Ip := 198 * 0x100_0000 + 18 * 0x1_0000 + 1
  const TUN_PREFIX := 15

  datatype Route = Route(dest: Ip, prefix: nat, gateway: Ip, iface: nat)

  function BlockSize(prefix: nat): (n: nat)
    requires prefix <= 32
    ensures 0 < n
    decreases 32 - prefix
  {
    if prefix == 32 then 1 else 2 * BlockSize(prefix + 1)
  }

  predicate IsLoopback(ip: Ip) {
    ip / 0x100_0000 == 127
  }

  predicate Covers(r: Route, ip: Ip) {
    r.prefix <= 32 && ip / BlockSize(r.prefix) == r.dest / BlockSize(r.prefix)
  }

  lemma BlockSizes()
    ensures BlockSize(32) == 1 && BlockSize(24) == 0x100 && BlockSize(16) == 0x1_0000 && BlockSize(8) == 0x100_0000
    ensures BlockSize(0) == 0x1_0000_0000
  {
    assert BlockSize(28) == 16 && BlockSize(24) == 0x100;
    assert BlockSize(20) == 0x1000 && BlockSize(16) == 0x1_0000;
    assert BlockSize(12) == 0x10_0000 && BlockSize(8) == 0x100_0000;
    assert BlockSize(4) == 0x1000_0000;
  }

  /** A default route covers every address, a host route its own alone, and a block of 2^8, 2^16 or 2^24 addresses is
      what begins with the same bytes; loopback is the block of 127.0.0.0. */
  lemma CoversExactly(r: Route, ip: Ip)
    ensures r.prefix == 0 ==> Covers(r, ip)
    ensures r.prefix == 32 ==> (Covers(r, ip) <==> ip == r.dest)
    ensures r.prefix == 24 ==> (Covers(r, ip) <==> ip / 0x100 == r.dest / 0x100)
    ensures r.prefix == 16 ==> (Covers(r, ip) <==> ip / 0x1_0000 == r.dest / 0x1_0000)
    ensures r.prefix == 8 ==> (Covers(r, ip) <==> ip / 0x100_0000 == r.dest / 0x100_0000)
    ensures r.prefix > 32 ==> !Covers(r, ip)
    ensures IsLoopback(ip) <==> 0x7F00_0000 <= ip <= 0x7FFF_FFFF
  {
    BlockSizes();
    hide BlockSize;
  }

  /** 198.18.0.1, whose mask 255.254.0.0 has fifteen bits, and 8.8.8.8. */
  lemma Addresses()
    ensures TUN_GATEWAY == 0xC612_0001 && TUN_DNS == 0x0808_0808 && TUN_PREFIX == 15
  {
  }

  /** The routes longest-prefix match may pick for `ip`. */
  ghost predicate Selected(table: set<Route>, ip: Ip, r: Route) {
    && r in table && Covers(r, ip)
    && (forall s :: s in table && Covers(s, ip) ==> s.prefix <= r.prefix)
  }

  predicate IsTunDefault(r: Route) {
    r.dest == 0 && r.prefix == 0 && r.gateway == TUN_GATEWAY
  }

  ghost predicate TunnelUp(table: set<Route>) {
    exists r :: r in table && IsTunDefault(r)
  }

  /** What a session must protect: the proxy addresses, reached by `gateway` on interface `physical`. */
  datatype Session = Session(gateway: Ip, physical: nat, proxies: seq<Ip>)

  function HostRoute(s: Session, ip: Ip): Route {
    Route(ip, 32, s.gateway, s.physical)
  }

  function HostRoutes(s: Session, ips: seq<Ip>): set<Route> {
    set ip | ip in ips :: HostRoute(s, ip)
  }

  function NonLoopback(ips: seq<Ip>): seq<Ip> {
    if ips == [] then []
    else NonLoopback(ips[..|ips| - 1]) + if IsLoopback(ips[|ips| - 1]) then [] else [ips[|ips| - 1]]
  }

  /** While the tunnel takes the default route, every proxy has its own host route. */
  ghost predicate Guarded(table: set<Route>, s: Session) {
    TunnelUp(table) ==> HostRoutes(s, NonLoopback(s.proxies)) <= table
  }

  /** No other route of the table claims a proxy address for itself alone. */
  ghost predicate NoRival(table: set<Route>, s: Session) {
    forall r :: r in table && r.prefix == 32 && r.dest in s.proxies ==> r.iface == s.physical
  }

  lemma {:induction false} NonLoopbackMembers(ips: seq<Ip>)
    ensures forall ip :: ip in NonLoopback(ips) <==> ip in ips && !IsLoopback(ip)
  {
    if ips != [] {
      NonLoopbackMembers(ips[..|ips| - 1]);
      assert ips == ips[..|ips| - 1] + [ips[|ips| - 1]];
    }
  }

  lemma {:induction false} NonLoopbackPrefix(ips: seq<Ip>, i: nat)
    requires i <= |ips|
    ensures NonLoopback(ips[..i]) <= NonLoopback(ips)
  {
    if i < |ips| {
      assert ips[..|ips| - 1][..i] == ips[..i];
      NonLoopbackPrefix(ips[..|ips| - 1], i);
    } else {
      assert ips[..i] == ips;
    }
  }

  lemma NonLoopbackStep(ips: seq<Ip>, i: nat)
    requires i < |ips|
    ensures NonLoopback(ips[..i + 1]) == NonLoopback(ips[..i]) + if IsLoopback(ips[i]) then [] else [ips[i]]
    ensures NonLoopback(ips[..i + 1]) <= NonLoopback(ips)
  {
    assert ips[..i + 1][..i] == ips[..i];
    NonLoopbackPrefix(ips, i + 1);
  }

  lemma {:induction false} NonLoopbackIdempotent(ips: seq<Ip>)
    ensures NonLoopback(NonLoopback(ips)) == NonLoopback(ips)
  {
    if ips != [] {
      var kept, last := NonLoopback(ips[..|ips| - 1]), ips[|ips| - 1];
      NonLoopbackIdempotent(ips[..|ips| - 1]);
      assert (kept + [last])[..|kept|] == kept && kept + [] == kept;
    }
  }

  lemma HostRoutesSnoc(s: Session, ips: seq<Ip>, ip: Ip)
    ensures HostRoutes(s, ips + [ip]) == HostRoutes(s, ips) + {HostRoute(s, ip)}
  {
  }

  /** Why `Guarded` means no loop: traffic to a proxy never goes back into the tunnel. */
  lemma GuardedHasNoLoop(table: set<Route>, s: Session, ip: Ip, r: Route)
    requires Guarded(table, s) && TunnelUp(table) && NoRival(table, s)
    requires ip in s.proxies && !IsLoopback(ip)
    requires Selected(table, ip, r)
    ensures r.iface == s.physical && r.prefix == 32 && r.dest == ip
  {
    NonLoopbackMembers(s.proxies);
    var host := HostRoute(s, ip);
    assert host in HostRoutes(s, NonLoopback(s.proxies));
    assert BlockSize(32) == 1;
    assert Covers(host, ip);
  }

  datatype TunAddress = Dhcp | Static(address: Ip, prefixLength: nat, gateway: Option<Ip>)

  datatype TunConfig = TunConfig(dhcp: bool, address: Option<Ip>, prefixLength: nat, gateway: Option<Ip>)

  /** The address `restoreTunConfig` configures. */
  function Restored(c: TunConfig): TunAddress {
    if c.dhcp || c.address.None? then Dhcp else Static(c.address.value, c.prefixLength, c.gateway)
  }

  const TUN_DNS: Ip := 8 * 0x100_0000 + 8 * 0x1_0000 + 8 * 0x100 + 8

  const NO_CONFIG := TunConfig(false, None, 0, None)

  /** `route DELETE dest MASK prefix [gateway] IF iface` */
  predicate Deletes(r: Route, dest: Ip, prefix: nat, gateway: Option<Ip>, iface: nat) {
    && r.dest == dest && r.prefix == prefix && r.iface == iface
    && (gateway.Some? ==> r.gateway == gateway.value)
  }

  /** A table without the host routes a session's deletions remove. */
  function Without(table: set<Route>, ips: seq<Ip>, iface: nat): set<Route> {
    set r | r in table && !(r.prefix == 32 && r.iface == iface && r.dest in ips)
  }

  function WithoutTunDefault(table: set<Route>, iface: nat): set<Route> {
    set r | r in table && !(IsTunDefault(r) && r.iface == iface)
  }

  datatype Command =
    | AddRoute(route: Route)
    | DeleteRoute(dest: Ip, prefix: nat, gateway: Option<Ip>, iface: nat)
    | ConfigureAddress(address: TunAddress)
    | ConfigureDns(server: Ip)
    | Query

  datatype Attempt = Attempt(command: Command, ok: bool)

  /** What a command does to the table: one that failed, nothing. */
  function Applied(table: set<Route>, a: Attempt): set<Route> {
    if !a.ok then table
    else
      match a.command
      case AddRoute(r) => table + {r}
      case DeleteRoute(dest, prefix, gateway, iface) => set r | r in table && !Deletes(r, dest, prefix, gateway, iface)
      case _ => table
  }

  /** The table after all commands of a log. */
  function Replayed(table: set<Route>, log: seq<Attempt>): set<Route> {
    if log == [] then table else Applied(Replayed(table, log[..|log| - 1]), log[|log| - 1])
  }

  /** The tables after each command of a log that is about routes. */
  function Tables(table: set<Route>, log: seq<Attempt>): seq<set<Route>> {
    if log == [] then []
    else
      Tables(table, log[..|log| - 1])
      + if log[|log| - 1].command.AddRoute? || log[|log| - 1].command.DeleteRoute? then [Replayed(table, log)] else []
  }

  lemma ReplayedSnoc(table: set<Route>, log: seq<Attempt>, a: Attempt)
    ensures Replayed(table, log + [a]) == Applied(Replayed(table, log), a)
    ensures Tables(table, log + [a])
            == Tables(table, log)
               + if a.command.AddRoute? || a.command.DeleteRoute? then [Applied(Replayed(table, log), a)] else []
  {
    assert (log + [a])[..|log|] == log;
  }

  /** Between two states of the log exactly these commands were tried, in this order. */
  ghost predicate Attempted(before: seq<Attempt>, after: seq<Attempt>, plan: seq<Command>) {
    && before <= after && |after| == |before| + |plan|
    && forall i :: 0 <= i < |plan| ==> after[|before| + i].command == plan[i]
  }

  /** Some table on record would have sent proxy traffic into the tunnel. */
  ghost predicate Loops(history: seq<(set<Route>, Session)>) {
    exists i :: 0 <= i < |history| && !Guarded(history[i].0, history[i].1)
  }

  lemma LoopsStay(before: seq<(set<Route>, Session)>, after: seq<(set<Route>, Session)>)
    requires before <= after
    ensures Loops(before) ==> Loops(after)
  {
    if i :| 0 <= i < |before| && !Guarded(before[i].0, before[i].1) {
      assert after[i] == before[i];
    }
  }

  lemma LoopsSnoc(before: seq<(set<Route>, Session)>, table: set<Route>, s: Session)
    ensures Loops(before + [(table, s)]) <==> Loops(before) || !Guarded(table, s)
  {
    LoopsStay(before, before + [(table, s)]);
    assert (before + [(table, s)])[|before|] == (table, s);
  }

  /** The same proxies are to be reached by the same way. */
  predicate SameTask(s: Session, t: Session) {
    s.gateway == t.gateway && s.physical == t.physical && NonLoopback(s.proxies) == NonLoopback(t.proxies)
  }

  /** The record has grown, if at all, by tables in which the proxies of `s` had to be protected. */
  ghost predicate RecordedFor(before: seq<(set<Route>, Session)>, after: seq<(set<Route>, Session)>, s: Session) {
    before <= after && forall i :: |before| <= i < |after| ==> SameTask(after[i].1, s)
  }

  /** Without a tunnel nothing loops, and deleting routes brings none up. */
  lemma QuietStill(history: seq<(set<Route>, Session)>, before: set<Route>, after: set<Route>, s: Session)
    requires after <= before
    ensures !TunnelUp(before) && !Loops(history) ==> !TunnelUp(after) && !Loops(history + [(after, s)])
  {
    LoopsSnoc(history, after, s);
  }

  /** Entry `i` is a query that found the routes not ready, and of the teardown it set off entry `j` is the first
      command that failed. */
  predicate Strands(log: seq<Attempt>, i: nat, j: nat)
    requires i < j < |log|
  {
    && log[i] == Attempt(Query, false) && !log[j].ok
    && (forall k :: i < k < j ==> log[k].ok && log[k].command.DeleteRoute?)
  }

  /** Between two states of the log, a set-up found its routes not ready and could not take them down. */
  ghost predicate StrandedIn(before: seq<Attempt>, after: seq<Attempt>) {
    exists i, j :: |before| <= i < j < |after| && Strands(after, i, j)
  }

  /** The log has grown, if at all, to a point where no such teardown is under way. */
  ghost predicate Settled(before: seq<Attempt>, after: seq<Attempt>) {
    && before <= after
    && (|before| < |after| ==>
          var last := after[|after| - 1];
          last != Attempt(Query, false) && !(last.ok && last.command.DeleteRoute?))
  }

  lemma LastOfPrefix(b: seq<Attempt>, c: seq<Attempt>)
    requires b <= c
    ensures b != [] ==> c[|b| - 1] == b[|b| - 1]
  {
  }

  lemma StrandedTogether(a: seq<Attempt>, b: seq<Attempt>, c: seq<Attempt>)
    requires Settled(a, b) && Settled(b, c)
    ensures Settled(a, c)
    ensures StrandedIn(a, c) <==> StrandedIn(a, b) || StrandedIn(b, c)
  {
    if i, j :| |a| <= i < j < |b| && Strands(b, i, j) {
      assert Strands(c, i, j);
    }
    if i, j :| |a| <= i < j < |c| && Strands(c, i, j) {
      if j < |b| {
        assert Strands(b, i, j);
      } else {
        LastOfPrefix(b, c);
      }
    }
  }

  lemma NothingYet(log: seq<Attempt>)
    ensures Settled(log, log) && !StrandedIn(log, log)
  {
  }

  /** The tables of a record. */
  function Recorded(history: seq<(set<Route>, Session)>): seq<set<Route>> {
    seq(|history|, i requires 0 <= i < |history| => history[i].0)
  }

  lemma RecordedSnoc(history: seq<(set<Route>, Session)>, table: set<Route>, s: Session)
    ensures Recorded(history + [(table, s)]) == Recorded(history) + [table]
  {
  }

  /** The system: any command may fail, and then has no effect. Failures are counted and every command is
      logged; every table the system has been in since it was created is on record, with the session that had
      to be protected then. */
  class System {
    ghost const initial: set<Route>
    var routes: set<Route>
    var tun: TunAddress
    ghost var session: Session
    ghost var history: seq<(set<Route>, Session)>
    ghost var failures: nat
    ghost var log: seq<Attempt>
    var dns: Option<Ip>                // of the TUN interface

    ghost predicate AllGuarded()
      reads this
    {
      !Loops(history)
    }

    /** The table is what the commands in the log have made of the first one, and the record shows all there have
        been. */
    ghost predicate Consistent()
      reads this
    {
      routes == Replayed(initial, log) && Recorded(history) == Tables(initial, log)
    }

    constructor (routes: set<Route>, tun: TunAddress, dns: Option<Ip>)
      ensures Consistent() && AllGuarded() && this.routes == routes && this.tun == tun && this.dns == dns
      ensures log == [] && failures == 0
    {
      this.routes, this.tun, this.dns, initial := routes, tun, dns, routes;
      log, history, failures, session := [], [], 0, Session(0, 0, []);
    }

    /** Whether a command succeeds; its effect is the caller's. */
    method Try(command: Command) returns (ok: bool)
      requires Consistent()
      modifies this`failures, this`log
      ensures Consistent() || command.AddRoute? || command.DeleteRoute?
      ensures failures == old(failures) + if ok then 0 else 1
      ensures log == old(log) + [Attempt(command, ok)]
    {
      ok := *;
      failures := failures + if ok then 0 else 1;
      ReplayedSnoc(initial, log, Attempt(command, ok));
      log := log + [Attempt(command, ok)];
    }

    method SetDns(server: Ip) returns (ok: bool)
      requires Consistent()
      modifies this`dns, this`failures, this`log
      ensures Consistent()
      ensures dns == if ok then Some(server) else old(dns)
      ensures failures == old(failures) + if ok then 0 else 1
      ensures log == old(log) + [Attempt(ConfigureDns(server), ok)]
    {
      ok := Try(ConfigureDns(server));
      if ok {
        dns := Some(server);
      }
    }

    method RouteAdd(r: Route) returns (ok: bool)
      requires Consistent()
      modifies this`routes, this`history, this`failures, this`log
      ensures Consistent()
      ensures routes == if ok then old(routes) + {r} else old(routes)
      ensures history == old(history) + [(routes, session)]
      ensures failures == old(failures) + if ok then 0 else 1
      ensures log == old(log) + [Attempt(AddRoute(r), ok)]
    {
      ReplayedSnoc(initial, log, Attempt(AddRoute(r), true));
      ReplayedSnoc(initial, log, Attempt(AddRoute(r), false));
      ok := Try(AddRoute(r));
      if ok {
        routes := routes + {r};
      }
      RecordedSnoc(history, routes, session);
      history := history + [(routes, session)];
    }

    method RouteDelete(dest: Ip, prefix: nat, gateway: Option<Ip>, iface: nat) returns (ok: bool)
      requires Consistent()
      modifies this`routes, this`history, this`failures, this`log
      ensures Consistent()
      ensures routes == if ok then set r | r in old(routes) && !Deletes(r, dest, prefix, gateway, iface)
                        else old(routes)
      ensures history == old(history) + [(routes, session)]
      ensures failures == old(failures) + if ok then 0 else 1
      ensures log == old(log) + [Attempt(DeleteRoute(dest, prefix, gateway, iface), ok)]
    {
      ReplayedSnoc(initial, log, Attempt(DeleteRoute(dest, prefix, gateway, iface), true));
      ReplayedSnoc(initial, log, Attempt(DeleteRoute(dest, prefix, gateway, iface), false));
      ok := Try(DeleteRoute(dest, prefix, gateway, iface));
      if ok {
        routes := set r | r in routes && !Deletes(r, dest, prefix, gateway, iface);
      }
      RecordedSnoc(history, routes, session);
      history := history + [(routes, session)];
    }

    method SetAddress(a: TunAddress) returns (ok: bool)
      requires Consistent()
      modifies this`tun, this`failures, this`log
      ensures Consistent()
      ensures tun == if ok then a else old(tun)
      ensures failures == old(failures) + if ok then 0 else 1
      ensures log == old(log) + [Attempt(ConfigureAddress(a), ok)]
    {
      ok := Try(ConfigureAddress(a));
      if ok {
        tun := a;
      }
    }

    /** `readTunConfig`: a successful read describes the current address. */
    method ReadTunConfig() returns (ok: bool, c: TunConfig)
      ensures ok ==> Restored(c) == tun
    {
      ok := *;
      c := match tun
        case Dhcp => TunConfig(true, None, 0, None)
        case Static(a, p, g) => TunConfig(false, Some(a), p, g);
    }
  }
}
