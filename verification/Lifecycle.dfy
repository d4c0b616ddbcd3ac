/** The engine's globals: device, stack, proxies and dialer options, driven by start, stop and reload. */
module Lifecycle {
  import opened Bytes
  import Netip
  import GeoIp
  import Routing

  /** The part of the configuration that start and reload read. */
  datatype Key = Key(
    proxy: string, device: string, iface: string, mark: nat, udpTimeoutMillis: int, restAPI: string,
    mode: string, directRules: seq<string>, directCIDRs: seq<string>, proxyRules: seq<string>,
    defaultRoute: string, geoIPFile: string)

  datatype SockOpt = BindToInterface(iface: string) | RoutingMark(mark: nat)

  /** A routing proxy, by everything it is built from. */
  datatype RoutingProxy = RoutingProxy(
    upstream: string, mode: string, directRules: seq<string>, proxyRules: seq<string>,
    defaultRoute: string, geoIPFile: string)

  /** The policy both `netstack` and `Reload` derive from a key. */
  function Policy(k: Key): RoutingProxy {
    var mode := if k.mode == "" then "global" else k.mode;
    var given := if k.directRules == [] then k.directCIDRs else k.directRules;
    var direct := if mode == "rules" && given == [] && k.proxyRules == [] then ["private", "geoip:cn"] else given;
    RoutingProxy(k.proxy, mode, direct, k.proxyRules, k.defaultRoute, k.geoIPFile)
  }

  /** The policy a key asks for, in the key's own terms. */
  ghost predicate AsAsked(k: Key, p: RoutingProxy) {
    && p.upstream == k.proxy && p.proxyRules == k.proxyRules && p.defaultRoute == k.defaultRoute
    && p.geoIPFile == k.geoIPFile
    && (k.mode == "" ==> p.mode == "global") && (k.mode != "" ==> p.mode == k.mode)
    && (k.directRules != [] ==> p.directRules == k.directRules)
    && (k.directRules == [] && k.directCIDRs != [] ==> p.directRules == k.directCIDRs)
    && (k.directRules == [] && k.directCIDRs == [] ==>
          p.directRules == if k.mode == "rules" && k.proxyRules == [] then ["private", "geoip:cn"] else [])
  }

  lemma PolicyAsAsked(k: Key, p: RoutingProxy)
    ensures AsAsked(k, p) <==> p == Policy(k)
  {
  }

  /** A key without a mode sends every connection through the proxy, whatever its rules and wherever it goes; one in
      mode "direct" none. */
  lemma ModeDecides(k: Key, text: GeoIp.Text, defaultDirect: bool, direct: seq<Routing.Rule>,
                    proxied: seq<Routing.Rule>, geoip: Option<GeoIp.Countries>, dst: Option<Netip.Addr>)
    ensures k.mode == "" || k.mode == "global" ==>
              !Routing.GoesDirect(text, Policy(k).mode, defaultDirect, direct, proxied, geoip, dst)
    ensures k.mode == "direct" ==>
              Routing.GoesDirect(text, Policy(k).mode, defaultDirect, direct, proxied, geoip, dst)
  {
  }

  /** The routing configuration made of a policy; the text of its rules is `encode`d. */
  function ConfigOf(p: RoutingProxy, encode: string -> seq<byte>): Routing.Config {
    var direct := seq(|p.directRules|, i requires 0 <= i < |p.directRules| => encode(p.directRules[i]));
    var proxied := seq(|p.proxyRules|, i requires 0 <= i < |p.proxyRules| => encode(p.proxyRules[i]));
    Routing.Config(p.mode, direct, proxied, p.defaultRoute, p.geoIPFile)
  }

  /** `Acceptable` is what `NewWithConfig` demands of the mode and the default, in the key's terms too. */
  lemma AcceptableExactly(k: Key, lib: Routing.Library, encode: string -> seq<byte>, file: Option<seq<byte>>)
    ensures var checks := Routing.Checks(lib, true, true, ConfigOf(Policy(k), encode), file);
            Acceptable(Policy(k)) <==> checks[1].1 && checks[2].1
    ensures Acceptable(Policy(k)) <==>
              k.mode in {"", "global", "direct", "rules"} && k.defaultRoute in {"", "proxy", "direct"}
  {
  }

  /** What `NewWithConfig` accepts, rule syntax and files aside. */
  predicate Acceptable(p: RoutingProxy) {
    p.mode in {"global", "direct", "rules"} && p.defaultRoute in {"", "proxy", "direct"}
  }

  /** What a start demands of a key. */
  predicate Sound(k: Key) {
    k.proxy != "" && k.device != "" && Acceptable(Policy(k)) && !(0 < k.udpTimeoutMillis < 1000)
  }

  /** The dialer options `general` registers. */
  function StartOptions(k: Key): seq<SockOpt> {
    (if k.iface == "" then [] else [BindToInterface(k.iface)])
    + (if k.mark == 0 then [] else [RoutingMark(k.mark)])
  }

  /** They are the interface, if there is one, and the mark, if there is one. */
  lemma StartOptionsExactly(k: Key)
    ensures forall o :: o in StartOptions(k) <==>
                          (k.iface != "" && o == BindToInterface(k.iface)) || (k.mark != 0 && o == RoutingMark(k.mark))
    ensures forall o :: o in ReloadOptions(k) <==> k.iface != "" && o == BindToInterface(k.iface)
  {
  }

  /** The dialer options `Reload` registers: the mark is not among them. */
  function ReloadOptions(k: Key): seq<SockOpt> {
    if k.iface == "" then [] else [BindToInterface(k.iface)]
  }

  /** Reloading a key leaves the dialer as a start with that key would, exactly when the key sets no mark. */
  lemma ReloadOptionsExact(k: Key)
    ensures ReloadOptions(k) == StartOptions(k) <==> k.mark == 0
  {
    assert |StartOptions(k)| == |ReloadOptions(k)| + if k.mark == 0 then 0 else 1;
  }

  /** With no mark configured nothing tells a reload from a restart; with one, dialed sockets lose it. */
  lemma ReloadForgetsMark()
    ensures var k := Key("p", "tun", "eth0", 1, 0, "", "", [], [], [], "", "");
            StartOptions(k) == [BindToInterface("eth0"), RoutingMark(1)] && RoutingMark(1) !in ReloadOptions(k)
  {
  }

  class Engine {
    var key: Option<Key>
    var proxy: Option<string>
    var routing: Option<RoutingProxy>
    var device: Option<string>
    var stack: Option<string>          // named by the device it is linked to
    var tunnelProxy: Option<RoutingProxy>
    var dialer: seq<SockOpt>
    ghost var devicesOpened: nat
    ghost var devicesClosed: nat
    ghost var failures: nat            // of everything below this model: look-ups, parsing, devices, stacks

    /** A step outside this model, which may fail. */
    method Try() returns (ok: bool)
      modifies this`failures
      ensures failures == old(failures) + if ok then 0 else 1
    {
      ok := *;
      failures := failures + if ok then 0 else 1;
    }

    predicate Running()
      reads this
    {
      device.Some? && stack.Some?
    }

    /** Kept over every run: the engine has both device and stack or neither, exactly one device is open
        while it runs, and connections go out through the current routing proxy. */
    ghost predicate Valid()
      reads this
    {
      && (device.Some? <==> stack.Some?)
      && devicesOpened == devicesClosed + (if Running() then 1 else 0)
      && (Running() ==> stack == device && routing.Some? && Acceptable(routing.value))
      && (Running() ==> tunnelProxy == routing && proxy == Some(routing.value.upstream))
    }

    constructor ()
      ensures Valid() && !Running()
    {
      key, proxy, routing, device, stack, tunnelProxy, dialer := None, None, None, None, None, None, [];
      devicesOpened, devicesClosed, failures := 0, 0, 0;
    }

    method Insert(k: Key)
      requires Valid()
      modifies this`key
      ensures Valid() && key == Some(k)
    {
      key := Some(k);
    }

    method CloseDevice()
      requires device.Some?
      modifies this`device, this`devicesClosed
      ensures device.None? && devicesClosed == old(devicesClosed) + 1
    {
      device, devicesClosed := None, devicesClosed + 1;
    }

    /** What `netstack` and `Reload` have in common: the configuration of the routing proxy. */
    method BuildPolicy(k: Key) returns (p: RoutingProxy)
      ensures p == Policy(k) && AsAsked(k, p)
    {
      var mode := k.mode;
      if mode == "" {
        mode := "global";
      }
      var direct := k.directRules;
      if |direct| == 0 {
        direct := direct + k.directCIDRs;
      }
      if mode == "rules" && |direct| == 0 && |k.proxyRules| == 0 {
        direct := ["private", "geoip:cn"];
      }
      p := RoutingProxy(k.proxy, mode, direct, k.proxyRules, k.defaultRoute, k.geoIPFile);
      PolicyAsAsked(k, p);
    }

    /** `general`: the dialer is reset before anything can fail. */
    method General(k: Key) returns (ok: bool)
      modifies this`dialer, this`failures
      ensures ok ==> dialer == StartOptions(k)
      ensures failures >= old(failures)
      ensures ok <==> failures == old(failures) && !(0 < k.udpTimeoutMillis < 1000)
    {
      ok := Try(); // log level
      if !ok {
        return;
      }
      dialer := [];
      if k.iface != "" {
        ok := Try(); // interface lookup
        if !ok {
          return;
        }
        dialer := dialer + [BindToInterface(k.iface)];
      }
      if k.mark != 0 {
        dialer := dialer + [RoutingMark(k.mark)];
      }
      if 0 < k.udpTimeoutMillis < 1000 {
        ok := false;
      }
    }

    /** `netstack`: whatever fails after the device was opened closes it again. */
    method Netstack(k: Key) returns (ok: bool)
      requires Valid() && !Running()
      modifies this`proxy, this`routing, this`device, this`stack, this`tunnelProxy
      modifies this`devicesOpened, this`devicesClosed, this`failures
      ensures Valid()
      ensures failures >= old(failures)
      ensures ok <==> failures == old(failures) && k.proxy != "" && k.device != "" && Acceptable(Policy(k))
      ensures ok <==> Running()
      ensures ok ==> routing == Some(Policy(k)) && AsAsked(k, routing.value)
      ensures ok ==> device == Some(k.device) && k.proxy != "" && k.device != ""
      ensures old(devicesOpened) <= devicesOpened <= old(devicesOpened) + 1 && devicesClosed >= old(devicesClosed)
    {
      if k.proxy == "" || k.device == "" {
        return false;
      }
      ok := Try(); // multicast groups
      if !ok {
        return;
      }
      ok := Try(); // parse proxy
      if !ok {
        proxy := None;
        return;
      }
      proxy := Some(k.proxy);
      var policy := BuildPolicy(k);
      ok := Try(); // rule syntax, GeoIP file
      ok := ok && Acceptable(policy);
      if !ok {
        return;
      }
      routing := Some(policy);
      tunnelProxy := routing;
      ok := Try(); // open the device
      if !ok {
        return;
      }
      device, devicesOpened := Some(k.device), devicesOpened + 1;
      ok := Try(); // parse buffer sizes, create the stack
      if !ok {
        CloseDevice();
        return;
      }
      stack := device;
    }

    /** `start`, called when stopped: it ends fully running or with neither device nor stack. */
    method Start() returns (ok: bool)
      requires Valid() && !Running()
      modifies this
      ensures Valid() && key == old(key) && failures >= old(failures)
      ensures ok <==> failures == old(failures) && key.Some? && Sound(key.value)
      ensures ok <==> Running()
      ensures ok ==> key.Some? && routing == Some(Policy(key.value)) && dialer == StartOptions(key.value)
      ensures ok ==> AsAsked(key.value, routing.value) && device == Some(key.value.device)
      ensures old(devicesOpened) <= devicesOpened <= old(devicesOpened) + 1 && devicesClosed >= old(devicesClosed)
    {
      if key.None? {
        return false;
      }
      ok := General(key.value);
      if ok && key.value.restAPI != "" {
        ok := Try(); // parse the REST address
      }
      if ok {
        ok := Netstack(key.value);
      }
    }

    /** `stop`: nothing happens when the REST server cannot be stopped. */
    method Stop() returns (ok: bool)
      requires Valid()
      modifies this
      ensures Valid() && key == old(key)
      ensures ok ==> !Running() && device.None? && stack.None? && routing.None?
      ensures !ok ==> unchanged(this`device) && unchanged(this`stack) && unchanged(this`routing)
      ensures proxy == old(proxy) && tunnelProxy == old(tunnelProxy) && dialer == old(dialer)
      ensures failures == old(failures) + if ok then 0 else 1
      ensures devicesOpened == old(devicesOpened)
      ensures devicesClosed == old(devicesClosed) + if ok && old(device.Some?) then 1 else 0
    {
      ok := Try(); // stop the REST server
      if !ok {
        return;
      }
      if device.Some? {
        CloseDevice();
      }
      stack := None;
      routing := None;
    }

    /** `Reload`: an error changes nothing at all; success is what a restart with `k` would have set up,
        except for the dialer, on the device and stack there already are. */
    method Reload(k: Key) returns (ok: bool)
      requires Valid()
      modifies this
      ensures Valid() && failures >= old(failures)
      ensures ok <==> failures == old(failures) && old(Running()) && k.proxy != "" && Acceptable(Policy(k))
      ensures !ok ==>
                && proxy == old(proxy) && routing == old(routing) && tunnelProxy == old(tunnelProxy)
                && key == old(key) && dialer == old(dialer) && device == old(device) && stack == old(stack)
      ensures ok ==>
                && Running() && device == old(device) && stack == old(stack)
                && devicesOpened == old(devicesOpened) && devicesClosed == old(devicesClosed)
                && key == Some(k) && k.proxy != ""
                && routing == Some(Policy(k)) && AsAsked(k, routing.value)
                && tunnelProxy == routing && proxy == Some(k.proxy)
                && dialer == ReloadOptions(k)
    {
      if device.None? || stack.None? || k.proxy == "" {
        return false;
      }
      var policy := BuildPolicy(k);
      ok := Try(); // parse proxy, rule syntax, GeoIP file
      ok := ok && Acceptable(policy);
      if !ok {
        return;
      }
      if k.iface != "" {
        ok := Try(); // interface lookup
        if !ok {
          return;
        }
      }
      dialer := [];
      if k.iface != "" {
        dialer := dialer + [BindToInterface(k.iface)];
      }
      proxy := Some(k.proxy);
      routing := Some(policy);
      key := Some(k);
      tunnelProxy := routing;
    }
  }
}
