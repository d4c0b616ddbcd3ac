/** The routing policy: which destinations go direct and which through the upstream proxy. */
module Routing {
  import opened Bytes
  import opened Netip
  import opened Numbers
  import opened GeoIp

  datatype Rule = Within(prefix: Prefix) | Private | Geo(country: seq<byte>)

  // The `private` rule.

  /** The private, loopback, link-local and shared ranges, tested byte by byte as the library and the code do;
      the address is unmapped. */
  predicate IsPrivate(ip: Addr) {
    match ip
    case Zero => false
    case V4(v) =>
      var b0, b1, b2 := v / 0x100_0000, v / 0x1_0000 % 256, v / 0x100 % 256;
      || b0 == 10 || (b0 == 172 && b1 / 16 == 1) || (b0 == 192 && b1 == 168)
      || b0 == 127
      || (b0 == 169 && b1 == 254)
      || (b0 == 224 && b1 == 0 && b2 == 0)
      || (b0 == 100 && 64 <= b1 <= 127)
    case V6(v, _) =>
      var top := v / Pow2(112);
      top / 0x200 == 0x7E || v == 1 || top / 0x40 == 0x3FA || (top / 0x100 == 0xFF && top % 0x10 == 2)
  }

  /** 10/8, 172.16/12, 192.168/16, 127/8, 169.254/16, 224.0.0.0/24 and 100.64/10. */
  const SEVEN: seq<Rule> := [
    Within(Prefix(V4(0x0A00_0000), 8)),
    Within(Prefix(V4(0xAC10_0000), 12)),
    Within(Prefix(V4(0xC0A8_0000), 16)),
    Within(Prefix(V4(0x7F00_0000), 8)),
    Within(Prefix(V4(0xA9FE_0000), 16)),
    Within(Prefix(V4(0xE000_0000), 24)),
    Within(Prefix(V4(0x6440_0000), 10))]

  lemma Powers()
    ensures Pow2(0) == 1 && Pow2(6) == 0x40 && Pow2(9) == 0x200
    ensures Pow2(8) == 0x100 && Pow2(16) == 0x1_0000 && Pow2(20) == 0x10_0000
    ensures Pow2(22) == 0x40_0000 && Pow2(24) == 0x100_0000 && Pow2(32) == 0x1_0000_0000
  {
    assert Pow2(4) == 16;
    assert Pow2(12) == 0x1000;
    assert Pow2(20) == 0x10_0000;
    assert Pow2(28) == 0x1000_0000;
  }

  const HEXTET := Pow2(112)

  /** The private IPv6 prefixes: fc00::/7, ::1/128, fe80::/10, and the link-local groups ff02::/16 to fff2::/16. */
  const PRIVATE_V6: seq<Prefix> :=
    [Prefix(V6(0xFC00 * HEXTET, false), 7), Prefix(V6(1, false), 128), Prefix(V6(0xFE80 * HEXTET, false), 10)]
    + seq(16, i requires 0 <= i < 16 => Prefix(V6((0xFF02 + 0x10 * i) * HEXTET, false), 16))

  lemma HextetPrefix(top: nat, bits: nat, size: nat, v: nat)
    requires 1 <= bits <= 16 && size == Pow2(16 - bits)
    ensures Prefix(V6(top * HEXTET, false), bits).Contains(V6(v, false)) <==> v / HEXTET / size == top / size
  {
    hide Pow2;
    DivideInTwo(v, 112, 16 - bits);
    DivideInTwo(top * HEXTET, 112, 16 - bits);
    Quotient(top * HEXTET, HEXTET, top, 0);
    assert 128 - bits == 112 + (16 - bits);
  }

  /** The tests on an IPv6 address are membership in those prefixes. */
  lemma PrivateV6Exactly(v: nat, zoned: bool)
    ensures IsPrivate(V6(v, zoned)) <==> exists i :: 0 <= i < 19 && PRIVATE_V6[i].Contains(V6(v, false))
  {
    hide Prefix.Contains, Pow2;
    var top := v / HEXTET;
    SingleV6(v);
    GroupsV6(v);
    PrivateByTop(v, zoned);
    assert forall i :: 3 <= i < 19 ==> PRIVATE_V6[i] == PRIVATE_V6[3 + (i - 3)];
    if top / 0x100 == 0xFF && top % 0x10 == 2 {
      GroupOf(top);
    }
  }

  lemma PrivateByTop(v: nat, zoned: bool)
    ensures var top := v / HEXTET;
            IsPrivate(V6(v, zoned)) <==>
              top / 0x200 == 0x7E || v == 1 || top / 0x40 == 0x3FA || (top / 0x100 == 0xFF && top % 0x10 == 2)
  {
    hide Pow2;
  }

  lemma GroupOf(top: nat)
    ensures (exists i :: 0 <= i < 16 && top == 0xFF02 + 0x10 * i) <==> top / 0x100 == 0xFF && top % 0x10 == 2
  {
    if top / 0x100 == 0xFF && top % 0x10 == 2 {
      assert top == 0xFF02 + 0x10 * (top % 0x100 / 0x10);
    }
  }

  lemma SingleV6(v: nat)
    ensures var top := v / HEXTET;
            && (PRIVATE_V6[0].Contains(V6(v, false)) <==> top / 0x200 == 0x7E)
            && (PRIVATE_V6[1].Contains(V6(v, false)) <==> v == 1)
            && (PRIVATE_V6[2].Contains(V6(v, false)) <==> top / 0x40 == 0x3FA)
  {
    Powers();
    HextetPrefix(0xFC00, 7, 0x200, v);
    LoopbackPrefix(v);
    HextetPrefix(0xFE80, 10, 0x40, v);
    hide Prefix.Contains, Pow2;
  }

  lemma GroupsV6(v: nat)
    ensures forall i :: 0 <= i < 16 ==>
                          (PRIVATE_V6[3 + i].Contains(V6(v, false)) <==> v / HEXTET == 0xFF02 + 0x10 * i)
  {
    Powers();
    forall i | 0 <= i < 16
      ensures PRIVATE_V6[3 + i].Contains(V6(v, false)) <==> v / HEXTET == 0xFF02 + 0x10 * i
    {
      HextetPrefix(0xFF02 + 0x10 * i, 16, 1, v);
      hide Prefix.Contains, Pow2;
    }
  }

  lemma LoopbackPrefix(v: nat)
    ensures Prefix(V6(1, false), 128).Contains(V6(v, false)) <==> v == 1
  {
  }

  predicate InSeven(v: nat) {
    || v / 0x100_0000 == 10 || v / 0x10_0000 == 0xAC1 || v / 0x1_0000 == 0xC0A8 || v / 0x100_0000 == 127
    || v / 0x1_0000 == 0xA9FE || v / 0x100 == 0xE0_0000 || v / 0x40_0000 == 0x191
  }

  lemma InSevenIsPrivate(v: nat)
    ensures InSeven(v) <==> IsPrivate(V4(v))
  {
  }

  // Matching.

  /** `matchIP`, as a function of the rule, the GeoIP data and the unmapped address. */
  predicate Matches(text: Text, geoip: Option<Countries>, rule: Rule, ip: Addr) {
    match rule
    case Within(prefix) => prefix.Contains(ip)
    case Private => IsPrivate(ip)
    case Geo(country) => geoip.Some? && Covered(text, geoip.value, ip, country)
  }

  predicate SomeMatch(text: Text, geoip: Option<Countries>, rules: seq<Rule>, ip: Addr) {
    exists rule :: rule in rules && Matches(text, geoip, rule, ip)
  }

  const MODE_GLOBAL := "global"
  const MODE_DIRECT := "direct"
  const MODE_RULES := "rules"
  const DEFAULT_PROXY := "proxy"
  const DEFAULT_DIRECT := "direct"

  /** What a policy says of a destination, without loops: `None` is a connection without metadata. */
  ghost predicate GoesDirect(text: Text, mode: string, defaultDirect: bool, direct: seq<Rule>, proxied: seq<Rule>,
                             geoip: Option<Countries>, dst: Option<Addr>) {
    if mode == MODE_DIRECT then true
    else if mode == MODE_GLOBAL then false
    else if dst.None? || dst.value.Zero? then defaultDirect
    else
      var ip := dst.value.Unmap();
      || SomeMatch(text, geoip, direct, ip)
      || (!SomeMatch(text, geoip, proxied, ip) && defaultDirect)
  }

  datatype ConfigError = NoUpstream | InvalidDefault | UnsupportedMode | NoDirect | InvalidRule | NoGeoIpFile

  /** What reading a rule takes from the standard library: trimming and lower-casing, and the parsers of a prefix and
      of an address. */
  datatype Library = Library(text: Text, prefixOf: seq<byte> -> Option<Prefix>, addrOf: seq<byte> -> Option<Addr>)

  datatype Parsed = Blank | Accepted(rule: Rule) | Rejected

  function Ascii(s: string): seq<byte> {
    seq(|s|, i requires 0 <= i < |s| => s[i] as int % 256)
  }

  /** The rule that an address stands for: itself alone, without its zone. */
  function HostRule(addr: Addr): Rule {
    match addr
    case V4(_) => Within(Prefix(addr, 32))
    case V6(v, _) => Within(Prefix(V6(v, false), 128))
    case Zero => Within(Prefix(addr, -1))
  }

  /** `parseRule`, step by step. */
  method ParseRuleText(lib: Library, text: seq<byte>) returns (p: Parsed)
    ensures p == ParseRule(lib, text)
  {
    var raw := lib.text.trim(text);
    if |raw| == 0 {
      return Blank;
    }
    var lower := lib.text.lower(raw);
    if lower == Ascii("private") || lower == Ascii("geoip:private") {
      return Accepted(Private);
    }
    if HasPrefix(lower, Ascii("geoip:")) {
      return Accepted(Geo(lib.text.lower(lib.text.trim(raw[Min(|"geoip:"|, |raw|)..]))));
    }
    if HasPrefix(lower, Ascii("geosite:")) || HasPrefix(lower, Ascii("domain:")) {
      return Rejected;
    }
    if 47 in raw {
      var prefix := lib.prefixOf(raw);
      if prefix.None? {
        return Rejected;
      }
      return Accepted(Within(prefix.value));
    }
    var addr := lib.addrOf(raw);
    if addr.None? {
      return Rejected;
    }
    return Accepted(HostRule(addr.value));
  }

  predicate HasPrefix(s: seq<byte>, prefix: seq<byte>) {
    |prefix| <= |s| && s[..|prefix|] == prefix
  }

  /** `parseRule`. */
  function ParseRule(lib: Library, text: seq<byte>): Parsed {
    var raw := lib.text.trim(text);
    if raw == [] then Blank
    else
      var lower, geoip := lib.text.lower(raw), Ascii("geoip:");
      if lower == Ascii("private") || lower == Ascii("geoip:private") then Accepted(Private)
      else if geoip <= lower then Accepted(Geo(lib.text.lower(lib.text.trim(raw[Min(|geoip|, |raw|)..]))))
      else if Ascii("geosite:") <= lower || Ascii("domain:") <= lower then Rejected
      else if '/' as int in raw then
        match lib.prefixOf(raw)
        case None => Rejected
        case Some(prefix) => Accepted(Within(prefix))
      else
        match lib.addrOf(raw)
        case None => Rejected
        case Some(addr) => Accepted(HostRule(addr))
  }

  /** Which texts become which rules: names in any case, a country behind "geoip:" trimmed and in lower case, a prefix
      where there is a slash, and else an address. */
  lemma ParsedAs(lib: Library, text: seq<byte>)
    ensures var raw, lower, p := lib.text.trim(text), lib.text.lower(lib.text.trim(text)), ParseRule(lib, text);
            var named := lower == Ascii("private") || lower == Ascii("geoip:private");
            var country := Ascii("geoip:") <= lower && !named;
            var refused := Ascii("geosite:") <= lower || Ascii("domain:") <= lower;
            var other := raw != [] && !named && !country && !refused;
            && (p == Blank <==> raw == [])
            && (p == Accepted(Private) <==> raw != [] && named)
            && (raw != [] && country ==> p == Accepted(Geo(lib.text.lower(lib.text.trim(raw[Min(6, |raw|)..])))))
            && (p.Accepted? && p.rule.Geo? ==> country)
            && (raw != [] && refused && !named && !country ==> p == Rejected)
            && (other && 0x2F in raw ==>
                  p == if lib.prefixOf(raw).None? then Rejected else Accepted(Within(lib.prefixOf(raw).value)))
            && (other && 0x2F !in raw ==>
                  p == if lib.addrOf(raw).None? then Rejected else Accepted(HostRule(lib.addrOf(raw).value)))
  {
  }

  /** The rule for an address matches that address exactly unless it is IPv4-mapped or has a zone: destinations are
      unmapped before they are matched, and a prefix has no zone. */
  lemma HostRuleExactly(text: Text, geoip: Option<Countries>, addr: Addr)
    requires !addr.Zero?
    ensures Matches(text, geoip, HostRule(addr), addr.Unmap()) <==> !addr.Is4In6() && !(addr.V6? && addr.zoned)
  {
  }

  /** So a rule with an IPv4-mapped prefix, a natural one, matches nothing at all. */
  lemma MappedRuleMatchesNothing(text: Text, geoip: Option<Countries>, prefix: Prefix, dst: Addr)
    requires prefix.addr.Is4In6() && prefix.bits >= 96
    ensures !Matches(text, geoip, Within(prefix), dst.Unmap())
  {
    var ip := dst.Unmap();
    if prefix.Contains(ip) {
      var j := 128 - prefix.bits;
      assert ip.v / Pow2(j) == prefix.addr.v / Pow2(j);
      DivideTwice(ip.v, prefix.addr.v, j, 32 - j);
      Powers();
      hide Pow2;
    }
  }

  datatype Config = Config(mode: string, directRules: seq<seq<byte>>, proxyRules: seq<seq<byte>>, default: string,
                           geoIPFile: string)

  /** The rules of a list, in order: blank ones are dropped, and one bad rule spoils the list. */
  function RulesOf(lib: Library, raws: seq<seq<byte>>): Option<seq<Rule>> {
    if raws == [] then Some([])
    else
      match RulesOf(lib, raws[..|raws| - 1])
      case None => None
      case Some(rules) =>
        match ParseRule(lib, raws[|raws| - 1])
        case Blank => Some(rules)
        case Accepted(rule) => Some(rules + [rule])
        case Rejected => None
  }

  lemma {:induction false} RulesOfMeans(lib: Library, raws: seq<seq<byte>>)
    ensures RulesOf(lib, raws).None? <==> exists raw :: raw in raws && ParseRule(lib, raw).Rejected?
    ensures RulesOf(lib, raws).Some? ==>
              forall rule :: rule in RulesOf(lib, raws).value
                             <==> exists raw :: raw in raws && ParseRule(lib, raw) == Accepted(rule)
  {
    if raws != [] {
      var last := raws[|raws| - 1];
      assert raws == raws[..|raws| - 1] + [last];
      RulesOfMeans(lib, raws[..|raws| - 1]);
    }
  }

  lemma {:induction false} RulesOfPrefix(lib: Library, raws: seq<seq<byte>>, i: nat)
    requires i <= |raws| && RulesOf(lib, raws[..i]).None?
    ensures RulesOf(lib, raws).None?
    decreases |raws| - i
  {
    if i == |raws| {
      assert raws[..i] == raws;
    } else {
      assert raws[..i + 1][..i] == raws[..i];
      RulesOfPrefix(lib, raws, i + 1);
    }
  }

  method ParseRules(lib: Library, raws: seq<seq<byte>>) returns (rules: Option<seq<Rule>>)
    ensures rules == RulesOf(lib, raws)
  {
    var got: seq<Rule> := [];
    for i := 0 to |raws|
      invariant RulesOf(lib, raws[..i]) == Some(got)
    {
      assert raws[..i + 1][..i] == raws[..i];
      var parsed := ParseRuleText(lib, raws[i]);
      match parsed
      case Blank =>
      case Accepted(rule) =>
        got := got + [rule];
      case Rejected =>
        RulesOfPrefix(lib, raws, i + 1);
        return None;
    }
    assert raws[..|raws|] == raws;
    return Some(got);
  }

  method HasGeoIPRule(rules: seq<Rule>) returns (has: bool)
    ensures has <==> exists rule :: rule in rules && rule.Geo?
  {
    for i := 0 to |rules|
      invariant forall j :: 0 <= j < i ==> !rules[j].Geo?
    {
      if rules[i].Geo? {
        return true;
      }
    }
    return false;
  }

  class Proxy {
    const text: Text
    const mode: string
    const defaultDirect: bool
    const directRules: seq<Rule>
    const proxyRules: seq<Rule>
    const geoip: Option<Countries>

    constructor (text: Text, mode: string, defaultDirect: bool, directRules: seq<Rule>, proxyRules: seq<Rule>,
                 geoip: Option<Countries>)
      ensures this.text == text && this.mode == mode && this.defaultDirect == defaultDirect
      ensures this.directRules == directRules && this.proxyRules == proxyRules && this.geoip == geoip
    {
      this.text, this.mode, this.defaultDirect := text, mode, defaultDirect;
      this.directRules, this.proxyRules, this.geoip := directRules, proxyRules, geoip;
    }

    method MatchIP(rule: Rule, ip: Addr) returns (matched: bool)
      ensures matched <==> Matches(text, geoip, rule, ip)
    {
      match rule
      case Within(prefix) => matched := prefix.Contains(ip);
      case Private => matched := IsPrivate(ip);
      case Geo(country) =>
        matched := false;
        if geoip.Some? {
          matched := ContainsCountry(text, geoip.value, ip, country);
        }
    }

    /** `routeIP`: direct rules first, then proxy rules, then the default. */
    method RouteIP(dst: Addr) returns (direct: bool)
      ensures direct <==>
                || SomeMatch(text, geoip, directRules, dst.Unmap())
                || (!SomeMatch(text, geoip, proxyRules, dst.Unmap()) && defaultDirect)
    {
      var ip := dst.Unmap();
      for i := 0 to |directRules|
        invariant forall j :: 0 <= j < i ==> !Matches(text, geoip, directRules[j], ip)
      {
        var matched := MatchIP(directRules[i], ip);
        if matched {
          return true;
        }
      }
      for i := 0 to |proxyRules|
        invariant forall j :: 0 <= j < i ==> !Matches(text, geoip, proxyRules[j], ip)
      {
        var matched := MatchIP(proxyRules[i], ip);
        if matched {
          return false;
        }
      }
      return defaultDirect;
    }

    /** `useDirect`: the loops decide what the policy says. */
    method UseDirect(dst: Option<Addr>) returns (direct: bool)
      ensures direct <==> GoesDirect(text, mode, defaultDirect, directRules, proxyRules, geoip, dst)
    {
      if mode == MODE_DIRECT {
        return true;
      }
      if mode == MODE_GLOBAL {
        return false;
      }
      if dst.None? || dst.value.Zero? {
        return defaultDirect;
      }
      direct := RouteIP(dst.value);
    }
  }

  /** What `NewWithConfig` checks, in this order, and what it says where a check fails. */
  ghost function Checks(lib: Library, hasUpstream: bool, hasDirect: bool, cfg: Config,
                        file: Option<seq<byte>>): seq<(ConfigError, bool)> {
    var direct, proxied := RulesOf(lib, cfg.directRules), RulesOf(lib, cfg.proxyRules);
    [(NoUpstream, hasUpstream),
     (InvalidDefault, cfg.default in {"", DEFAULT_PROXY, DEFAULT_DIRECT}),
     (UnsupportedMode, cfg.mode in {"", MODE_GLOBAL, MODE_DIRECT, MODE_RULES}),
     (NoDirect, hasDirect),
     (InvalidRule, direct.Some? && proxied.Some?),
     (NoGeoIpFile, direct.Some? && proxied.Some? && cfg.geoIPFile != "" && file.None? ==>
       forall rule :: rule in direct.value + proxied.value ==> !rule.Geo?)]
  }

  /** `NewWithConfig`: what a proxy is made of, and exactly when and why there is none. `file` is what reading
      the GeoIP file gives; it is read only when a rule asks for it. */
  method NewWithConfig(lib: Library, hasUpstream: bool, hasDirect: bool, cfg: Config,
                       file: Option<seq<byte>>) returns (p: Proxy?, err: Option<ConfigError>)
    ensures p == null <==> err.Some?
    ensures var direct, proxied := RulesOf(lib, cfg.directRules), RulesOf(lib, cfg.proxyRules);
            p != null ==>
              && fresh(p) && p.text == lib.text && p.mode == (if cfg.mode == "" then MODE_GLOBAL else cfg.mode)
              && p.defaultDirect == (cfg.default == DEFAULT_DIRECT)
              && Some(p.directRules) == direct && Some(p.proxyRules) == proxied
              && p.geoip == if cfg.geoIPFile != "" && file.Some?
                               && exists rule :: rule in p.directRules + p.proxyRules && rule.Geo?
                            then Some(Loaded(lib.text, file.value)) else None
    ensures var checks := Checks(lib, hasUpstream, hasDirect, cfg, file);
            && (err == None <==> forall i :: 0 <= i < |checks| ==> checks[i].1)
            && (err.Some? ==> exists i :: 0 <= i < |checks| && checks[i] == (err.value, false)
                                          && forall j :: 0 <= j < i ==> checks[j].1)
  {
    hide RulesOf, ParseRule, Loaded;
    p := null;
    ghost var checks := Checks(lib, hasUpstream, hasDirect, cfg, file);
    if !hasUpstream {
      assert checks[0] == (NoUpstream, false);
      return p, Some(NoUpstream);
    }
    var mode := if cfg.mode == "" then MODE_GLOBAL else cfg.mode;
    var default := if cfg.default == "" then DEFAULT_PROXY else cfg.default;
    if default != DEFAULT_PROXY && default != DEFAULT_DIRECT {
      assert checks[1] == (InvalidDefault, false);
      return p, Some(InvalidDefault);
    }
    if mode != MODE_GLOBAL && mode != MODE_DIRECT && mode != MODE_RULES {
      assert checks[2] == (UnsupportedMode, false);
      return p, Some(UnsupportedMode);
    }
    if !hasDirect {
      assert checks[3] == (NoDirect, false);
      return p, Some(NoDirect);
    }
    var direct := ParseRules(lib, cfg.directRules);
    if direct.None? {
      assert checks[4] == (InvalidRule, false);
      return p, Some(InvalidRule);
    }
    var proxied := ParseRules(lib, cfg.proxyRules);
    if proxied.None? {
      assert checks[4] == (InvalidRule, false);
      return p, Some(InvalidRule);
    }
    var geoip := None;
    if cfg.geoIPFile != "" {
      var wanted := HasGeoIPRule(direct.value + proxied.value);
      if wanted {
        if file.None? {
          assert checks[5] == (NoGeoIpFile, false);
          return p, Some(NoGeoIpFile);
        }
        var countries := LoadGeoIP(lib.text, file.value);
        geoip := Some(countries);
      }
    }
    p := new Proxy(lib.text, mode, default == DEFAULT_DIRECT, direct.value, proxied.value, geoip);
    err := None;
  }

  // Laws of the policy.

  /** Only what the lists contain matters: neither the order within a list nor repetition does. */
  lemma OrderAndRepetitionDoNotMatter(text: Text, mode: string, defaultDirect: bool, geoip: Option<Countries>,
                                      direct: seq<Rule>, proxied: seq<Rule>, direct': seq<Rule>, proxied': seq<Rule>,
                                      dst: Option<Addr>)
    requires forall rule :: rule in direct <==> rule in direct'
    requires forall rule :: rule in proxied <==> rule in proxied'
    ensures GoesDirect(text, mode, defaultDirect, direct, proxied, geoip, dst)
            <==> GoesDirect(text, mode, defaultDirect, direct', proxied', geoip, dst)
  {
    if dst.Some? {
      var ip := dst.value.Unmap();
      assert SomeMatch(text, geoip, direct, ip) <==> SomeMatch(text, geoip, direct', ip);
      assert SomeMatch(text, geoip, proxied, ip) <==> SomeMatch(text, geoip, proxied', ip);
    }
  }

  function Expanded(rules: seq<Rule>): seq<Rule> {
    if rules == [] then [] else (if rules[0].Private? then SEVEN else [rules[0]]) + Expanded(rules[1..])
  }

  lemma ContainsByQuotient(base: nat, bits: nat, v: nat, size: nat)
    requires bits <= 32 && size == Pow2(32 - bits)
    ensures Prefix(V4(base), bits).Contains(V4(v)) <==> v / size == base / size
  {
  }

  lemma SevenContain(v: nat)
    ensures InSeven(v) <==> exists i :: 0 <= i < 7 && SEVEN[i].prefix.Contains(V4(v))
  {
    Powers();
    ContainsByQuotient(0x0A00_0000, 8, v, 0x100_0000);
    ContainsByQuotient(0xAC10_0000, 12, v, 0x10_0000);
    ContainsByQuotient(0xC0A8_0000, 16, v, 0x1_0000);
    ContainsByQuotient(0x7F00_0000, 8, v, 0x100_0000);
    ContainsByQuotient(0xA9FE_0000, 16, v, 0x1_0000);
    ContainsByQuotient(0xE000_0000, 24, v, 0x100);
    ContainsByQuotient(0x6440_0000, 10, v, 0x40_0000);
    hide Addr.Unmap, Prefix.Contains, Pow2;
    assert SEVEN[0].prefix.Contains(V4(v)) <==> v / 0x100_0000 == 10;
    assert SEVEN[1].prefix.Contains(V4(v)) <==> v / 0x10_0000 == 0xAC1;
    assert SEVEN[2].prefix.Contains(V4(v)) <==> v / 0x1_0000 == 0xC0A8;
    assert SEVEN[3].prefix.Contains(V4(v)) <==> v / 0x100_0000 == 127;
    assert SEVEN[4].prefix.Contains(V4(v)) <==> v / 0x1_0000 == 0xA9FE;
    assert SEVEN[5].prefix.Contains(V4(v)) <==> v / 0x100 == 0xE0_0000;
    assert SEVEN[6].prefix.Contains(V4(v)) <==> v / 0x40_0000 == 0x191;
  }

  lemma SevenMatches(text: Text, geoip: Option<Countries>, ip: Addr)
    requires !(ip.V6? && IsPrivate(ip))
    ensures SomeMatch(text, geoip, SEVEN, ip) <==> IsPrivate(ip)
  {
    forall i | 0 <= i < 7
      ensures SEVEN[i] in SEVEN && (Matches(text, geoip, SEVEN[i], ip) <==> SEVEN[i].prefix.Contains(ip))
      ensures !ip.V4? ==> !SEVEN[i].prefix.Contains(ip)
    {
    }
    if ip.V4? {
      InSevenIsPrivate(ip.v);
      SevenContain(ip.v);
    }
    hide IsPrivate, InSeven, Prefix.Contains;
    assert forall rule :: rule in SEVEN ==> exists i :: 0 <= i < 7 && rule == SEVEN[i];
  }

  lemma {:induction false} ExpandedMatches(text: Text, geoip: Option<Countries>, rules: seq<Rule>, ip: Addr)
    requires !(ip.V6? && IsPrivate(ip))
    ensures SomeMatch(text, geoip, Expanded(rules), ip) <==> SomeMatch(text, geoip, rules, ip)
  {
    hide IsPrivate;
    if rules != [] {
      var first := if rules[0].Private? then SEVEN else [rules[0]];
      ExpandedMatches(text, geoip, rules[1..], ip);
      SevenMatches(text, geoip, ip);
      assert rules == [rules[0]] + rules[1..];
      assert Expanded(rules) == first + Expanded(rules[1..]);
      assert SomeMatch(text, geoip, first, ip) <==> Matches(text, geoip, rules[0], ip);
    }
  }

  /** Writing the seven ranges instead of `private` changes nothing for any destination but a private IPv6 one. */
  lemma PrivateIsSevenRanges(text: Text, mode: string, defaultDirect: bool, geoip: Option<Countries>,
                             direct: seq<Rule>, proxied: seq<Rule>, dst: Addr)
    requires !(dst.Unmap().V6? && IsPrivate(dst.Unmap()))
    ensures GoesDirect(text, mode, defaultDirect, direct, proxied, geoip, Some(dst))
            <==> GoesDirect(text, mode, defaultDirect, Expanded(direct), Expanded(proxied), geoip, Some(dst))
  {
    ExpandedMatches(text, geoip, direct, dst.Unmap());
    ExpandedMatches(text, geoip, proxied, dst.Unmap());
  }

  /** For every private IPv6 destination it does change something: it is in none of the seven. */
  lemma NotForPrivateIPv6(text: Text, geoip: Option<Countries>, dst: Addr)
    requires dst.Unmap().V6? && IsPrivate(dst.Unmap())
    ensures GoesDirect(text, MODE_RULES, false, [Private], [], geoip, Some(dst))
    ensures !GoesDirect(text, MODE_RULES, false, Expanded([Private]), [], geoip, Some(dst))
    ensures var loopback := V6(1, false);
            loopback.Unmap().V6? && IsPrivate(loopback.Unmap()) // one of them
  {
    var ip := dst.Unmap();
    assert Private in [Private] && Matches(text, geoip, Private, ip);
    assert Expanded([Private]) == SEVEN + [];
  }
}
