/**
 * The HTTP server's configuration: which host name and base URL the pages it
 * serves use, the protocol string of its responses, the consistency check of
 * its thread-pool options, the URL of a static resource, and the run-time
 * change of its debug level.
 */
module ServerConfig {
  import opened Py

  /** The server part of a site's configuration (the fields these operations read). */
  datatype Config = Config(
    address: string,
    port: int,
    protocol: string,
    domain: Option<string>,
    hostKey: string,
    threads: int,
    hungThreadLimit: int,
    killThreadLimit: int,
    spawnIfUnder: int)

  /** The defaults of Config.__init__ (for the fields modelled). */
  const DEFAULT := Config("0.0.0.0", 8000, "http", None, "X-Forwarded-Host", 5, 30, 600, 5)

  /** The request's headers (an HTTPMessage), as (name, value) pairs in the order received. */
  type Headers = seq<(string, string)>

  const HOST := "Host"
  const FORWARDED_PROTO := "X-Forwarded-Proto"
  const FORWARDED_PREFIX := "X-Forwarded-Prefix"
  const COLON := ":"
  const SLASH := "/"

  // ------------------------------------------------------------------------
  // isIPv6
  // ------------------------------------------------------------------------

  function CountOf(s: string, c: char): nat
  {
    if s == [] then 0 else (if s[0] == c then 1 else 0) + CountOf(s[1..], c)
  }

  /** isIPv6: more than one colon, or a bracket, in the address. */
  function IsIPv6(address: string): (r: bool)
  {
    CountOf(address, ':') > 1 || '[' in address
  }

  lemma {:induction false} CountOfAbsent(s: string, c: char)
    requires c !in s
    ensures CountOf(s, c) == 0
  {
    if s != [] {
      CountOfAbsent(s[1..], c);
    }
  }

  /** An IPv4 address (digits and dots) is not IPv6; two colons make one. */
  lemma {:induction false} IPv6Addresses(address: string, a: string, b: string, c: string)
    requires forall i | 0 <= i < |address| :: IsDigit(address[i]) || address[i] == '.'
    ensures !IsIPv6(address)
    ensures IsIPv6(a + COLON + b + COLON + c)
  {
    CountOfAbsent(address, ':');
    var tail := COLON + c;
    var mid := COLON + (b + tail);
    assert a + COLON + b + COLON + c == a + mid;
    CountAppend(a, mid, ':');
    CountColon(b + tail);
    CountAppend(b, tail, ':');
    CountColon(c);
  }

  lemma {:induction false} CountColon(s: string)
    ensures CountOf(COLON + s, ':') == 1 + CountOf(s, ':')
  {
    assert (COLON + s)[1..] == s;
  }

  lemma {:induction false} CountAppend(a: string, b: string, c: char)
    ensures CountOf(a + b, c) >= CountOf(b, c)
  {
    if a != [] {
      assert (a + b)[1..] == a[1..] + b;
      CountAppend(a[1..], b, c);
    } else {
      assert a + b == b;
    }
  }

  // ------------------------------------------------------------------------
  // getHost and getUrl
  // ------------------------------------------------------------------------

  /** A header name with its ASCII letters in lower case, as names are compared. */
  function Folded(name: string): (r: string)
    ensures |r| == |name| && forall k | 0 <= k < |name| :: r[k] == Lower(name[k])
  {
    seq(|name|, k requires 0 <= k < |name| => Lower(name[k]))
  }

  /**
   * HTTPMessage.get(key): the value of the first header whose name is the
   * key, whatever the case of its letters; None when there is none.
   */
  function Get(headers: Headers, key: string): Option<string>
  {
    if headers == [] then None
    else if Folded(headers[0].0) == Folded(key) then Some(headers[0].1)
    else Get(headers[1..], key)
  }

  /** get answers the value of the first header named like the key, and None exactly when no header is. */
  lemma {:induction false} GetMeaning(headers: Headers, key: string)
    ensures Get(headers, key).None? <==> forall k | 0 <= k < |headers| :: Folded(headers[k].0) != Folded(key)
    ensures forall k | 0 <= k < |headers| && Folded(headers[k].0) == Folded(key)
              && (forall j | 0 <= j < k :: Folded(headers[j].0) != Folded(key)) ::
              Get(headers, key) == Some(headers[k].1)
  {
    if headers != [] {
      GetMeaning(headers[1..], key);
      forall k | 0 <= k < |headers| && Folded(headers[k].0) == Folded(key)
          && (forall j | 0 <= j < k :: Folded(headers[j].0) != Folded(key))
        ensures Get(headers, key) == Some(headers[k].1)
      {
        if k > 0 {
          assert headers[1..][k - 1] == headers[k];
          forall j | 0 <= j < k - 1 ensures Folded(headers[1..][j].0) != Folded(key) {
            assert headers[1..][j] == headers[j + 1];
          }
        }
      }
      if Get(headers, key).None? {
        forall k | 0 <= k < |headers| ensures Folded(headers[k].0) != Folded(key) {
          if k > 0 {
            assert headers[1..][k - 1] == headers[k];
          }
        }
      }
    }
  }

  /** Keys differing only in the case of their letters read the same header. */
  lemma {:induction false} GetIgnoresCase(headers: Headers, key: string, other: string)
    requires Folded(key) == Folded(other)
    ensures Get(headers, key) == Get(headers, other)
  {
    if headers != [] {
      GetIgnoresCase(headers[1..], key, other);
    }
  }

  /** `headers.get(key)` as a truth value: present and non-empty. */
  predicate Given(headers: Headers, key: string)
  {
    Get(headers, key).Some? && Get(headers, key).value != ""
  }

  /** `headers.get(hostKey) or headers.get('Host')`, when one of them is given. */
  function HeaderHost(cfg: Config, headers: Headers): (r: Option<string>)
    ensures r.Some? <==> Given(headers, cfg.hostKey) || Given(headers, HOST)
    ensures Given(headers, cfg.hostKey) ==> r == Some(Get(headers, cfg.hostKey).value)
    ensures !Given(headers, cfg.hostKey) && Given(headers, HOST) ==> r == Some(Get(headers, HOST).value)
  {
    if Given(headers, cfg.hostKey) then Some(Get(headers, cfg.hostKey).value)
    else if Given(headers, HOST) then Some(Get(headers, HOST).value)
    else None
  }

  /**
   * getHost: the host header (without its port when withPort is false), else
   * the domain, else the address followed by the port unless it is 80.
   */
  function Host(cfg: Config, headers: Headers, withPort: bool): string
  {
    match HeaderHost(cfg, headers)
    case Some(h) =>
      if !withPort && ':' in h then (ContainsChar(h, ':'); SplitOnce(h, COLON)[0]) else h
    case None =>
      if cfg.domain.Some? && cfg.domain.value != "" then cfg.domain.value
      else if withPort && cfg.port != 80 then cfg.address + COLON + IntToString(cfg.port)
      else cfg.address
  }

  /** The order of preference: the configured host key, Host, the domain, the address. */
  lemma {:induction false} HostPreference(cfg: Config, headers: Headers, withPort: bool)
    ensures Given(headers, cfg.hostKey) && withPort ==> Host(cfg, headers, withPort) == Get(headers, cfg.hostKey).value
    ensures !Given(headers, cfg.hostKey) && Given(headers, HOST) && withPort ==>
              Host(cfg, headers, withPort) == Get(headers, HOST).value
    ensures HeaderHost(cfg, headers).None? && cfg.domain.Some? && cfg.domain.value != "" ==>
              Host(cfg, headers, withPort) == cfg.domain.value
    ensures HeaderHost(cfg, headers).None? && (cfg.domain.None? || cfg.domain.value == "") ==>
              Host(cfg, headers, withPort)
              == cfg.address + (if withPort && cfg.port != 80 then COLON + IntToString(cfg.port) else "")
  {
  }

  /** Without the port, "name:port" from a header gives "name"; a header without a colon is kept. */
  lemma {:induction false} HostWithoutPort(cfg: Config, headers: Headers, name: string, port: string)
    requires ':' !in name
    requires HeaderHost(cfg, headers) == Some(name + COLON + port)
    ensures Host(cfg, headers, false) == name
    ensures Host(cfg, headers, true) == name + COLON + port
  {
    assert (name + COLON + port)[|name|] == ':';
    ContainsChar(name, ':');
    SplitOnceAt(name, COLON, port);
  }

  /** Header names are matched whatever their case: a "host" or "HOST" header gives the host. */
  lemma {:induction false} HostHeaderAnyCase(cfg: Config, value: string)
    requires value != "" && ':' !in value
    requires Folded(cfg.hostKey) != Folded(HOST)
    ensures Host(cfg, [("host", value)], true) == value
    ensures Host(cfg, [("HOST", value)], false) == value
  {
    assert Folded("host") == Folded(HOST) == Folded("HOST");
    var lower: Headers, upper: Headers := [("host", value)], [("HOST", value)];
    assert lower[1..] == [] && upper[1..] == [];
    assert Get(lower, cfg.hostKey) == None && Get(lower, HOST) == Some(value);
    assert Get(upper, cfg.hostKey) == None && Get(upper, HOST) == Some(value);
  }

  /** getUrl: "<protocol>://<host>" (nothing when relative), then "/<prefix>" when a prefix is forwarded. */
  function Url(cfg: Config, headers: Headers, relative: bool): string
  {
    var base :=
      if relative then ""
      else
        var protocol := if Given(headers, FORWARDED_PROTO) then Get(headers, FORWARDED_PROTO).value else cfg.protocol;
        protocol + "://" + Host(cfg, headers, true);
    base + (if Given(headers, FORWARDED_PREFIX) then SLASH + Get(headers, FORWARDED_PREFIX).value else "")
  }

  /** The forwarded protocol wins over the configured one, and the forwarded prefix ends the URL. */
  lemma {:induction false} UrlParts(cfg: Config, headers: Headers)
    ensures StartsWith(Url(cfg, headers, false),
                       (if Given(headers, FORWARDED_PROTO) then Get(headers, FORWARDED_PROTO).value else cfg.protocol) + "://")
    ensures Given(headers, FORWARDED_PREFIX) ==> EndsWith(Url(cfg, headers, false), SLASH + Get(headers, FORWARDED_PREFIX).value)
    ensures Given(headers, FORWARDED_PREFIX) ==> EndsWith(Url(cfg, headers, true), SLASH + Get(headers, FORWARDED_PREFIX).value)
    ensures !Given(headers, FORWARDED_PREFIX) ==> Url(cfg, headers, true) == ""
  {
    var u := Url(cfg, headers, false);
    var p := (if Given(headers, FORWARDED_PROTO) then Get(headers, FORWARDED_PROTO).value else cfg.protocol) + "://";
    assert u[..|p|] == p;
    if Given(headers, FORWARDED_PREFIX) {
      var x := SLASH + Get(headers, FORWARDED_PREFIX).value;
      assert u[|u| - |x|..] == x;
    }
  }

  // ------------------------------------------------------------------------
  // getProtocolString
  // ------------------------------------------------------------------------

  const HTTP_PREFIX := "HTTP/"

  /** getProtocolString, `shown` being str(version): HTTP/1.1 for 1.0 and 1.1, the version itself above. */
  function ProtocolString(version: real, shown: string): (r: string)
    ensures version <= 1.1 ==> r == "HTTP/1.1"
    ensures version > 1.1 ==> r == HTTP_PREFIX + shown
  {
    HTTP_PREFIX + (if version > 1.1 then shown else "1.1")
  }

  // ------------------------------------------------------------------------
  // check
  // ------------------------------------------------------------------------

  const MIN_THR_KO := "At least one thread must be in use."

  function ThreadLimitsKo(kill: int, hung: int): string
  {
    "killThreadLimit (" + IntToString(kill) + ") should be > hungThreadLimit (" + IntToString(hung) + ")"
  }

  function SpawnIfKo(spawnIf: int, threads: int): string
  {
    "spawnIfUnder (" + IntToString(spawnIf) + ") should be < than the number of threads (" + IntToString(threads) + ")"
  }

  /** The two later assertions of check: consistent kill/hung limits, and spawnIfUnder within the pool. */
  function CheckLimits(cfg: Config): (r: Result<()>)
    ensures r.Ok? <==> (cfg.killThreadLimit == 0 || cfg.killThreadLimit >= cfg.hungThreadLimit)
                       && cfg.spawnIfUnder <= cfg.threads
  {
    var kill, hung := cfg.killThreadLimit, cfg.hungThreadLimit;
    if !(kill == 0 || kill >= hung) then Err(ThreadLimitsKo(kill, hung))
    else if !(cfg.spawnIfUnder <= cfg.threads) then Err(SpawnIfKo(cfg.spawnIfUnder, cfg.threads))
    else Ok(())
  }

  /** check as written: its first assertion demands more than one thread. */
  function CheckAsWritten(cfg: Config): (r: Result<()>)
    ensures r.Ok? <==> cfg.threads > 1 && CheckLimits(cfg).Ok?
    ensures cfg.threads <= 1 ==> r == Err(MIN_THR_KO)
  {
    if !(cfg.threads > 1) then Err(MIN_THR_KO) else CheckLimits(cfg)
  }

  /** check as its message states it: at least one thread. */
  function Check(cfg: Config): (r: Result<()>)
    ensures r.Ok? <==> cfg.threads >= 1 && CheckLimits(cfg).Ok?
    ensures cfg.threads < 1 ==> r == Err(MIN_THR_KO)
  {
    if !(cfg.threads >= 1) then Err(MIN_THR_KO) else CheckLimits(cfg)
  }

  /**
   * A pool of one thread (spawnIfUnder at most 1) is consistent, yet the
   * check as written refuses it with "At least one thread must be in use.";
   * the two checks agree on every other configuration, the default included.
   */
  lemma {:induction false} SingleThreadRefused(cfg: Config)
    ensures var one := cfg.(threads := 1, spawnIfUnder := 1, killThreadLimit := 0);
            CheckAsWritten(one) == Err(MIN_THR_KO) && Check(one) == Ok(())
    ensures cfg.threads != 1 ==> CheckAsWritten(cfg) == Check(cfg)
    ensures Check(DEFAULT) == Ok(()) && CheckAsWritten(DEFAULT) == Ok(())
  {
  }

  // ------------------------------------------------------------------------
  // Server.buildUrl
  // ------------------------------------------------------------------------

  const PNG := ".png"
  const APPY := "appy"

  /** How the URL is used: as is, as a background image, or as a background image of some size. */
  datatype Background = Plain | Image | SizedImage(size: string)

  /** The name completed with ".png" when it has no extension. */
  function CompleteName(name: string): (r: string)
    ensures '.' in r
    ensures '.' in name ==> r == name
  {
    if '.' in name then name else
      assert (name + PNG)[|name|] == '.';
      name + PNG
  }

  /**
   * buildUrl: the static URL "<url>/<staticRoot>/<base><name>"; a named
   * resource without a base lives in the folder the images map gives it (or
   * "appy"), an unnamed one in the given base (or "appy"); RAM resources in
   * the RAM root.
   */
  function BuildUrl(cfg: Config, headers: Headers, images: map<string, string>, staticRoot: string,
                    ramRoot: string, name: string, base: Option<string>, ram: bool, bg: Background): string
  {
    var (b, n) :=
      if name != "" then
        var full := CompleteName(name);
        var b := if base.None? && !ram then (if full in images && images[full] != "" then images[full] else APPY)
                 else (if base.Some? then base.value else "");
        (b, SLASH + full)
      else ((if base.Some? && base.value != "" then base.value else APPY), "");
    var folder := if ram then ramRoot else b;
    var r := Url(cfg, headers, false) + SLASH + staticRoot + SLASH + folder + n;
    match bg
    case Plain => r
    case Image => "background-image:url(" + r + ")"
    case SizedImage(size) =>
      if size == "" then r else "background-image:url(" + r + ");background-size:" + size
  }

  /** A name without extension is taken as a PNG image; the URL ends with the completed name. */
  lemma {:induction false} BuildUrlName(cfg: Config, headers: Headers, images: map<string, string>, staticRoot: string,
                     ramRoot: string, name: string, base: Option<string>, ram: bool)
    requires name != ""
    ensures EndsWith(BuildUrl(cfg, headers, images, staticRoot, ramRoot, name, base, ram, Plain), SLASH + CompleteName(name))
    ensures '.' !in name ==> CompleteName(name) == name + PNG
    ensures ram ==> StartsWith(BuildUrl(cfg, headers, images, staticRoot, ramRoot, name, base, ram, Plain),
                               Url(cfg, headers, false) + SLASH + staticRoot + SLASH + ramRoot)
  {
    var r := BuildUrl(cfg, headers, images, staticRoot, ramRoot, name, base, ram, Plain);
    var x := SLASH + CompleteName(name);
    assert r[|r| - |x|..] == x;
    if ram {
      var p := Url(cfg, headers, false) + SLASH + staticRoot + SLASH + ramRoot;
      assert r == p + x;
      assert r[..|p|] == p;
    }
  }

  // ------------------------------------------------------------------------
  // Server.updateDebugLevel
  // ------------------------------------------------------------------------

  const WRONG_DELTA := "Aborted :: Wrong delta."
  const VALUE_ERROR := "ValueError"

  function DebugLevelSet(val: int): string
  {
    "Debug level set to " + IntToString(val) + "."
  }

  /**
   * The new level and the message of updateDebugLevel for the parsed delta
   * (`int(delta)`, None when it raises ValueError).
   */
  function NewDebugLevel(level: int, delta: Option<int>): (r: Result<(int, string)>)
    ensures r.Err? <==> delta.None?
    ensures r.Ok? && 0 <= level + delta.value <= 4 ==>
              r.value == (level + delta.value, DebugLevelSet(level + delta.value))
    ensures r.Ok? && !(0 <= level + delta.value <= 4) ==> r.value == (level, WRONG_DELTA)
  {
    match delta
    case None => Err(VALUE_ERROR)
    case Some(d) =>
      var val := level + d;
      if 0 <= val <= 4 then Ok((val, DebugLevelSet(val))) else Ok((level, WRONG_DELTA))
  }

  /** The running server's configuration, which the debug level change updates in RAM. */
  class Server {
    var debugLevel: int

    constructor(level: int)
      ensures debugLevel == level
    {
      debugLevel := level;
    }

    /** updateDebugLevel: the level moves by delta when it stays within 0..4; the message says what happened. */
    method UpdateDebugLevel(delta: string) returns (message: Result<string>)
      modifies this
      ensures var next := NewDebugLevel(old(debugLevel), ParseInt(delta));
              && (message.Err? <==> next.Err?)
              && (message.Ok? ==> (debugLevel, message.value) == next.value)
              && (message.Err? ==> debugLevel == old(debugLevel))
    {
      var d := ParseInt(delta);
      message := ApplyDelta(d);
    }

    /** The update once `int(delta)` is computed (None when it raised ValueError). */
    method ApplyDelta(d: Option<int>) returns (message: Result<string>)
      modifies this
      ensures var next := NewDebugLevel(old(debugLevel), d);
              && (message.Err? <==> next.Err?)
              && (message.Ok? ==> (debugLevel, message.value) == next.value)
              && (message.Err? ==> debugLevel == old(debugLevel))
    {
      if d.None? {
        return Err(VALUE_ERROR);
      }
      var val := debugLevel + d.value;
      if 0 <= val <= 4 {
        debugLevel := val;
        message := Ok(DebugLevelSet(val));
      } else {
        message := Ok(WRONG_DELTA);
      }
    }
  }

  /** A level within 0..4 stays within 0..4 whatever the delta; a zero delta changes nothing; "-1" from 0 is refused. */
  lemma {:induction false} DebugLevelStaysInRange(level: int, delta: Option<int>)
    requires 0 <= level <= 4
    ensures NewDebugLevel(level, delta).Ok? ==> 0 <= NewDebugLevel(level, delta).value.0 <= 4
    ensures NewDebugLevel(level, Some(0)) == Ok((level, DebugLevelSet(level)))
    ensures NewDebugLevel(0, Some(-1)) == Ok((0, WRONG_DELTA))
  {
  }
}
