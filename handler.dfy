/**
 * Handlers: what the HTTP handler decides before and around a request — the
 * cache of method results it keeps while handling one request, the registry
 * of running handlers, the loop that replays a request after a database
 * conflict, how a path is split and classified as static or dynamic, and
 * the checks made on the request line (section 3 of RFC 9112).
 */
module Handlers {
  import opened Py

  // ------------------------------------------------------------------------
  // MethodsCache
  // ------------------------------------------------------------------------

  /** What the cache sees of a method: its __name__, its qualified name and the name of its first parameter. */
  datatype MethodRef = MethodRef(name: string, qualifiedName: string, firstArg: string)

  /** What the cache sees of an object: its iid and the name of its class. */
  datatype Obj = Obj(iid: int, className: string)

  const LAMBDA := "<lambda>"
  const TOOL := "tool"
  const COLON := ":"

  /**
   * The key "<prefix>:<name>" a call is cached under, or None when the call
   * is not cached (caching disabled, or a lambda). A method whose first
   * parameter is "tool" and that comes with no class is keyed by the class
   * name of the object and its bare name; otherwise the prefix is the given
   * class name or the object's iid, and the name is the qualified one.
   */
  function CacheKey(o: Obj, m: MethodRef, classRef: Option<string>, cache: bool): (r: Option<string>)
    ensures r.None? <==> !cache || m.name == LAMBDA
    ensures r.Some? && classRef.None? && m.firstArg == TOOL ==> r.value == o.className + COLON + m.name
    ensures r.Some? && classRef.Some? ==> r.value == classRef.value + COLON + m.qualifiedName
  {
    if !cache || m.name == LAMBDA then None
    else if classRef.None? && m.firstArg == TOOL then Some(o.className + COLON + m.name)
    else
      var prefix := if classRef.Some? then classRef.value else IntToString(o.iid);
      Some(prefix + COLON + m.qualifiedName)
  }

  /**
   * One call through the cache: the result, whether the method was called,
   * and the new cache. `run` is what calling the method would return.
   */
  function Through<V>(entries: map<string, V>, key: Option<string>, run: V): (V, bool, map<string, V>)
  {
    match key
    case None => (run, true, entries)
    case Some(k) => if k in entries then (entries[k], false, entries) else (run, true, entries[k := run])
  }

  class MethodsCache<V> {
    var entries: map<string, V>

    constructor()
      ensures entries == map[]
    {
      entries := map[];
    }

    /** MethodsCache.call; `run` is what the method returns when it is called. */
    method Call(o: Obj, m: MethodRef, classRef: Option<string>, cache: bool, run: V) returns (r: V, called: bool)
      modifies this
      ensures (r, called, entries) == Through(old(entries), CacheKey(o, m, classRef, cache), run)
    {
      var key := CacheKey(o, m, classRef, cache);
      if key.None? {
        return run, true;
      }
      if key.value in entries {
        return entries[key.value], false;
      }
      entries := entries[key.value := run];
      return run, true;
    }
  }

  /**
   * A repeated call with the same key returns the stored result and does
   * not call the method again, whatever it would return this time; a call
   * that is not cached always calls the method and leaves the cache alone.
   */
  lemma {:induction false} RepeatedCallIsCached<V>(entries: map<string, V>, key: Option<string>, run1: V, run2: V)
    ensures var (r1, _, e1) := Through(entries, key, run1);
            key.Some? ==> Through(e1, key, run2) == (r1, false, e1)
    ensures key.None? ==> Through(entries, key, run1) == (run1, true, entries)
  {
    match key
    case None =>
    case Some(k) =>
      var (r1, _, e1) := Through(entries, key, run1);
      assert k in e1 && e1[k] == r1;
  }

  /** A cached call keeps every other entry, and afterwards its key holds its result. */
  lemma {:induction false} CachedCallKeepsOthers<V>(entries: map<string, V>, k: string, run: V)
    ensures var (r, called, e) := Through(entries, Some(k), run);
            e.Keys == entries.Keys + {k} && e[k] == r
            && (forall j | j in entries :: e[j] == entries[j])
            && (called <==> k !in entries)
  {
  }

  // ------------------------------------------------------------------------
  // The registry of handlers
  // ------------------------------------------------------------------------

  /** Handler.registry: the running handlers, by the id of their thread. */
  class Registry<H> {
    var handlers: map<int, H>

    constructor()
      ensures handlers == map[]
    {
      handlers := map[];
    }

    /** Handler.add: registers `h` for the thread, telling whether the thread was already registered. */
    method Add(thread: int, h: H) returns (r: bool)
      modifies this
      ensures r <==> thread in old(handlers)
      ensures handlers == old(handlers)[thread := h]
    {
      r := thread in handlers;
      handlers := handlers[thread := h];
    }

    /** Handler.remove: `del` raises KeyError (false here) when the thread is not registered. */
    method Remove(thread: int) returns (ok: bool)
      modifies this
      ensures ok <==> thread in old(handlers)
      ensures handlers == old(handlers) - {thread}
    {
      ok := thread in handlers;
      handlers := handlers - {thread};
    }
  }

  // ------------------------------------------------------------------------
  // attemptDatabaseRequest
  // ------------------------------------------------------------------------

  /** How one attempt at managing the request (and committing) ends. */
  datatype Outcome = Served(page: string) | Conflict(err: string) | Message(msg: string) | Failure(err: string)

  /** The content served: a page, or the error page built with a status code (and the error, when one is passed). */
  datatype Reply = Page(page: string) | ErrorPage(code: int, error: Option<string>)

  const OK := 200
  const INTERNAL_SERVER_ERROR := 500
  const SERVICE_UNAVAILABLE := 503

  /**
   * The reply and the number of attempts made, from attempt `done` on
   * (counted from 0), where `outcome(k)` is how attempt k ends.
   */
  function Attempts(outcome: nat -> Outcome, maxAttempts: nat, done: nat): (Reply, nat)
    requires done < maxAttempts
    decreases maxAttempts - done
  {
    match outcome(done)
    case Served(p) => (Page(p), done + 1)
    case Message(msg) => (ErrorPage(OK, Some(msg)), done + 1)
    case Failure(err) => (ErrorPage(INTERNAL_SERVER_ERROR, Some(err)), done + 1)
    case Conflict(_) =>
      if done + 1 == maxAttempts then (ErrorPage(SERVICE_UNAVAILABLE, None), done + 1)
      else Attempts(outcome, maxAttempts, done + 1)
  }

  /**
   * attemptDatabaseRequest: replays the request after each conflict, and
   * gives up with 503 once `maxAttempts` conflicts occurred.
   */
  method AttemptDatabaseRequest(outcome: nat -> Outcome, maxAttempts: nat) returns (r: Reply, attempts: nat)
    requires maxAttempts >= 1
    ensures (r, attempts) == Attempts(outcome, maxAttempts, 0)
  {
    var conflicts := 0;
    while true
      invariant conflicts < maxAttempts
      invariant Attempts(outcome, maxAttempts, conflicts) == Attempts(outcome, maxAttempts, 0)
      decreases maxAttempts - conflicts
    {
      match outcome(conflicts) {
        case Served(p) =>
          return Page(p), conflicts + 1;
        case Message(msg) =>
          return ErrorPage(OK, Some(msg)), conflicts + 1;
        case Failure(err) =>
          return ErrorPage(INTERNAL_SERVER_ERROR, Some(err)), conflicts + 1;
        case Conflict(_) =>
          conflicts := conflicts + 1;
          if conflicts == maxAttempts {
            return ErrorPage(SERVICE_UNAVAILABLE, None), conflicts;
          }
      }
    }
  }

  /**
   * The request is tried at most maxAttempts times; it gives up with 503
   * exactly when every one of those attempts ended in a conflict, and then
   * made all of them.
   */
  lemma {:induction false} RetriesAreBounded(outcome: nat -> Outcome, maxAttempts: nat, done: nat)
    requires done < maxAttempts
    ensures done < Attempts(outcome, maxAttempts, done).1 <= maxAttempts
    ensures Attempts(outcome, maxAttempts, done).0 == ErrorPage(SERVICE_UNAVAILABLE, None)
            <==> forall k | done <= k < maxAttempts :: outcome(k).Conflict?
    ensures Attempts(outcome, maxAttempts, done).0 == ErrorPage(SERVICE_UNAVAILABLE, None)
            ==> Attempts(outcome, maxAttempts, done).1 == maxAttempts
    decreases maxAttempts - done
  {
    if outcome(done).Conflict? && done + 1 < maxAttempts {
      RetriesAreBounded(outcome, maxAttempts, done + 1);
    }
  }

  /** The reply is decided by the first attempt that does not end in a conflict. */
  lemma {:induction false} FirstNonConflictDecides(outcome: nat -> Outcome, maxAttempts: nat, done: nat, k: nat)
    requires done <= k < maxAttempts
    requires forall j | done <= j < k :: outcome(j).Conflict?
    requires !outcome(k).Conflict?
    ensures Attempts(outcome, maxAttempts, done) == Attempts(outcome, maxAttempts, k)
    ensures Attempts(outcome, maxAttempts, done).1 == k + 1
    decreases k - done
  {
    if done < k {
      FirstNonConflictDecides(outcome, maxAttempts, done + 1, k);
    }
  }

  // ------------------------------------------------------------------------
  // determineType
  // ------------------------------------------------------------------------

  const SLASH := "/"
  /** The folder of the UI images a file at the root is looked up in, when the UI config names none. */
  const APPY := "appy"

  /** The parts left once the blank ones are removed, in order. */
  function NonBlank(parts: seq<string>): (r: seq<string>)
  {
    if parts == [] then [] else (if parts[0] == "" then [] else [parts[0]]) + NonBlank(parts[1..])
  }

  lemma {:induction false} NonBlankMeaning(parts: seq<string>)
    ensures forall x :: x in NonBlank(parts) <==> x in parts && x != ""
    ensures |NonBlank(parts)| <= |parts|
  {
    if parts != [] {
      NonBlankMeaning(parts[1..]);
      assert forall x :: x in parts <==> x == parts[0] || x in parts[1..];
    }
  }

  /**
   * The kind of a request and its path parts, from the non-blank parts: a
   * first part naming the static root means static content (that part
   * dropped); a single part with a dot is a static file, looked up in the
   * folder the UI images config gives it (or "appy").
   */
  function TypeOf(parts: seq<string>, staticRoot: string, images: map<string, string>): (bool, seq<string>)
  {
    if parts == [] then (false, parts)
    else if parts[0] == staticRoot then (true, parts[1..])
    else if |parts| == 1 && '.' in parts[0] then
      var base := if parts[0] in images && images[parts[0]] != "" then images[parts[0]] else APPY;
      (true, [base] + parts)
    else (false, parts)
  }

  /** Static content exactly when the first part is the static root or the only part names a file. */
  lemma {:induction false} TypeOfMeaning(parts: seq<string>, staticRoot: string, images: map<string, string>)
    ensures TypeOf(parts, staticRoot, images).0
            <==> parts != [] && (parts[0] == staticRoot || (|parts| == 1 && '.' in parts[0]))
    ensures !TypeOf(parts, staticRoot, images).0 ==> TypeOf(parts, staticRoot, images).1 == parts
    ensures parts != [] && parts[0] == staticRoot ==> TypeOf(parts, staticRoot, images).1 == parts[1..]
  {
  }

  /**
   * A handler, as far as the request line and path are concerned: the
   * fields parseRequestHeaders and determineType set.
   */
  const NO_PATH := "-"

  class HttpHandler {
    var requestVersion: string
    var httpMethod: string
    var path: string
    var isStatic: bool
    var parts: seq<string>
    var closeSocket: bool

    /**
     * HttpHandler.__init__: the path is "-" until the request line is read,
     * and the socket is to be closed until determineType says otherwise. The
     * fields the constructor does not set start empty here.
     */
    constructor()
      ensures path == NO_PATH && closeSocket
      ensures requestVersion == "" && httpMethod == "" && !isStatic && parts == []
    {
      requestVersion, httpMethod, path := "", "", NO_PATH;
      isStatic, parts, closeSocket := false, [], true;
    }

    /**
     * determineType, on the path of the parsed URL: splits it at "/",
     * removes the blank parts (walking from the end), then classifies the
     * request. The socket is closed after the request under HTTP 1.0 or
     * when the client asks for it.
     */
    method DetermineType(urlPath: string, staticRoot: string, images: map<string, string>, httpVersion: real, connection: Option<string>)
      modifies this
      ensures (isStatic, parts) == TypeOf(NonBlank(Split(urlPath, SLASH)), staticRoot, images)
      ensures closeSocket <==> httpVersion == 1.0 || connection == Some("close")
      ensures requestVersion == old(requestVersion) && httpMethod == old(httpMethod) && path == old(path)
    {
      var ps := RemoveBlanks(Split(urlPath, SLASH));
      isStatic, parts := TypeOfParts(ps, staticRoot, images);
      closeSocket := httpVersion == 1.0 || connection == Some("close");
    }
  }

  /** The loop of determineType deleting the blank parts, from the last one to the first. */
  method RemoveBlanks(all: seq<string>) returns (ps: seq<string>)
    ensures ps == NonBlank(all)
  {
    ps := all;
    var i := |ps| - 1;
    while i >= 0
      invariant -1 <= i < |all|
      invariant ps == all[..i + 1] + NonBlank(all[i + 1..])
    {
      assert all[i..][1..] == all[i + 1..];
      assert all[..i + 1] == all[..i] + [all[i]];
      if ps[i] == "" {
        ps := ps[..i] + ps[i + 1..];
      }
      assert ps == all[..i] + NonBlank(all[i..]);
      i := i - 1;
    }
    assert all[..0] == [] && all[0..] == all;
  }

  /** The classification, as determineType writes it (deleting, inserting). */
  method TypeOfParts(ps: seq<string>, staticRoot: string, images: map<string, string>) returns (isStatic: bool, parts: seq<string>)
    ensures (isStatic, parts) == TypeOf(ps, staticRoot, images)
  {
    parts := ps;
    if parts == [] {
      isStatic := false;
    } else if parts[0] == staticRoot {
      isStatic := true;
      parts := parts[1..];
    } else if |parts| == 1 && '.' in parts[0] {
      isStatic := true;
      var base := APPY;
      if parts[0] in images && images[parts[0]] != "" {
        base := images[parts[0]];
      }
      parts := [base] + parts;
    } else {
      isStatic := false;
    }
  }

  // ------------------------------------------------------------------------
  // The request line
  // ------------------------------------------------------------------------

  const BAD_REQUEST := 400
  const REQUEST_URI_TOO_LONG := 414
  const REQUEST_HEADER_FIELDS_TOO_LARGE := 431
  const NOT_IMPLEMENTED := 501
  const HTTP_VERSION_NOT_SUPPORTED := 505

  /** The longest request line served, in bytes. */
  const MAX_LINE := 65536

  const HTTP_PREFIX := "HTTP/"
  const GET := "GET"
  const POST := "POST"

  /** Why a request is refused; each carries what its message shows. */
  datatype LineError =
    | BadLine(line: string)              // RQ_LINE_KO
    | WrongVersion(version: string)      // HTTP_V_KO
    | UnsupportedVersion(version: string) // HTTP_V_UNS
    | HeaderTooLong(detail: string)      // HEAD_TOO_LG
    | TooManyHeaders(detail: string)     // HEAD_T_MANY
    | WrongMethod(httpMethod: string)        // H_METH_KO

  /** How reading the headers after the request line ends. */
  datatype HeadersOutcome = HeadersOk | LineTooLong(err: string) | HeadersRefused(err: string)

  /** `line.rstrip(b"\r\n")` */
  function RStripEol(line: string): (r: string)
    ensures |r| <= |line| && r == line[..|r|]
    ensures r != [] ==> r[|r| - 1] != '\r' && r[|r| - 1] != '\n'
    ensures forall k | |r| <= k < |line| :: line[k] == '\r' || line[k] == '\n'
  {
    if line != [] && (line[|line| - 1] == '\r' || line[|line| - 1] == '\n') then RStripEol(line[..|line| - 1])
    else line
  }

  /** `s.count(c)` for a character. */
  function CountOf(s: string, c: char): (n: nat)
    ensures n <= |s|
  {
    if s == [] then 0 else (if s[0] == c then 1 else 0) + CountOf(s[1..], c)
  }

  function Pow10(n: nat): (r: nat)
    ensures r >= 1
  {
    if n == 0 then 1 else 10 * Pow10(n - 1)
  }

  /**
   * `float(t)` for a text holding exactly one dot: an optional sign, then
   * digits on either side of the dot, at least one in all.
   */
  function ParseDecimal(t: string): (r: Option<real>)
  {
    var negative := |t| > 0 && t[0] == '-';
    var body := if |t| > 0 && (t[0] == '-' || t[0] == '+') then t[1..] else t;
    match Find(body, ".")
    case None => None
    case Some(i) =>
      var a, b := body[..i], body[i + 1..];
      if AllDigits(a) && AllDigits(b) && |a| + |b| > 0 then
        var v := DigitsValue(a) as real + DigitsValue(b) as real / Pow10(|b|) as real;
        Some(if negative then -v else v)
      else None
  }

  /** The answer to the version of a 3-part request line: None when it is served. */
  function VersionError(version: string): (r: Option<(int, LineError)>)
  {
    if !StartsWith(version, HTTP_PREFIX) || CountOf(version, '.') != 1 then Some((BAD_REQUEST, WrongVersion(version)))
    else
      match ParseDecimal(version[5..])
      case None => Some((BAD_REQUEST, WrongVersion(version)))
      case Some(v) => if v < 1.0 || v > 1.1 then Some((HTTP_VERSION_NOT_SUPPORTED, UnsupportedVersion(version))) else None
  }

  /** The words of the request line. */
  function LineParts(line: string): seq<string>
  {
    SplitWs(RStripEol(line))
  }

  /** Whether the method and path of the request line are taken: 2 parts, or 3 with a served version. */
  predicate LineAccepted(parts: seq<string>)
  {
    (|parts| == 2 || |parts| == 3) && (|parts| == 3 ==> VersionError(parts[2]).None?)
  }

  /** What parseRequestHeaders answers: None, or the status code and the error. */
  function LineCheck(line: string, headers: HeadersOutcome): (r: Option<(int, LineError)>)
  {
    var parts := LineParts(line);
    if |parts| != 2 && |parts| != 3 then Some((BAD_REQUEST, BadLine(RStripEol(line))))
    else if |parts| == 3 && VersionError(parts[2]).Some? then VersionError(parts[2])
    else HeadersError(headers)
  }

  /** `s[:15]` */
  function Slice15(s: string): (r: string)
    ensures |r| <= 15
  {
    if |s| <= 15 then s else s[..15]
  }

  /**
   * The version the handler records: the one of a 3-part line, as soon as
   * it starts with "HTTP/"; the server's default for a 2-part line.
   */
  function RecordedVersion(parts: seq<string>, defaultProtocol: string): Option<string>
  {
    if |parts| == 3 && StartsWith(parts[2], HTTP_PREFIX) then Some(parts[2])
    else if |parts| == 2 then Some(defaultProtocol)
    else None
  }

  /**
   * parseRequestHeaders: the request line, the default protocol the
   * server config gives, and how reading the headers ends.
   */
  method ParseRequestHeaders(h: HttpHandler, line: string, defaultProtocol: string, headers: HeadersOutcome)
    returns (r: Option<(int, LineError)>)
    modifies h
    ensures r == LineCheck(line, headers)
    ensures h.requestVersion == match RecordedVersion(LineParts(line), defaultProtocol)
                                case Some(v) => v
                                case None => old(h.requestVersion)
    ensures LineAccepted(LineParts(line)) ==>
              h.httpMethod == LineParts(line)[0] && h.path == LineParts(line)[1]
    ensures !LineAccepted(LineParts(line)) ==> h.httpMethod == old(h.httpMethod) && h.path == old(h.path)
    ensures h.isStatic == old(h.isStatic) && h.parts == old(h.parts) && h.closeSocket == old(h.closeSocket)
  {
    var parts := LineParts(line);
    if |parts| != 2 && |parts| != 3 {
      r := Some((BAD_REQUEST, BadLine(RStripEol(line))));
    } else {
      RecordVersion(h, parts, defaultProtocol);
      r := AcceptLine(h, parts, headers);
    }
  }

  /** The version recorded from a request line of 2 or 3 parts. */
  method RecordVersion(h: HttpHandler, parts: seq<string>, defaultProtocol: string)
    modifies h
    ensures h.requestVersion == match RecordedVersion(parts, defaultProtocol)
                                case Some(v) => v
                                case None => old(h.requestVersion)
    ensures h.httpMethod == old(h.httpMethod) && h.path == old(h.path)
    ensures h.isStatic == old(h.isStatic) && h.parts == old(h.parts) && h.closeSocket == old(h.closeSocket)
  {
    var recorded := RecordedVersion(parts, defaultProtocol);
    if recorded.Some? {
      h.requestVersion := recorded.value;
    }
  }

  /** The version check of a 2- or 3-part line, then the method and path, then the headers. */
  method AcceptLine(h: HttpHandler, parts: seq<string>, headers: HeadersOutcome) returns (r: Option<(int, LineError)>)
    requires |parts| == 2 || |parts| == 3
    modifies h
    ensures r == if |parts| == 3 && VersionError(parts[2]).Some? then VersionError(parts[2]) else HeadersError(headers)
    ensures LineAccepted(parts) ==> h.httpMethod == parts[0] && h.path == parts[1]
    ensures !LineAccepted(parts) ==> h.httpMethod == old(h.httpMethod) && h.path == old(h.path)
    ensures h.requestVersion == old(h.requestVersion)
    ensures h.isStatic == old(h.isStatic) && h.parts == old(h.parts) && h.closeSocket == old(h.closeSocket)
  {
    if |parts| == 3 {
      r := CheckVersion(parts[2]);
    } else {
      r := None;
    }
    if r.None? {
      h.httpMethod, h.path := parts[0], parts[1];
      r := HeadersError(headers);
    }
  }

  /** The checks made on the version of a 3-part request line, in their order. */
  method CheckVersion(version: string) returns (r: Option<(int, LineError)>)
    ensures r == VersionError(version)
  {
    if !StartsWith(version, HTTP_PREFIX) {
      return Some((BAD_REQUEST, WrongVersion(version)));
    }
    if CountOf(version, '.') != 1 {
      return Some((BAD_REQUEST, WrongVersion(version)));
    }
    var v := ParseDecimal(version[5..]);
    if v.None? {
      return Some((BAD_REQUEST, WrongVersion(version)));
    }
    if v.value < 1.0 || v.value > 1.1 {
      return Some((HTTP_VERSION_NOT_SUPPORTED, UnsupportedVersion(version)));
    }
    return None;
  }

  /** What reading the headers answers: 431 with the start of the error's text when it fails. */
  function HeadersError(headers: HeadersOutcome): Option<(int, LineError)>
  {
    match headers
    case HeadersOk => None
    case LineTooLong(err) => Some((REQUEST_HEADER_FIELDS_TOO_LARGE, HeaderTooLong(Slice15(err))))
    case HeadersRefused(err) => Some((REQUEST_HEADER_FIELDS_TOO_LARGE, TooManyHeaders(Slice15(err))))
  }

  /** How HttpHandler.run ends before handling: the socket closed on an empty read, an error reply, or the request handled. */
  datatype RunEnd = Closed | Refused(code: int, error: Option<LineError>) | Handled(httpMethod: string, path: string)

  /** HttpHandler.run, up to the call to handle. */
  function Run(line: string, headers: HeadersOutcome): (r: RunEnd)
  {
    if line == [] then Closed
    else if |line| > MAX_LINE then Refused(REQUEST_URI_TOO_LONG, None)
    else
      match LineCheck(line, headers)
      case Some((code, e)) => Refused(code, Some(e))
      case None =>
        var parts := LineParts(line);
        if parts[0] != GET && parts[0] != POST then Refused(NOT_IMPLEMENTED, Some(WrongMethod(parts[0])))
        else Handled(parts[0], parts[1])
  }

  /** A request is refused only with one of the codes of the request-line checks. */
  lemma {:induction false} RunRefusedCodes(line: string, headers: HeadersOutcome)
    ensures Run(line, headers).Refused? ==>
              Run(line, headers).code in {BAD_REQUEST, REQUEST_URI_TOO_LONG, REQUEST_HEADER_FIELDS_TOO_LARGE, NOT_IMPLEMENTED, HTTP_VERSION_NOT_SUPPORTED}
  {
    if line != [] && |line| <= MAX_LINE {
      LineCheckCodes(line, headers);
    }
  }

  lemma {:induction false} LineCheckCodes(line: string, headers: HeadersOutcome)
    ensures LineCheck(line, headers).Some? ==>
              var code := LineCheck(line, headers).value.0;
              code == BAD_REQUEST || code == HTTP_VERSION_NOT_SUPPORTED || code == REQUEST_HEADER_FIELDS_TOO_LARGE
  {
    var parts := LineParts(line);
    if |parts| == 3 {
      VersionErrorCodes(parts[2]);
    }
  }

  lemma {:induction false} VersionErrorCodes(version: string)
    ensures VersionError(version).Some? ==>
              VersionError(version).value.0 == BAD_REQUEST || VersionError(version).value.0 == HTTP_VERSION_NOT_SUPPORTED
  {
  }

  /**
   * A request is handled exactly when the line is neither empty nor too
   * long, has 2 or 3 words with a served version, the headers are read,
   * and the method is GET or POST; it is handled with the line's method
   * and path.
   */
  lemma {:induction false} RunHandledIff(line: string, headers: HeadersOutcome)
    ensures Run(line, headers).Handled? <==>
              line != [] && |line| <= MAX_LINE && LineAccepted(LineParts(line)) && headers.HeadersOk?
              && LineParts(line)[0] in {GET, POST}
    ensures Run(line, headers).Handled? ==>
              Run(line, headers).httpMethod == LineParts(line)[0] && Run(line, headers).path == LineParts(line)[1]
  {
    LineCheckNoneIff(line, headers);
  }

  /** The request line and headers pass exactly when the line is accepted and the headers are read. */
  lemma {:induction false} LineCheckNoneIff(line: string, headers: HeadersOutcome)
    ensures LineCheck(line, headers).None? <==> LineAccepted(LineParts(line)) && headers.HeadersOk?
  {
    var parts := LineParts(line);
    if |parts| == 2 || |parts| == 3 {
      var versionOk := |parts| == 3 ==> VersionError(parts[2]).None?;
      assert LineAccepted(parts) == versionOk;
      if versionOk {
        assert LineCheck(line, headers) == HeadersError(headers);
      }
    }
  }

  lemma {:induction false} CountOfAppend(a: string, b: string, c: char)
    ensures CountOf(a + b, c) == CountOf(a, c) + CountOf(b, c)
  {
    if a != [] {
      assert (a + b)[1..] == a[1..] + b;
      CountOfAppend(a[1..], b, c);
    } else {
      assert a + b == b;
    }
  }

  /**
   * A version "HTTP/a.b" of one digit on each side is served exactly when
   * a.b lies between 1.0 and 1.1, and gets 505 otherwise.
   */
  lemma {:induction false} OneDigitVersions(a: char, b: char)
    requires IsDigit(a) && IsDigit(b)
    ensures var v := (a as int - '0' as int) as real + (b as int - '0' as int) as real / 10.0;
            VersionError(HTTP_PREFIX + [a, '.', b])
            == if v < 1.0 || v > 1.1 then Some((HTTP_VERSION_NOT_SUPPORTED, UnsupportedVersion(HTTP_PREFIX + [a, '.', b]))) else None
  {
    var t := [a, '.', b];
    var version := HTTP_PREFIX + t;
    assert version[..5] == HTTP_PREFIX && version[5..] == t;
    CountOfAppend(HTTP_PREFIX, t, '.');
    assert CountOf(HTTP_PREFIX, '.') == 0;
    assert CountOf(t, '.') == 1 by {
      assert [b][1..] == [];
      assert CountOf([b], '.') == 0;
      assert ['.', b][1..] == [b];
      assert CountOf(['.', b], '.') == 1;
      assert t[1..] == ['.', b];
    }
    OneDigitDecimal(a, b);
  }

  /** `float("a.b")` for two digits a and b. */
  lemma {:induction false} OneDigitDecimal(a: char, b: char)
    requires IsDigit(a) && IsDigit(b)
    ensures ParseDecimal([a, '.', b]) == Some((a as int - '0' as int) as real + (b as int - '0' as int) as real / 10.0)
  {
    var t := [a, '.', b];
    assert t[..1] == [a] && t[1..] == ['.', b] && t[2..] == [b];
    assert Find(t, ".") == Some(1) by {
      assert t[..1] != ".";
      assert t[1..][..1] == ".";
    }
    var x, y := [a], [b];
    assert DigitsValue(x) == a as int - '0' as int by { assert x[..0] == []; }
    assert DigitsValue(y) == b as int - '0' as int by { assert y[..0] == []; }
    assert Pow10(|y|) as real == 10.0 by { assert Pow10(1) == 10; }
    assert ParseDecimal(t) == Some(DigitsValue(x) as real + DigitsValue(y) as real / Pow10(|y|) as real);
    assert DigitsValue(y) as real / Pow10(|y|) as real == (b as int - '0' as int) as real / 10.0;
  }

  const HTTP11 := "HTTP/1.1"
  const CRLF := "\r\n"

  /**
   * A request line written as "<method> <path> HTTP/1.1" and ended by CRLF
   * is taken with that method and path, when neither holds whitespace.
   */
  lemma {:induction false} WrittenLineIsAccepted(m: string, p: string)
    requires IsWord(m) && IsWord(p)
    ensures LineParts(m + SPACE + p + SPACE + HTTP11 + CRLF) == [m, p, HTTP11]
    ensures LineAccepted(LineParts(m + SPACE + p + SPACE + HTTP11 + CRLF))
  {
    var body := m + SPACE + p + SPACE + HTTP11;
    EolStripped(body);
    var ws := [m, p, HTTP11];
    JoinThree(m, p, HTTP11);
    assert IsWord(HTTP11);
    SplitWsJoin(ws);
    Http11Served();
  }

  lemma {:induction false} Http11Served()
    ensures VersionError(HTTP11).None?
  {
    OneDigitVersions('1', '1');
    assert HTTP_PREFIX + ['1', '.', '1'] == HTTP11;
  }

  lemma {:induction false} EolStripped(body: string)
    requires body != [] && body[|body| - 1] != '\r' && body[|body| - 1] != '\n'
    ensures RStripEol(body + CRLF) == body
  {
    var line := body + CRLF;
    assert line[..|line| - 1] == body + "\r";
    assert (body + "\r")[..|body + "\r"| - 1] == body;
  }

  lemma {:induction false} JoinThree(x: string, y: string, z: string)
    ensures Join([x, y, z], SPACE) == x + SPACE + y + SPACE + z
  {
    assert [x, y, z][1..] == [y, z];
    assert [y, z][1..] == [z];
    assert Join([y, z], SPACE) == y + SPACE + z;
    assert x + SPACE + (y + SPACE + z) == x + SPACE + y + SPACE + z;
  }
}
