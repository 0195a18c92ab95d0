/**
 * Requests: how the server turns the query string, the form data (url-encoded
 * or multi-part) and the cookies of an HTTP request into the attributes of a
 * Request object, one attribute per parameter name, repeated names gathering
 * their values into a list.
 */
module Requests {
  import opened Py

  /** A parameter's value: a string, None (a parameter without "="), or an uploaded file. */
  datatype Item = Str(s: string) | NoValue | File(fileName: string, fileType: Option<string>, content: string)

  /** An attribute of the request: the value of a name given once, or the list of the values of a repeated name. */
  datatype Value = One(item: Item) | Many(items: seq<Item>)

  /** The values an attribute holds, in the order they were added; none for a missing attribute. */
  function ItemsOf(values: map<string, Value>, name: string): (r: seq<Item>)
  {
    if name !in values then []
    else match values[name]
      case One(x) => [x]
      case Many(xs) => xs
  }

  /** An attribute is a list only once two values were added to it. */
  predicate WellFormed(values: map<string, Value>)
  {
    forall n | n in values :: values[n].Many? ==> |values[n].items| >= 2
  }

  /** addValue: the name stripped; a new name keeps its value, a known one gathers the values in a list. */
  function Added(values: map<string, Value>, name: string, v: Item): (r: map<string, Value>)
  {
    var n := Strip(name);
    if n in values then
      values[n := match values[n] case One(x) => Many([x, v]) case Many(xs) => Many(xs + [v])]
    else values[n := One(v)]
  }

  /** Adding a value appends it to the values of its (stripped) name and leaves the other names alone. */
  lemma {:induction false} AddedMeaning(values: map<string, Value>, name: string, v: Item)
    requires WellFormed(values)
    ensures WellFormed(Added(values, name, v))
    ensures Added(values, name, v).Keys == values.Keys + {Strip(name)}
    ensures ItemsOf(Added(values, name, v), Strip(name)) == ItemsOf(values, Strip(name)) + [v]
    ensures forall n | n != Strip(name) :: ItemsOf(Added(values, name, v), n) == ItemsOf(values, n)
  {
  }

  /** Adding a value to a name appends it to the values of that name only. */
  lemma {:induction false} AddedItems(values: map<string, Value>, name: string, v: Item, n: string)
    requires WellFormed(values)
    ensures WellFormed(Added(values, name, v))
    ensures ItemsOf(Added(values, name, v), n) == ItemsOf(values, n) + (if Strip(name) == n then [v] else [])
  {
    AddedMeaning(values, name, v);
    if Strip(name) != n {
      assert ItemsOf(values, n) + [] == ItemsOf(values, n);
    }
  }

  /** The attributes after adding, in order, every (name, value) pair. */
  function AddAll(values: map<string, Value>, pairs: seq<(string, Item)>): map<string, Value>
    decreases |pairs|
  {
    if pairs == [] then values else AddAll(Added(values, pairs[0].0, pairs[0].1), pairs[1..])
  }

  /** The values given to a name, in order. */
  function Named(pairs: seq<(string, Item)>, n: string): seq<Item>
  {
    if pairs == [] then [] else (if Strip(pairs[0].0) == n then [pairs[0].1] else []) + Named(pairs[1..], n)
  }

  /**
   * After adding the pairs, a name holds the values it held, followed by
   * every value given to it in order: a single value as such, several as a
   * list.
   */
  lemma {:induction false} AddAllGathers(values: map<string, Value>, pairs: seq<(string, Item)>, n: string)
    requires WellFormed(values)
    ensures WellFormed(AddAll(values, pairs))
    ensures ItemsOf(AddAll(values, pairs), n) == ItemsOf(values, n) + Named(pairs, n)
    decreases |pairs|
  {
    if pairs != [] {
      var next := Added(values, pairs[0].0, pairs[0].1);
      AddedItems(values, pairs[0].0, pairs[0].1, n);
      AddAllGathers(next, pairs[1..], n);
      var here: seq<Item> := if Strip(pairs[0].0) == n then [pairs[0].1] else [];
      assert Named(pairs, n) == here + Named(pairs[1..], n);
      ConcatAssoc(ItemsOf(values, n), here, Named(pairs[1..], n));
    }
  }

  lemma {:induction false} ConcatAssoc(a: seq<Item>, b: seq<Item>, c: seq<Item>)
    ensures a + b + c == a + (b + c)
  {
  }

  /** The shape of an attribute follows from its values: one value stays as it is, more make a list. */
  lemma {:induction false} ShapeOfItems(values: map<string, Value>, n: string)
    requires WellFormed(values)
    ensures n in values <==> ItemsOf(values, n) != []
    ensures |ItemsOf(values, n)| == 1 ==> values[n] == One(ItemsOf(values, n)[0])
    ensures |ItemsOf(values, n)| >= 2 ==> values[n] == Many(ItemsOf(values, n))
  {
  }

  const EQ := "="
  const PLUS := "+"
  const DASH := "-"
  const AMP := "&"
  const SEMICOLON := ";"

  /**
   * One parameter of a query string: "<name>=<value>" or "<name>". The name
   * is unquoted; a name ending with "+" is unquoted without turning "+" into
   * spaces, one ending with "-" keeps its value raw, others use the unquoting
   * of the request kind (`unquotePlus` for form data). `unquote` and
   * `unquotePlus` stand for the functions of the URL library.
   */
  function ParamEntry(param: string, post: bool, unquote: string -> string, unquotePlus: string -> string): (string, Item)
  {
    if Contains(param, EQ) then
      var kv := SplitOnce(param, EQ);
      var name := unquote(kv[0]);
      if EndsWith(name, PLUS) then (name[..|name| - 1], Str(unquote(kv[1])))
      else if EndsWith(name, DASH) then (name[..|name| - 1], Str(kv[1]))
      else (name, Str(if post then unquotePlus(kv[1]) else unquote(kv[1])))
    else (param, NoValue)
  }

  /** The entries of all the parameters, in order. */
  function ParamEntries(params: seq<string>, post: bool, unquote: string -> string, unquotePlus: string -> string): (r: seq<(string, Item)>)
    ensures |r| == |params|
    ensures forall k | 0 <= k < |params| :: r[k] == ParamEntry(params[k], post, unquote, unquotePlus)
  {
    if params == [] then []
    else [ParamEntry(params[0], post, unquote, unquotePlus)] + ParamEntries(params[1..], post, unquote, unquotePlus)
  }

  /**
   * A parameter without "=" gives None under its own name; with "=", the
   * name is what precedes the first "=", and the value what follows it,
   * unquoted as its name's suffix says.
   */
  lemma {:induction false} ParamEntryMeaning(param: string, post: bool, unquote: string -> string, unquotePlus: string -> string)
    ensures !Contains(param, EQ) ==> ParamEntry(param, post, unquote, unquotePlus) == (param, NoValue)
    ensures Contains(param, EQ) ==>
              var kv := SplitOnce(param, EQ);
              param == kv[0] + EQ + kv[1] && !Contains(kv[0], EQ)
              && var name := unquote(kv[0]);
                 ParamEntry(param, post, unquote, unquotePlus)
                 == if EndsWith(name, PLUS) then (name[..|name| - 1], Str(unquote(kv[1])))
                    else if EndsWith(name, DASH) then (name[..|name| - 1], Str(kv[1]))
                    else (name, Str(if post then unquotePlus(kv[1]) else unquote(kv[1])))
  {
  }

  /** A raw parameter "<name>-=<value>" keeps its value as written, whatever it holds after the first "=". */
  lemma {:induction false} RawParameter(name: string, value: string, post: bool, unquote: string -> string, unquotePlus: string -> string)
    requires !Contains(name, EQ)
    requires unquote(name + DASH) == name + DASH
    ensures ParamEntry(name + DASH + EQ + value, post, unquote, unquotePlus) == (name, Str(value))
  {
    var param := name + DASH + EQ + value;
    assert !Contains(name + DASH, EQ) by {
      ContainsChar(name + DASH, '=');
      ContainsChar(name, '=');
    }
    SplitOnceAt(name + DASH, EQ, value);
    assert Contains(param, EQ) by {
      ContainsChar(param, '=');
      assert param[|name| + 1] == '=';
    }
    assert (name + DASH)[..|name + DASH| - 1] == name;
  }

  // ------------------------------------------------------------------------
  // Multi-part form data
  // ------------------------------------------------------------------------

  const CRLF := "\r\n"
  const BLANK_LINE := "\r\n\r\n"
  /** The entries a multi-part message holds that are ignored (emptyMultiparts). */
  const CLOSING := "--\r\n"
  const NAME_EQ := "name=\""
  const FILENAME_EQ := "filename=\""
  const QUOTE := '"'

  /** The length of the longest prefix of `s` without a double quote. */
  function QuoteRun(s: string): (k: nat)
    ensures k <= |s|
    ensures forall i | 0 <= i < k :: s[i] != QUOTE
    ensures k < |s| ==> s[k] == QUOTE
  {
    if s == [] || s[0] == QUOTE then 0 else 1 + QuoteRun(s[1..])
  }

  /** Where `name="<one or more non-quotes>"` matches at `i`: the end of the value and the index past the closing quote. */
  function NameAt(part: string, i: nat): (r: Option<(nat, nat)>)
    ensures r.Some? ==> i + |NAME_EQ| < r.value.0 < r.value.1 == r.value.0 + 1 <= |part|
  {
    if !OccursAt(part, NAME_EQ, i) then None
    else
      var j := i + |NAME_EQ|;
      var k := QuoteRun(part[j..]);
      if k > 0 && j + k < |part| then Some((j + k, j + k + 1)) else None
  }

  /** The leftmost match of `name="..."`, from `i` on: the start of the value, its end, and the index past it. */
  function SearchName(part: string, i: nat): (r: Option<(nat, nat, nat)>)
    ensures r.Some? ==> i + |NAME_EQ| <= r.value.0
    ensures r.Some? ==> NameAt(part, r.value.0 - |NAME_EQ|) == Some((r.value.1, r.value.2))
    decreases |part| - i
  {
    if i >= |part| then None
    else match NameAt(part, i)
      case Some((e, p)) => Some((i + |NAME_EQ|, e, p))
      case None => SearchName(part, i + 1)
  }

  /** Where `filename="<non-quotes>"` matches at `j`: the start and end of the file name. */
  function FileNameAt(part: string, j: nat): Option<(nat, nat)>
  {
    if !OccursAt(part, FILENAME_EQ, j) then None
    else
      var s := j + |FILENAME_EQ|;
      var k := QuoteRun(part[s..]);
      if s + k < |part| then Some((s, s + k)) else None
  }

  /**
   * The optional group `(?:.+filename="([^"]*)")?` after the name, at `p`:
   * the greedy `.+` makes it the last `filename="..."` starting at `p + 1`
   * or later with no line feed before it; None when there is none.
   */
  function LastFileName(part: string, p: nat, j: int): Option<(nat, nat)>
    requires p <= |part|
    decreases j
  {
    if j <= p then None
    else if '\n' !in part[p..Min(j, |part|)] && FileNameAt(part, j).Some? then FileNameAt(part, j)
    else LastFileName(part, p, j - 1)
  }

  function Min(a: int, b: int): int { if a <= b then a else b }

  /**
   * `cdRex.search(part).groups()`: the name and the optional file name of a
   * Content-Disposition line; None when the expression does not match (the
   * source then fails on None).
   */
  function Disposition(part: string): Option<(string, Option<string>)>
  {
    match SearchName(part, 0)
    case None => None
    case Some((s, e, p)) =>
      var file := match LastFileName(part, p, |part|)
                  case None => None
                  case Some((a, b)) => if a <= b <= |part| then Some(part[a..b]) else None;
      Some((part[s..e], file))
  }

  /** What the metadata lines of an entry tell: the name, the file name and the file type, as far as found. */
  datatype Meta = Meta(name: Option<string>, fileName: Option<string>, fileType: Option<string>)

  /** Why a multi-part message cannot be read. */
  datatype PartError = NoBlankLine | NoDisposition | NoFileType | NoName

  /**
   * The metadata lines, in order: the first non-empty one is the
   * Content-Disposition line; the next one is the Content-Type line, whose
   * second word is the file type.
   */
  function MetaStep(m: Meta, part: string): Result<Meta>
  {
    if part == [] then Ok(m)
    else if m.name.None? then
      match Disposition(part)
      case None => Err("NoDisposition")
      case Some((n, f)) => Ok(Meta(Some(n), f, m.fileType))
    else if m.fileType.None? then
      var words := SplitWs(part);
      if |words| < 2 then Err("NoFileType") else Ok(Meta(m.name, m.fileName, Some(words[1])))
    else Ok(m)
  }

  function MetaOf(m: Meta, parts: seq<string>): Result<Meta>
    decreases |parts|
  {
    if parts == [] then Ok(m)
    else match MetaStep(m, parts[0])
      case Err(e) => Err(e)
      case Ok(m2) => MetaOf(m2, parts[1..])
  }

  /** `value[:-2]` */
  function DropLast2(value: string): (r: string)
    ensures |r| == if |value| >= 2 then |value| - 2 else 0
  {
    if |value| >= 2 then value[..|value| - 2] else []
  }

  /**
   * One entry of a multi-part message: None when it is empty (ignored);
   * else its name and value — the text after the blank line, without its
   * trailing CRLF, wrapped as a file when a file name is given and the
   * content is not empty.
   */
  function EntryOf(entry: string): Result<Option<(string, Item)>>
  {
    if entry == "" || entry == CLOSING then Ok(None)
    else if !Contains(entry, BLANK_LINE) then Err("NoBlankLine")
    else
      var halves := SplitOnce(entry, BLANK_LINE);
      match MetaOf(Meta(None, None, None), Split(halves[0], CRLF))
      case Err(e) => Err(e)
      case Ok(m) =>
        if m.name.None? then Err("NoName")
        else
          var value := DropLast2(halves[1]);
          if m.fileName.Some? && m.fileName.value != "" && value != "" then
            Ok(Some((m.name.value, File(m.fileName.value, m.fileType, value))))
          else Ok(Some((m.name.value, Str(value))))
  }

  /** A form field written as `name="<n>"`, a blank line, its value and CRLF, reads back as that name and value. */
  lemma {:induction false} FieldRoundTrip(n: string, value: string)
    requires |n| > 0 && QUOTE !in n && '\r' !in n && '\n' !in n
    ensures EntryOf(NAME_EQ + n + [QUOTE] + BLANK_LINE + value + CRLF) == Ok(Some((n, Str(value))))
  {
    var line := NAME_EQ + n + [QUOTE];
    var tail := value + CRLF;
    var entry := line + BLANK_LINE + tail;
    assert NAME_EQ + n + [QUOTE] + BLANK_LINE + value + CRLF == entry;
    assert entry != "" && entry != CLOSING by {
      assert entry[0] == 'n' && CLOSING[0] == '-';
    }
    assert Contains(entry, BLANK_LINE) && SplitOnce(entry, BLANK_LINE) == [line, tail] by {
      assert '\r' !in line;
      SplitOnceNoSep(line, BLANK_LINE, tail);
    }
    assert MetaOf(Meta(None, None, None), Split(line, CRLF)) == Ok(Meta(Some(n), None, None)) by {
      LineHasNoCr(line, n);
      SplitNoSep(line, CRLF);
      FieldLineHasDisposition(line, n);
      assert line != [] && [line][1..] == [];
    }
    assert DropLast2(tail) == value;
  }

  lemma {:induction false} LineHasNoCr(line: string, n: string)
    requires line == NAME_EQ + n + [QUOTE] && '\r' !in n
    ensures !Contains(line, CRLF) && !Contains(line, BLANK_LINE)
  {
    assert '\r' !in line;
    FirstCharAbsent(line, CRLF);
    FirstCharAbsent(line, BLANK_LINE);
  }

  /** A text without the first character of `sep` does not contain `sep`. */
  lemma {:induction false} FirstCharAbsent(x: string, sep: string)
    requires |sep| > 0 && sep[0] !in x
    ensures !Contains(x, sep)
  {
    forall j | 0 <= j ensures !OccursAt(x, sep, j) {
      if j + |sep| <= |x| {
        assert x[j..j + |sep|][0] == x[j];
      }
    }
  }

  lemma {:induction false} FieldLineHasDisposition(line: string, n: string)
    requires line == NAME_EQ + n + [QUOTE] && |n| > 0 && QUOTE !in n
    ensures Disposition(line) == Some((n, None))
  {
    assert OccursAt(line, NAME_EQ, 0);
    var rest := line[|NAME_EQ|..];
    assert rest == n + [QUOTE];
    QuoteRunOf(n);
    assert NameAt(line, 0) == Some((|NAME_EQ| + |n|, |line|));
    assert line[|NAME_EQ|..|NAME_EQ| + |n|] == n;
  }

  lemma {:induction false} QuoteRunOf(n: string)
    requires QUOTE !in n
    ensures QuoteRun(n + [QUOTE]) == |n|
  {
    if n != [] {
      assert (n + [QUOTE])[1..] == n[1..] + [QUOTE];
      QuoteRunOf(n[1..]);
    }
  }

  /** `(x + sep + y).split(sep, 1)` is `[x, y]` when the first character of `sep` is not in `x`. */
  lemma {:induction false} SplitOnceNoSep(x: string, sep: string, y: string)
    requires |sep| > 0 && sep[0] !in x
    ensures Contains(x + sep + y, sep)
    ensures SplitOnce(x + sep + y, sep) == [x, y]
  {
    var s := x + sep + y;
    assert OccursAt(s, sep, |x|) by { assert s[|x|..|x| + |sep|] == sep; }
    forall j | 0 <= j < |x| ensures !OccursAt(s, sep, j) {
      if j + |sep| <= |s| {
        assert s[j..j + |sep|][0] == s[j] == x[j];
      }
    }
    var i := Find(s, sep).value;
    assert i == |x|;
    assert s[..i] == x;
    assert s[i + |sep|..] == y;
  }

  /** The attributes a multi-part message adds, and the error that stops the reading, if any. */
  function MultiSpec(values: map<string, Value>, entries: seq<string>): (map<string, Value>, Option<string>)
    decreases |entries|
  {
    if entries == [] then (values, None)
    else match EntryOf(entries[0])
      case Err(e) => (values, Some(e))
      case Ok(None) => MultiSpec(values, entries[1..])
      case Ok(Some((n, v))) => MultiSpec(Added(values, n, v), entries[1..])
  }

  /** A Request: its attributes, by name. */
  class Request {
    var values: map<string, Value>

    constructor()
      ensures values == map[]
    {
      values := map[];
    }

    /** addValue */
    method AddValue(name: string, v: Item)
      modifies this
      ensures values == Added(old(values), name, v)
    {
      var n := Strip(name);
      if n in values {
        match values[n] {
          case One(x) => values := values[n := Many([x, v])];
          case Many(xs) => values := values[n := Many(xs + [v])];
        }
      } else {
        values := values[n := One(v)];
      }
    }

    /** parse: one attribute per parameter of `params`, split at `sep`. */
    method Parse(params: string, sep: string, post: bool, unquote: string -> string, unquotePlus: string -> string)
      requires |sep| > 0
      modifies this
      ensures values == AddAll(old(values), ParamEntries(Split(params, sep), post, unquote, unquotePlus))
    {
      var ps := Split(params, sep);
      ghost var entries := ParamEntries(ps, post, unquote, unquotePlus);
      for i := 0 to |ps|
        invariant AddAll(old(values), entries) == AddAll(values, entries[i..])
      {
        assert entries[i..][1..] == entries[i + 1..];
        var (name, v) := ParamEntry(ps[i], post, unquote, unquotePlus);
        AddValue(name, v);
      }
    }

    /**
     * parseMultiPart: one attribute per non-empty entry of `content`, split
     * at `boundary`; a malformed entry stops the reading, the attributes of
     * the entries before it being kept.
     */
    method ParseMultiPart(content: string, boundary: string) returns (err: Option<string>)
      requires |boundary| > 0
      modifies this
      ensures (values, err) == MultiSpec(old(values), Split(content, boundary))
    {
      var entries := Split(content, boundary);
      for i := 0 to |entries|
        invariant MultiSpec(old(values), entries) == MultiSpec(values, entries[i..])
      {
        assert entries[i..][1..] == entries[i + 1..];
        var e := EntryOf(entries[i]);
        match e {
          case Err(msg) => return Some(msg);
          case Ok(None) =>
          case Ok(Some((n, v))) => AddValue(n, v);
        }
      }
      return None;
    }
  }

  const FORM_URLENCODED := "application/x-www-form-urlencoded"
  const MULTIPART := "multipart/form-data"
  const BOUNDARY_EQ := "boundary="
  const DASHES := "--"

  /**
   * Request.create: the query string (when there is one); the content, when
   * a Content-Type is given — none at all (cookies included) when it comes
   * without a Content-Length; then the cookies, separated by ";". A
   * multi-part Content-Type without "boundary=" fails (`index` raises), and
   * so does a malformed multi-part message, both skipping the cookies.
   */
  function CreateSpec(query: string, contentType: Option<string>, hasLength: bool, content: string, cookie: Option<string>,
                      unquote: string -> string, unquotePlus: string -> string): (map<string, Value>, Option<string>)
  {
    RestSpec(AddAll(map[], QueryEntries(query, unquote, unquotePlus)), contentType, hasLength, content, cookie, unquote, unquotePlus)
  }

  /** The cookies added, when there are some. */
  function WithCookies(m: map<string, Value>, cookie: Option<string>, unquote: string -> string, unquotePlus: string -> string): map<string, Value>
  {
    if cookie.Some? then AddAll(m, ParamEntries(Split(cookie.value, SEMICOLON), false, unquote, unquotePlus)) else m
  }

  /** What Request.create adds after the query parameters. */
  function RestSpec(m: map<string, Value>, contentType: Option<string>, hasLength: bool, content: string, cookie: Option<string>,
                    unquote: string -> string, unquotePlus: string -> string): (map<string, Value>, Option<string>)
  {
    if contentType.None? || contentType.value == "" then (WithCookies(m, cookie, unquote, unquotePlus), None)
    else if !hasLength then (m, None)
    else
      var ct := contentType.value;
      if ct == FORM_URLENCODED then
        (WithCookies(AddAll(m, ParamEntries(Split(content, AMP), true, unquote, unquotePlus)), cookie, unquote, unquotePlus), None)
      else if StartsWith(ct, MULTIPART) then
        match Find(ct, BOUNDARY_EQ)
        case None => (m, Some(VALUE_ERROR))
        case Some(at) =>
          var (m2, err) := MultiSpec(m, Split(content, DASHES + ct[at + |BOUNDARY_EQ|..]));
          if err.Some? then (m2, err) else (WithCookies(m2, cookie, unquote, unquotePlus), None)
      else (WithCookies(m, cookie, unquote, unquotePlus), None)
  }

  const VALUE_ERROR := "ValueError"

  method Create(query: string, contentType: Option<string>, hasLength: bool, content: string, cookie: Option<string>,
                unquote: string -> string, unquotePlus: string -> string)
    returns (req: Request, err: Option<string>)
    ensures fresh(req)
    ensures (req.values, err) == CreateSpec(query, contentType, hasLength, content, cookie, unquote, unquotePlus)
  {
    req := new Request();
    if query != "" {
      req.Parse(query, AMP, false, unquote, unquotePlus);
    }
    err := ParseRest(req, contentType, hasLength, content, cookie, unquote, unquotePlus);
  }

  /** The content and the cookies of Request.create. */
  method ParseRest(req: Request, contentType: Option<string>, hasLength: bool, content: string, cookie: Option<string>,
                   unquote: string -> string, unquotePlus: string -> string)
    returns (err: Option<string>)
    modifies req
    ensures (req.values, err) == RestSpec(old(req.values), contentType, hasLength, content, cookie, unquote, unquotePlus)
  {
    err := None;
    if contentType.Some? && contentType.value != "" {
      if !hasLength {
        return;
      }
      err := ParseContent(req, contentType.value, content, unquote, unquotePlus);
      if err.Some? {
        return;
      }
    }
    if cookie.Some? {
      req.Parse(cookie.value, SEMICOLON, false, unquote, unquotePlus);
    }
  }

  /** The content of a request, read as its Content-Type says (JSON content is not part of this model). */
  method ParseContent(req: Request, ct: string, content: string, unquote: string -> string, unquotePlus: string -> string)
    returns (err: Option<string>)
    modifies req
    ensures ct == FORM_URLENCODED ==>
              err.None? && req.values == AddAll(old(req.values), ParamEntries(Split(content, AMP), true, unquote, unquotePlus))
    ensures ct != FORM_URLENCODED && StartsWith(ct, MULTIPART) ==>
              match Find(ct, BOUNDARY_EQ)
              case None => err == Some(VALUE_ERROR) && req.values == old(req.values)
              case Some(at) => (req.values, err) == MultiSpec(old(req.values), Split(content, DASHES + ct[at + |BOUNDARY_EQ|..]))
    ensures ct != FORM_URLENCODED && !StartsWith(ct, MULTIPART) ==> err.None? && req.values == old(req.values)
  {
    err := None;
    if ct == FORM_URLENCODED {
      req.Parse(content, AMP, true, unquote, unquotePlus);
    } else if StartsWith(ct, MULTIPART) {
      var at := Find(ct, BOUNDARY_EQ);
      if at.None? {
        return Some(VALUE_ERROR);
      }
      var boundary := DASHES + ct[at.value + |BOUNDARY_EQ|..];
      err := req.ParseMultiPart(content, boundary);
    }
  }

  /** Without a Content-Length, a request with a Content-Type keeps only its query parameters: not even its cookies are read. */
  lemma {:induction false} NoLengthSkipsCookies(query: string, ct: string, content: string, cookie: Option<string>,
                             unquote: string -> string, unquotePlus: string -> string)
    requires ct != ""
    ensures CreateSpec(query, Some(ct), false, content, cookie, unquote, unquotePlus)
            == (AddAll(map[], QueryEntries(query, unquote, unquotePlus)), None)
  {
  }

  /** A request with neither content nor query holds its cookies, split at ";". */
  lemma {:induction false} CookiesAreSplitAtSemicolons(cookie: string, unquote: string -> string, unquotePlus: string -> string)
    ensures CreateSpec("", None, false, "", Some(cookie), unquote, unquotePlus)
            == (AddAll(map[], ParamEntries(Split(cookie, SEMICOLON), false, unquote, unquotePlus)), None)
  {
  }

  /** The entries of the query string: none for an empty one. */
  function QueryEntries(query: string, unquote: string -> string, unquotePlus: string -> string): seq<(string, Item)>
  {
    if query == "" then [] else ParamEntries(Split(query, AMP), false, unquote, unquotePlus)
  }
}
