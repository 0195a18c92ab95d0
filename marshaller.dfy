/**
 * The XML marshaller: writes the XML version of a Python value, field by
 * field, into a text buffer. Typed mode adds "type", "className" and "count"
 * attributes; untyped mode leaves them out and writes a list as a series of
 * homonym tags.
 */
module Marshallers {
  import opened Py
  import Escape

  /** The Python values the marshaller writes (objects hold their attributes in order). */
  datatype Value =
    | Str(s: string)
    | NoneValue
    | Bytes(data: string)
    | Bool(b: bool)
    | Int(i: int)
    | List(items: seq<Value>)
    | Tuple(items: seq<Value>)
    | Dict(entries: seq<Entry>)
    | Obj(className: string, attrs: seq<Attr>)
  {
    predicate IsList() { List? || Tuple? }
  }

  datatype Entry = Entry(key: Value, val: Value)
  datatype Attr = Attr(name: string, val: Value)

  /** The marshaller's options. */
  datatype Options = Options(
    cdata: bool,
    untyped: bool,
    rootTag: string,
    dumpXmlPrologue: bool,
    namespaces: seq<(string, string)>,
    namespacedTags: map<string, string>)

  const ANY := "_any"
  const STAR := "*"
  const ENTRY_NAME := "e"
  const KEY_NAME := "k"
  const VALUE_NAME := "v"
  const ENTRY_TAG := "entry"
  const PROLOGUE := "<?xml version=\"1.0\" encoding=\"utf-8\" ?>\n"
  const CDATA_OPEN := "<![CDATA["
  const CDATA_CLOSE := "]]>"
  const TYPE_OBJECT := " type=\"object\""

  // ------------------------------------------------------------------------
  // getTagName and mustDump
  // ------------------------------------------------------------------------

  /** getTagName: the name behind its own prefix, else behind the "*" prefix, else alone. */
  function TagName(tags: map<string, string>, name: string): (r: string)
    ensures EndsWith(r, name)
    ensures name in tags && tags[name] != "" ==> r == tags[name] + ":" + name
    ensures name !in tags && STAR in tags && tags[STAR] != "" ==> r == tags[STAR] + ":" + name
    ensures (name in tags && tags[name] == "") || (name !in tags && (STAR !in tags || tags[STAR] == "")) ==> r == name
  {
    var prefix := if name in tags then tags[name] else if STAR in tags then tags[STAR] else "";
    var r := if prefix != "" then prefix + ":" + name else name;
    assert r[|r| - |name|..] == name;
    r
  }

  /** fieldsToExclude */
  const EXCLUDED: map<string, string> := map["History" := "o"]

  /** Python's `a in b` on strings: a is a substring of b. */
  predicate IsSubstring(a: string, b: string)
    decreases |b|
  {
    StartsWith(b, a) || (b != [] && IsSubstring(a, b[1..]))
  }

  /** mustDump: the excluded names of a class are looked up with `in` on a string. */
  predicate MustDump(name: string, className: string)
  {
    className !in EXCLUDED || !IsSubstring(name, EXCLUDED[className])
  }

  /** For a History, `name not in 'o'` drops the attribute "o" and the empty name; other classes keep all. */
  lemma {:induction false} MustDumpHistory(name: string, className: string)
    ensures MustDump(name, "History") <==> name != "" && name != "o"
    ensures className != "History" ==> MustDump(name, className)
  {
    var o := "o";
    assert o[1..] == [];
    if name != "" && name != "o" {
      if |name| == 1 {
        assert name == [name[0]];
        assert name[0] != 'o';
        assert o[..1] != name;
      }
      assert !StartsWith(o, name);
      assert !StartsWith(o[1..], name);
    }
  }

  // ------------------------------------------------------------------------
  // What each dump method writes
  // ------------------------------------------------------------------------

  /** Every attribute named "_any" holds a string (the source writes it as is). */
  predicate AnyIsRaw(v: Value)
    decreases v
  {
    match v
    case List(items) => forall k | 0 <= k < |items| :: AnyIsRaw(items[k])
    case Tuple(items) => forall k | 0 <= k < |items| :: AnyIsRaw(items[k])
    case Dict(entries) => forall k | 0 <= k < |entries| :: AnyIsRaw(entries[k].key) && AnyIsRaw(entries[k].val)
    case Obj(_, attrs) => forall k | 0 <= k < |attrs| :: (attrs[k].name == ANY ==> attrs[k].val.Str?) && AnyIsRaw(attrs[k].val)
    case _ => true
  }

  /** The attributes may be dumped: their values are raw, and a string for the one named "_any". */
  predicate AttrsAreRaw(attrs: seq<Attr>)
  {
    forall k | 0 <= k < |attrs| :: (attrs[k].name == ANY ==> attrs[k].val.Str?) && AnyIsRaw(attrs[k].val)
  }

  /** The "type" attribute typesMap gives the value (None for strings and None). */
  function TypeName(v: Value): Option<string>
  {
    match v
    case Str(_) => None
    case NoneValue => None
    case Bytes(_) => Some("bytes")
    case Bool(_) => Some("bool")
    case Int(_) => Some("int")
    case List(_) => Some("list")
    case Tuple(_) => Some("tuple")
    case Dict(_) => Some("dict")
    case Obj(_, _) => Some("object")
  }

  /** dumpString: escaped, within a CDATA section when cdata is set. */
  function StringXml(o: Options, s: string): (r: string)
    ensures !o.cdata ==> r == Escape.EscapeXml(s, Escape.Xml, false)
    ensures o.cdata ==> r == CDATA_OPEN + Escape.EscapeXml(s, Escape.Xml, false) + CDATA_CLOSE
  {
    var e := Escape.EscapeXml(s, Escape.Xml, false);
    if o.cdata then CDATA_OPEN + e + CDATA_CLOSE else e
  }

  /** dumpBool */
  function BoolXml(b: bool): string
  {
    if b then "True" else "False"
  }

  function StartTag(tag: string, attrs: string): string
  {
    "<" + tag + attrs + ">"
  }

  function EndTag(tag: string): string
  {
    "</" + tag + ">"
  }

  /** The attributes of a start tag in typed mode: type, className, count. */
  function TypeAttrs(o: Options, v: Value): string
  {
    if o.untyped then ""
    else
      (if TypeName(v).Some? then " type=\"" + TypeName(v).value + "\"" else "")
      + (if v.Obj? then " className=\"" + v.className + "\"" else "")
      + (if v.IsList() then " count=\"" + NatToString(|v.items|) + "\"" else "")
  }

  /** dumpField */
  function FieldXml(o: Options, name: string, v: Value): string
    requires AnyIsRaw(v) && (name == ANY ==> v.Str?)
    decreases v, 2
  {
    if name == ANY then v.s
    else if v.IsList() && o.untyped then ItemsXml(o, name, v.items)
    else
      var tag := TagName(o.namespacedTags, name);
      StartTag(tag, TypeAttrs(o, v)) + ValueXml(o, v) + EndTag(tag)
  }

  /** One field per item, all with the same name (dumpList, and untyped lists). */
  function ItemsXml(o: Options, name: string, items: seq<Value>): string
    requires name != ANY && forall k | 0 <= k < |items| :: AnyIsRaw(items[k])
    decreases items, 0
  {
    if items == [] then "" else FieldXml(o, name, items[0]) + ItemsXml(o, name, items[1..])
  }

  /** dumpDict: an entry element per key, holding the key and the value. */
  function EntriesXml(o: Options, entries: seq<Entry>): string
    requires forall k | 0 <= k < |entries| :: AnyIsRaw(entries[k].key) && AnyIsRaw(entries[k].val)
    decreases entries, 0
  {
    if entries == [] then "" else EntryXml(o, entries[0]) + EntriesXml(o, entries[1..])
  }

  function EntryXml(o: Options, e: Entry): string
    requires AnyIsRaw(e.key) && AnyIsRaw(e.val)
    decreases e, 3
  {
    StartTag(ENTRY_TAG, if o.untyped then "" else TYPE_OBJECT)
    + FieldXml(o, KEY_NAME, e.key) + FieldXml(o, VALUE_NAME, e.val) + EndTag(ENTRY_TAG)
  }

  /** dumpObject for a non-Appy object: its attributes, except the excluded ones. */
  function AttrsXml(o: Options, className: string, attrs: seq<Attr>): string
    requires AttrsAreRaw(attrs)
    decreases attrs, 0
  {
    if attrs == [] then ""
    else
      (if MustDump(attrs[0].name, className) then FieldXml(o, attrs[0].name, attrs[0].val) else "")
      + AttrsXml(o, className, attrs[1..])
  }

  /** dumpValue: the dump method of the value's type, or str(value) when there is none. */
  function ValueXml(o: Options, v: Value): string
    requires AnyIsRaw(v)
    decreases v, 1
  {
    match v
    case Str(s) => StringXml(o, s)
    case NoneValue => StringXml(o, "")
    case Bytes(data) => StringXml(o, data)
    case Bool(b) => BoolXml(b)
    case Int(i) => IntToString(i)
    case List(items) => ItemsXml(o, ENTRY_NAME, items)
    case Tuple(items) => ItemsXml(o, ENTRY_NAME, items)
    case Dict(entries) => EntriesXml(o, entries)
    case Obj(className, attrs) => AttrsXml(o, className, attrs)
  }

  /** The namespace declarations of the root tag. */
  function NamespacesXml(namespaces: seq<(string, string)>): string
  {
    if namespaces == [] then ""
    else
      var (prefix, url) := namespaces[0];
      " " + (if prefix == "" then "xmlns" else "xmlns:" + prefix) + "=\"" + url + "\"" + NamespacesXml(namespaces[1..])
  }

  /** dumpRootTag, for an object that is not an Appy object. */
  function RootTagXml(o: Options): string
  {
    StartTag(TagName(o.namespacedTags, o.rootTag), (if o.untyped then "" else TYPE_OBJECT) + NamespacesXml(o.namespaces))
  }

  /** `getattr(o, name, None)` */
  function Lookup(attrs: seq<Attr>, name: string): (r: Value)
    ensures AttrsAreRaw(attrs) ==> AnyIsRaw(r) && (name == ANY ==> r.Str? || r.NoneValue?)
  {
    if attrs == [] then NoneValue
    else if attrs[0].name == name then attrs[0].val
    else Lookup(attrs[1..], name)
  }

  /** getattr answers the value of the first attribute of that name, and None exactly when there is none. */
  lemma {:induction false} LookupMeaning(attrs: seq<Attr>, name: string)
    ensures (forall k | 0 <= k < |attrs| :: attrs[k].name != name) ==> Lookup(attrs, name) == NoneValue
    ensures forall k | 0 <= k < |attrs| && attrs[k].name == name && (forall j | 0 <= j < k :: attrs[j].name != name) ::
              Lookup(attrs, name) == attrs[k].val
  {
    if attrs != [] {
      LookupMeaning(attrs[1..], name);
      if forall k | 0 <= k < |attrs| :: attrs[k].name != name {
        forall k | 0 <= k < |attrs| - 1 ensures attrs[1..][k].name != name {
          assert attrs[1..][k] == attrs[k + 1];
        }
      }
      forall k | 0 <= k < |attrs| && attrs[k].name == name && (forall j | 0 <= j < k :: attrs[j].name != name)
        ensures Lookup(attrs, name) == attrs[k].val
      {
        if k > 0 {
          assert attrs[1..][k - 1] == attrs[k];
          forall j | 0 <= j < k - 1 ensures attrs[1..][j].name != name {
            assert attrs[1..][j] == attrs[j + 1];
          }
        }
      }
    }
  }

  /** The root object's attributes named in fieldNames, in that order. */
  function NamedXml(o: Options, className: string, attrs: seq<Attr>, names: seq<string>): string
    requires AttrsAreRaw(attrs)
    requires ANY !in names
  {
    if names == [] then ""
    else
      (if MustDump(names[0], className) then FieldXml(o, names[0], Lookup(attrs, names[0])) else "")
      + NamedXml(o, className, attrs, names[1..])
  }

  /**
   * marshall: the prologue when asked; an object as the root tag holding its
   * attributes (those of fieldNames, in order, when given); any other value
   * as a single field named after the root tag.
   */
  function MarshallXml(o: Options, v: Value, fieldNames: seq<string>): string
    requires AnyIsRaw(v) && (o.rootTag == ANY ==> v.Str?) && ANY !in fieldNames
  {
    (if o.dumpXmlPrologue then PROLOGUE else "")
    + match v
      case Obj(className, attrs) =>
        RootTagXml(o)
        + (if fieldNames != [] then NamedXml(o, className, attrs, fieldNames) else AttrsXml(o, className, attrs))
        + EndTag(TagName(o.namespacedTags, o.rootTag))
      case _ => FieldXml(o, o.rootTag, v)
  }

  // ------------------------------------------------------------------------
  // The buffer and the marshaller's methods
  // ------------------------------------------------------------------------

  lemma {:induction false} EmptyPrefix(s: string)
    ensures "" + s == s
  {
  }

  /** Regrouping what is written in several steps. */
  lemma {:induction false} Assoc(a: string, b: string, c: string)
    ensures a + (b + c) == a + b + c
  {
  }

  /** The StringIO the result is written to. */
  class Buffer {
    var text: string

    constructor()
      ensures text == ""
    {
      text := "";
    }

    method Write(s: string)
      modifies this
      ensures text == old(text) + s
    {
      text := text + s;
    }
  }

  class Marshaller {
    const opts: Options

    constructor(opts: Options)
      ensures this.opts == opts
    {
      this.opts := opts;
    }

    method DumpString(r: Buffer, s: string)
      modifies r
      ensures r.text == old(r.text) + StringXml(opts, s)
    {
      if opts.cdata {
        r.Write(CDATA_OPEN);
      }
      r.Write(Escape.EscapeXml(s, Escape.Xml, false));
      if opts.cdata {
        r.Write(CDATA_CLOSE);
      }
    }

    method DumpField(r: Buffer, name: string, v: Value)
      requires AnyIsRaw(v) && (name == ANY ==> v.Str?)
      modifies r
      ensures r.text == old(r.text) + FieldXml(opts, name, v)
      decreases v, 2
    {
      if name == ANY {
        r.Write(v.s);
        return;
      }
      if v.IsList() && opts.untyped {
        DumpItems(r, name, v.items);
        return;
      }
      var tag := TagName(opts.namespacedTags, name);
      ghost var before := r.text;
      var start := StartTag(tag, TypeAttrs(opts, v));
      r.Write(start);
      DumpValue(r, v);
      Assoc(before, start, ValueXml(opts, v));
      r.Write(EndTag(tag));
      Assoc(before, start + ValueXml(opts, v), EndTag(tag));
    }

    /** The loop of dumpList (name "e") and of an untyped list (the field's name). */
    method DumpItems(r: Buffer, name: string, items: seq<Value>)
      requires name != ANY && forall k | 0 <= k < |items| :: AnyIsRaw(items[k])
      modifies r
      ensures r.text == old(r.text) + ItemsXml(opts, name, items)
      decreases items, 0
    {
      var k := 0;
      while k < |items|
        invariant 0 <= k <= |items|
        invariant old(r.text) + ItemsXml(opts, name, items) == r.text + ItemsXml(opts, name, items[k..])
      {
        assert items[k..][1..] == items[k + 1..];
        Assoc(r.text, FieldXml(opts, name, items[k]), ItemsXml(opts, name, items[k + 1..]));
        DumpField(r, name, items[k]);
        k := k + 1;
      }
    }

    method DumpDict(r: Buffer, entries: seq<Entry>)
      requires forall k | 0 <= k < |entries| :: AnyIsRaw(entries[k].key) && AnyIsRaw(entries[k].val)
      modifies r
      ensures r.text == old(r.text) + EntriesXml(opts, entries)
      decreases entries, 0
    {
      var k := 0;
      while k < |entries|
        invariant 0 <= k <= |entries|
        invariant old(r.text) + EntriesXml(opts, entries) == r.text + EntriesXml(opts, entries[k..])
      {
        assert entries[k..][1..] == entries[k + 1..];
        Assoc(r.text, EntryXml(opts, entries[k]), EntriesXml(opts, entries[k + 1..]));
        DumpEntry(r, entries[k]);
        k := k + 1;
      }
    }

    /** The body of dumpDict's loop. */
    method DumpEntry(r: Buffer, e: Entry)
      requires AnyIsRaw(e.key) && AnyIsRaw(e.val)
      modifies r
      ensures r.text == old(r.text) + EntryXml(opts, e)
      decreases e, 3
    {
      ghost var before := r.text;
      var start := StartTag(ENTRY_TAG, if opts.untyped then "" else TYPE_OBJECT);
      r.Write(start);
      DumpField(r, KEY_NAME, e.key);
      Assoc(before, start, FieldXml(opts, KEY_NAME, e.key));
      DumpField(r, VALUE_NAME, e.val);
      Assoc(before, start + FieldXml(opts, KEY_NAME, e.key), FieldXml(opts, VALUE_NAME, e.val));
      r.Write(EndTag(ENTRY_TAG));
      Assoc(before, start + FieldXml(opts, KEY_NAME, e.key) + FieldXml(opts, VALUE_NAME, e.val), EndTag(ENTRY_TAG));
    }

    method DumpObject(r: Buffer, className: string, attrs: seq<Attr>)
      requires AttrsAreRaw(attrs)
      modifies r
      ensures r.text == old(r.text) + AttrsXml(opts, className, attrs)
      decreases attrs, 0
    {
      var k := 0;
      while k < |attrs|
        invariant 0 <= k <= |attrs|
        invariant old(r.text) + AttrsXml(opts, className, attrs) == r.text + AttrsXml(opts, className, attrs[k..])
      {
        assert attrs[k..][1..] == attrs[k + 1..];
        if MustDump(attrs[k].name, className) {
          Assoc(r.text, FieldXml(opts, attrs[k].name, attrs[k].val), AttrsXml(opts, className, attrs[k + 1..]));
          DumpField(r, attrs[k].name, attrs[k].val);
        } else {
          assert AttrsXml(opts, className, attrs[k..]) == AttrsXml(opts, className, attrs[k + 1..]);
        }
        k := k + 1;
      }
    }

    method DumpValue(r: Buffer, v: Value)
      requires AnyIsRaw(v)
      modifies r
      ensures r.text == old(r.text) + ValueXml(opts, v)
      decreases v, 1
    {
      match v {
        case Str(s) => DumpString(r, s);
        case NoneValue => DumpString(r, "");
        case Bytes(data) => DumpString(r, data);
        case Bool(b) => r.Write(BoolXml(b));
        case Int(i) => r.Write(IntToString(i));
        case List(items) => DumpItems(r, ENTRY_NAME, items);
        case Tuple(items) => DumpItems(r, ENTRY_NAME, items);
        case Dict(entries) => DumpDict(r, entries);
        case Obj(className, attrs) => DumpObject(r, className, attrs);
      }
    }

    /** dumpObject's loop over the field names it is given: getattr gives None for a missing attribute. */
    method DumpNamed(r: Buffer, className: string, attrs: seq<Attr>, names: seq<string>)
      requires AttrsAreRaw(attrs) && ANY !in names
      modifies r
      ensures r.text == old(r.text) + NamedXml(opts, className, attrs, names)
    {
      var k := 0;
      while k < |names|
        invariant 0 <= k <= |names|
        invariant old(r.text) + NamedXml(opts, className, attrs, names) == r.text + NamedXml(opts, className, attrs, names[k..])
      {
        assert names[k..][1..] == names[k + 1..];
        if MustDump(names[k], className) {
          Assoc(r.text, FieldXml(opts, names[k], Lookup(attrs, names[k])), NamedXml(opts, className, attrs, names[k + 1..]));
          DumpField(r, names[k], Lookup(attrs, names[k]));
        } else {
          assert NamedXml(opts, className, attrs, names[k..]) == NamedXml(opts, className, attrs, names[k + 1..]);
        }
        k := k + 1;
      }
    }

    /** marshall, to a string. */
    method Marshall(v: Value, fieldNames: seq<string>) returns (xml: string)
      requires AnyIsRaw(v) && (opts.rootTag == ANY ==> v.Str?) && ANY !in fieldNames
      ensures xml == MarshallXml(opts, v, fieldNames)
    {
      var r := new Buffer();
      if opts.dumpXmlPrologue {
        r.Write(PROLOGUE);
        EmptyPrefix(PROLOGUE);
      }
      ghost var prologue := r.text;
      assert prologue == if opts.dumpXmlPrologue then PROLOGUE else "";
      if v.Obj? {
        var tag := TagName(opts.namespacedTags, opts.rootTag);
        ghost var fields := if fieldNames != [] then NamedXml(opts, v.className, v.attrs, fieldNames)
                            else AttrsXml(opts, v.className, v.attrs);
        r.Write(RootTagXml(opts));
        if fieldNames != [] {
          DumpNamed(r, v.className, v.attrs, fieldNames);
        } else {
          DumpObject(r, v.className, v.attrs);
        }
        Assoc(prologue, RootTagXml(opts), fields);
        r.Write(EndTag(tag));
        Assoc(prologue, RootTagXml(opts) + fields, EndTag(tag));
      } else {
        DumpField(r, opts.rootTag, v);
      }
      xml := r.text;
    }
  }

  // ------------------------------------------------------------------------
  // Properties
  // ------------------------------------------------------------------------

  /** In typed mode a list or tuple carries its type and count=len(value), and holds one "e" field per item. */
  lemma {:induction false} TypedListCount(o: Options, name: string, items: seq<Value>)
    requires !o.untyped && name != ANY && forall k | 0 <= k < |items| :: AnyIsRaw(items[k])
    ensures var tag := TagName(o.namespacedTags, name);
            && FieldXml(o, name, List(items))
               == StartTag(tag, " type=\"" + "list" + "\"" + " count=\"" + NatToString(|items|) + "\"") + ItemsXml(o, ENTRY_NAME, items) + EndTag(tag)
            && FieldXml(o, name, Tuple(items))
               == StartTag(tag, " type=\"" + "tuple" + "\"" + " count=\"" + NatToString(|items|) + "\"") + ItemsXml(o, ENTRY_NAME, items) + EndTag(tag)
  {
    TypedKindCount(o, name, List(items), "list");
    TypedKindCount(o, name, Tuple(items), "tuple");
  }

  /** A typed list or tuple of kind `kind`: its tag with the type and count attributes, around one entry field per item. */
  lemma {:induction false} TypedKindCount(o: Options, name: string, v: Value, kind: string)
    requires !o.untyped && name != ANY && v.IsList() && AnyIsRaw(v)
    requires kind == if v.List? then "list" else "tuple"
    ensures var tag := TagName(o.namespacedTags, name);
            FieldXml(o, name, v)
            == StartTag(tag, " type=\"" + kind + "\"" + " count=\"" + NatToString(|v.items|) + "\"") + ItemsXml(o, ENTRY_NAME, v.items) + EndTag(tag)
  {
    var n := NatToString(|v.items|);
    var typeAttr := " type=\"" + kind + "\"";
    assert TypeAttrs(o, v) == typeAttr + "" + (" count=\"" + n + "\"");
    AttrsRegroup(typeAttr, " count=\"", n, "\"");
  }

  lemma {:induction false} AttrsRegroup(a: string, b: string, c: string, d: string)
    ensures a + "" + (b + c + d) == a + b + c + d
  {
    assert a + "" == a;
  }

  /** In untyped mode a list is the concatenation of one homonym field per item, with no list tag around. */
  lemma {:induction false} UntypedListHomonyms(o: Options, name: string, items: seq<Value>)
    requires o.untyped && name != ANY && forall k | 0 <= k < |items| :: AnyIsRaw(items[k])
    ensures AnyIsRaw(List(items))
    ensures FieldXml(o, name, List(items)) == Concat(seq(|items|, k requires 0 <= k < |items| => FieldXml(o, name, items[k])))
  {
    ItemsAreFields(o, name, items);
  }

  lemma {:induction false} ItemsAreFields(o: Options, name: string, items: seq<Value>)
    requires name != ANY && forall k | 0 <= k < |items| :: AnyIsRaw(items[k])
    ensures ItemsXml(o, name, items) == Concat(seq(|items|, k requires 0 <= k < |items| => FieldXml(o, name, items[k])))
    decreases |items|
  {
    var fields := seq(|items|, k requires 0 <= k < |items| => FieldXml(o, name, items[k]));
    if items != [] {
      ItemsAreFields(o, name, items[1..]);
      assert fields[1..] == seq(|items[1..]|, k requires 0 <= k < |items[1..]| => FieldXml(o, name, items[1..][k]));
    }
  }

  /**
   * A string field is its tag around the escaped text, within a CDATA
   * section when asked. The escaped text holds no '<', so the element cannot
   * end early, and reading its entities back gives the string.
   */
  lemma {:induction false} StringFieldReadsBack(o: Options, name: string, s: string)
    requires name != ANY
    ensures var tag := TagName(o.namespacedTags, name);
            var text := Escape.EscapeXml(s, Escape.Xml, false);
            && FieldXml(o, name, Str(s)) == StartTag(tag, "") + StringXml(o, s) + EndTag(tag)
            && StringXml(o, s) == (if o.cdata then CDATA_OPEN + text + CDATA_CLOSE else text)
            && '<' !in text
            && Escape.Unescape(text) == s
  {
    var text := Escape.EscapeXml(s, Escape.Xml, false);
    assert TypeAttrs(o, Str(s)) == "";
    Escape.XmlEscapedIsInert(s, false);
    Escape.XmlRoundTrip(s, false);
    assert '<' !in text by {
      forall k | 0 <= k < |text| ensures text[k] != '<' {
      }
    }
  }

  /** "_any" writes the string as is, without a tag; booleans are written "True" and "False". */
  lemma {:induction false} AnyAndBools(o: Options, s: string, name: string, b: bool)
    requires name != ANY && !o.untyped
    ensures FieldXml(o, ANY, Str(s)) == s
    ensures FieldXml(o, name, Bool(b))
            == StartTag(TagName(o.namespacedTags, name), " type=\"bool\"") + (if b then "True" else "False")
               + EndTag(TagName(o.namespacedTags, name))
  {
    assert TypeAttrs(o, Bool(b)) == " type=\"bool\"";
  }

  /** A value that is not an object is marshalled as one field named after the root tag. */
  lemma {:induction false} NonObjectRoot(o: Options, v: Value)
    requires !v.Obj? && AnyIsRaw(v) && (o.rootTag == ANY ==> v.Str?)
    ensures MarshallXml(o, v, []) == (if o.dumpXmlPrologue then PROLOGUE else "") + FieldXml(o, o.rootTag, v)
  {
  }

  /** Excluded attributes are skipped: a History's "o" attribute leaves no trace. */
  lemma {:induction false} HistorySkipsO(o: Options, v: Value, rest: seq<Attr>)
    requires AnyIsRaw(v) && AttrsAreRaw(rest)
    ensures AttrsAreRaw([Attr("o", v)] + rest)
    ensures AttrsXml(o, "History", [Attr("o", v)] + rest) == AttrsXml(o, "History", rest)
  {
    MustDumpHistory("o", "History");
    var all := [Attr("o", v)] + rest;
    assert all[1..] == rest;
  }
}
