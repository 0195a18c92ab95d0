/**
 * Js: Quote.js turns a value into a single-quoted Javascript string
 * literal, dropping the blanks and escaping the single quotes.
 */
module Js {
  import opened Py

  /** The values Quote.js is given; anything but a string goes through str() first. */
  datatype Value = Str(s: string) | Int(i: int) | Bool(b: bool) | NoneValue

  /** Python's str() on such a value. */
  function AsString(v: Value): string
  {
    match v
    case Str(s) => s
    case Int(i) => IntToString(i)
    case Bool(b) => if b then "True" else "False"
    case NoneValue => "None"
  }

  predicate IsBlank(c: char) { c == '\n' || c == '\t' || c == '\r' }

  /** Quote.values[withEntity] applied to one character, as the source writes it. */
  function QuoteCharAsWritten(c: char, withEntity: bool): string
  {
    if IsBlank(c) then ""
    else if c == '\'' then (if withEntity then "&apos;" else "\\'")
    else [c]
  }

  function EscapeAsWritten(s: string, withEntity: bool): string
  {
    if s == [] then "" else QuoteCharAsWritten(s[0], withEntity) + EscapeAsWritten(s[1..], withEntity)
  }

  /** Quote.js as written: the backslash itself is not escaped. */
  function QuoteAsWritten(v: Value, withEntity: bool): string
  {
    "'" + EscapeAsWritten(AsString(v), withEntity) + "'"
  }

  /** One character escaped so that the literal reads back: the backslash is doubled as well. */
  function QuoteChar(c: char, withEntity: bool): string
  {
    if c == '\\' then "\\\\" else QuoteCharAsWritten(c, withEntity)
  }

  function Escape(s: string, withEntity: bool): string
  {
    if s == [] then "" else QuoteChar(s[0], withEntity) + Escape(s[1..], withEntity)
  }

  /** Quote.js, with backslashes escaped. */
  function Quote(v: Value, withEntity: bool): (r: string)
    ensures |r| >= 2 && r[0] == '\'' && r[|r| - 1] == '\''
  {
    "'" + Escape(AsString(v), withEntity) + "'"
  }

  /** The text a literal is meant to hold: blanks dropped, and each quote turned into an entity when withEntity is set. */
  function Meant(s: string, withEntity: bool): string
  {
    if s == [] then ""
    else (if IsBlank(s[0]) then "" else if s[0] == '\'' && withEntity then "&apos;" else [s[0]]) + Meant(s[1..], withEntity)
  }

  /**
   * A Javascript reader for the body of a single-quoted literal (what
   * follows the opening quote): a quote ends it and must be the last
   * character; a backslash escapes the next character, a quote or a
   * backslash (other escape sequences are not needed here and are refused);
   * a raw line feed or carriage return is a syntax error, as is a missing
   * closing quote.
   */
  function ReadBody(t: string): Option<string>
  {
    if t == [] then None
    else if t[0] == '\'' then (if |t| == 1 then Some("") else None)
    else if t[0] == '\n' || t[0] == '\r' then None
    else if t[0] == '\\' then
      if |t| >= 2 && (t[1] == '\'' || t[1] == '\\') then
        match ReadBody(t[2..])
        case None => None
        case Some(rest) => Some([t[1]] + rest)
      else None
    else
      match ReadBody(t[1..])
      case None => None
      case Some(rest) => Some([t[0]] + rest)
  }

  function ReadLiteral(t: string): Option<string>
  {
    if t == [] || t[0] != '\'' then None else ReadBody(t[1..])
  }

  predicate Plain(u: string)
  {
    forall k | 0 <= k < |u| :: u[k] != '\'' && u[k] != '\\' && u[k] != '\n' && u[k] != '\r'
  }

  /** Characters with no meaning in a literal read as themselves. */
  lemma {:induction false} ReadPlain(u: string, rest: string)
    requires Plain(u)
    ensures ReadBody(u + rest) == match ReadBody(rest) case None => None case Some(r) => Some(u + r)
  {
    if u != [] {
      assert (u + rest)[1..] == u[1..] + rest;
      assert Plain(u[1..]) by {
        forall k | 0 <= k < |u[1..]| ensures u[1..][k] == u[k + 1] { }
      }
      ReadPlain(u[1..], rest);
      assert (u + rest)[0] == u[0];
      match ReadBody(rest) {
        case None =>
        case Some(r) => assert [u[0]] + (u[1..] + r) == u + r;
      }
    } else {
      assert u + rest == rest;
      match ReadBody(rest) {
        case None =>
        case Some(r) => assert u + r == r;
      }
    }
  }

  lemma {:induction false} ReadChar(c: char, withEntity: bool, rest: string)
    ensures ReadBody(QuoteChar(c, withEntity) + rest)
            == match ReadBody(rest)
               case None => None
               case Some(r) => Some((if IsBlank(c) then "" else if c == '\'' && withEntity then "&apos;" else [c]) + r)
  {
    var e := QuoteChar(c, withEntity);
    var t := e + rest;
    if IsBlank(c) {
      assert t == rest;
      match ReadBody(rest) {
        case None =>
        case Some(r) => assert "" + r == r;
      }
    } else if c == '\'' && withEntity {
      ReadPlain(e, rest);
    } else if c == '\'' || c == '\\' {
      assert t[2..] == rest;
    } else {
      assert t[1..] == rest;
    }
  }

  /** The literal Quote.js writes reads back as the text it is meant to hold. */
  lemma {:induction false} EscapeReads(s: string, withEntity: bool)
    ensures ReadBody(Escape(s, withEntity) + "'") == Some(Meant(s, withEntity))
  {
    if s == [] {
      assert Escape(s, withEntity) + "'" == "'";
    } else {
      EscapeReads(s[1..], withEntity);
      ReadChar(s[0], withEntity, Escape(s[1..], withEntity) + "'");
      assert Escape(s, withEntity) + "'" == QuoteChar(s[0], withEntity) + (Escape(s[1..], withEntity) + "'");
    }
  }

  lemma {:induction false} QuoteRoundTrip(v: Value, withEntity: bool)
    ensures ReadLiteral(Quote(v, withEntity)) == Some(Meant(AsString(v), withEntity))
  {
    var t := Quote(v, withEntity);
    assert t[1..] == Escape(AsString(v), withEntity) + "'";
    EscapeReads(AsString(v), withEntity);
  }

  /** The body of the literal holds no blank, and no quote at all when quotes become entities. */
  lemma {:induction false} EscapedIsClean(s: string, withEntity: bool)
    ensures forall k | 0 <= k < |Escape(s, withEntity)| ::
              !IsBlank(Escape(s, withEntity)[k]) && (withEntity ==> Escape(s, withEntity)[k] != '\'')
  {
    if s != [] {
      EscapedIsClean(s[1..], withEntity);
      var e := QuoteChar(s[0], withEntity);
      var t := Escape(s[1..], withEntity);
      assert forall k | 0 <= k < |e| :: !IsBlank(e[k]) && (withEntity ==> e[k] != '\'');
      assert forall k | 0 <= k < |e + t| :: (e + t)[k] == if k < |e| then e[k] else t[k - |e|];
    }
  }

  /** As written, a text ending in a backslash yields a literal whose closing quote is escaped, so it never ends. */
  lemma {:induction false} QuoteAsWrittenTrailingBackslash(withEntity: bool)
    ensures QuoteAsWritten(Str("\\"), withEntity) == "'\\'"
    ensures ReadLiteral(QuoteAsWritten(Str("\\"), withEntity)) == None
    ensures Meant("\\", withEntity) == "\\"
    ensures ReadLiteral(Quote(Str("\\"), withEntity)) == Some("\\")
  {
    var t := QuoteAsWritten(Str("\\"), withEntity);
    assert "\\"[1..] == "";
    assert EscapeAsWritten("\\", withEntity) == "\\";
    assert t == "'\\'";
    var b := t[1..];
    assert b == "\\'";
    assert |b| == 2 && b[0] == '\\' && b[1] == '\'' && b[2..] == "";
    assert ReadBody(b[2..]) == None;
    assert ReadBody(b) == None;
    QuoteRoundTrip(Str("\\"), withEntity);
  }
}
