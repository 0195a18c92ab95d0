/**
 * Escape: replaces the characters XML gives a meaning to by entities, for
 * the plain XML, ODF and XHTML flavours; the ODF and XHTML flavours also
 * rewrite the "blanks" (line feed, tab, carriage return).
 */
module Escape {
  import opened Py

  /** The flavours of Escape.rexAll; "odf*" and "xhtml*" are OdfTab and XhtmlParagraphs. */
  datatype Flavour = Xml | Odf | OdfTab | Xhtml | XhtmlParagraphs

  const PARAGRAPH_OPEN := "<p>"
  const PARAGRAPH_CLOSE := "</p>"
  const PARAGRAPH_BREAK := PARAGRAPH_CLOSE + PARAGRAPH_OPEN
  const LINE_BREAK := "<br/>"

  /** Escape.chars */
  predicate IsBaseChar(c: char) { c == '<' || c == '>' || c == '&' || c == '"' }

  /** Escape.blanks */
  predicate IsBlank(c: char) { c == '\n' || c == '\t' || c == '\r' }

  /** The characters the flavour's regular expression matches. */
  predicate Matched(flavour: Flavour, escapeApos: bool, c: char)
  {
    IsBaseChar(c) || (escapeApos && c == '\'') || (flavour != Xml && IsBlank(c))
  }

  /** Escape.entities */
  function Entity(c: char): string
    requires IsBaseChar(c) || c == '\''
  {
    match c
    case '<' => "&lt;"
    case '>' => "&gt;"
    case '&' => "&amp;"
    case '"' => "&quot;"
    case '\'' => "&apos;"
  }

  /** Escape.values[flavour] for a blank. */
  function BlankValue(flavour: Flavour, c: char): string
    requires flavour != Xml && IsBlank(c)
  {
    if c == '\r' then ""
    else match flavour
      case Odf => if c == '\n' then "<text:line-break/>" else "<text:tab/>"
      case OdfTab => if c == '\n' then "<text:tab/><text:line-break/>" else "<text:tab/>"
      case Xhtml => if c == '\n' then LINE_BREAK else ""
      case XhtmlParagraphs => if c == '\n' then PARAGRAPH_BREAK else ""
  }

  /** What Escape.xml writes for one character. */
  function EscapeChar(flavour: Flavour, escapeApos: bool, c: char): string
  {
    if !Matched(flavour, escapeApos, c) then [c]
    else if IsBlank(c) then BlankValue(flavour, c)
    else Entity(c)
  }

  /** Escape.xml: each matched character replaced by its value, the others kept. */
  function EscapeXml(s: string, flavour: Flavour, escapeApos: bool): string
  {
    if s == [] then "" else EscapeChar(flavour, escapeApos, s[0]) + EscapeXml(s[1..], flavour, escapeApos)
  }

  /** Escape.xhtml: in paragraph mode the text is wrapped in <p>...</p>. */
  function EscapeXhtml(s: string, p: bool): string
  {
    if p then PARAGRAPH_OPEN + EscapeXml(s, XhtmlParagraphs, false) + PARAGRAPH_CLOSE else EscapeXml(s, Xhtml, false)
  }

  /** The plain XML flavour only rewrites < > & " (and ' when asked); every other character, the blanks included, is kept. */
  lemma {:induction false} XmlFlavourChars(escapeApos: bool, c: char)
    ensures !IsBaseChar(c) && !(escapeApos && c == '\'') ==> EscapeChar(Xml, escapeApos, c) == [c]
    ensures IsBaseChar(c) ==> EscapeChar(Xml, escapeApos, c) == Entity(c)
    ensures escapeApos && c == '\'' ==> EscapeChar(Xml, escapeApos, c) == "&apos;"
    ensures !escapeApos && c == '\'' ==> EscapeChar(Xml, escapeApos, c) == "'"
    ensures IsBlank(c) ==> EscapeChar(Xml, escapeApos, c) == [c]
  {
  }

  /** XHTML rewrites a line feed as <br/> (a paragraph break in paragraph mode) and drops tabs and carriage returns. */
  lemma {:induction false} XhtmlBlanks(c: char)
    requires IsBlank(c)
    ensures EscapeChar(Xhtml, false, c) == (if c == '\n' then LINE_BREAK else "")
    ensures EscapeChar(XhtmlParagraphs, false, c) == (if c == '\n' then PARAGRAPH_BREAK else "")
  {
  }

  /** ODF rewrites a line feed as a line break and a tab as a tab element. */
  lemma {:induction false} OdfBlanks(escapeApos: bool, c: char)
    requires IsBlank(c)
    ensures EscapeChar(Odf, escapeApos, c)
            == (if c == '\n' then "<text:line-break/>" else if c == '\t' then "<text:tab/>" else "")
  {
  }

  /** An escaped text holds none of < > " in the XML flavour (nor ' when escaped): the entities and kept characters cannot close a tag or an attribute. */
  lemma {:induction false} XmlEscapedIsInert(s: string, escapeApos: bool)
    ensures forall k | 0 <= k < |EscapeXml(s, Xml, escapeApos)| ::
              var c := EscapeXml(s, Xml, escapeApos)[k];
              c != '<' && c != '>' && c != '"' && (escapeApos ==> c != '\'')
  {
    if s != [] {
      XmlEscapedIsInert(s[1..], escapeApos);
      var e := EscapeChar(Xml, escapeApos, s[0]);
      var t := EscapeXml(s[1..], Xml, escapeApos);
      assert forall k | 0 <= k < |e| :: e[k] != '<' && e[k] != '>' && e[k] != '"' && (escapeApos ==> e[k] != '\'');
      assert forall k | 0 <= k < |e + t| :: (e + t)[k] == if k < |e| then e[k] else t[k - |e|];
    }
  }

  /** Reading XML character data: the five predefined entities decoded, other characters kept. */
  function Unescape(t: string): string
  {
    if t == [] then ""
    else if |t| >= 4 && t[0] == '&' && t[1] == 'l' && t[2] == 't' && t[3] == ';' then "<" + Unescape(t[4..])
    else if |t| >= 4 && t[0] == '&' && t[1] == 'g' && t[2] == 't' && t[3] == ';' then ">" + Unescape(t[4..])
    else if |t| >= 5 && t[0] == '&' && t[1] == 'a' && t[2] == 'm' && t[3] == 'p' && t[4] == ';' then "&" + Unescape(t[5..])
    else if |t| >= 6 && t[0] == '&' && t[1] == 'q' && t[2] == 'u' && t[3] == 'o' && t[4] == 't' && t[5] == ';' then "\"" + Unescape(t[6..])
    else if |t| >= 6 && t[0] == '&' && t[1] == 'a' && t[2] == 'p' && t[3] == 'o' && t[4] == 's' && t[5] == ';' then "'" + Unescape(t[6..])
    else [t[0]] + Unescape(t[1..])
  }

  lemma {:induction false} UnescapeChar(c: char, escapeApos: bool, rest: string)
    ensures Unescape(EscapeChar(Xml, escapeApos, c) + rest) == [c] + Unescape(rest)
  {
    var e := EscapeChar(Xml, escapeApos, c);
    var t := e + rest;
    assert t[|e|..] == rest;
    if Matched(Xml, escapeApos, c) {
      assert t[0] == '&';
    } else {
      assert t[0] == c && t[1..] == rest;
    }
  }

  /** Reading back the XML flavour's output gives the text that was escaped. */
  lemma {:induction false} XmlRoundTrip(s: string, escapeApos: bool)
    ensures Unescape(EscapeXml(s, Xml, escapeApos)) == s
  {
    if s != [] {
      XmlRoundTrip(s[1..], escapeApos);
      UnescapeChar(s[0], escapeApos, EscapeXml(s[1..], Xml, escapeApos));
      assert s == [s[0]] + s[1..];
    }
  }

  lemma {:induction false} EscapeAppend(a: string, b: string, flavour: Flavour, escapeApos: bool)
    ensures EscapeXml(a + b, flavour, escapeApos) == EscapeXml(a, flavour, escapeApos) + EscapeXml(b, flavour, escapeApos)
  {
    if a != [] {
      assert (a + b)[1..] == a[1..] + b;
      EscapeAppend(a[1..], b, flavour, escapeApos);
    } else {
      assert a + b == b;
    }
  }

  /** The lines of a text, as split at the line feeds. */
  function Lines(s: string): seq<string>
    decreases |s|
  {
    if '\n' !in s then [s]
    else
      var i := FirstLineFeed(s);
      [s[..i]] + Lines(s[i + 1..])
  }

  function FirstLineFeed(s: string): (i: nat)
    requires '\n' in s
    ensures i < |s| && s[i] == '\n' && '\n' !in s[..i]
  {
    if s[0] == '\n' then 0
    else
      var j := FirstLineFeed(s[1..]);
      assert s[..j + 1] == [s[0]] + s[1..][..j];
      j + 1
  }

  /** The escaping of a line without line feeds, for XHTML paragraphs. */
  function Paragraph(line: string): string
  {
    PARAGRAPH_OPEN + EscapeXml(line, XhtmlParagraphs, false) + PARAGRAPH_CLOSE
  }

  /** The paragraphs of a sequence of lines, one after the other. */
  function Paragraphs(lines: seq<string>): string
  {
    if lines == [] then "" else Paragraph(lines[0]) + Paragraphs(lines[1..])
  }

  lemma {:induction false} EscapeCons(c: char, b: string, flavour: Flavour, escapeApos: bool)
    ensures EscapeXml([c] + b, flavour, escapeApos) == EscapeChar(flavour, escapeApos, c) + EscapeXml(b, flavour, escapeApos)
  {
    assert ([c] + b)[1..] == b;
  }

  lemma {:induction false} EscapeAt(s: string, i: nat, flavour: Flavour, escapeApos: bool)
    requires i < |s|
    ensures EscapeXml(s, flavour, escapeApos)
            == EscapeXml(s[..i], flavour, escapeApos) + (EscapeChar(flavour, escapeApos, s[i]) + EscapeXml(s[i + 1..], flavour, escapeApos))
  {
    assert s == s[..i] + ([s[i]] + s[i + 1..]);
    EscapeAppend(s[..i], [s[i]] + s[i + 1..], flavour, escapeApos);
    EscapeCons(s[i], s[i + 1..], flavour, escapeApos);
  }

  lemma {:induction false} EscapeAtLineFeed(s: string, i: nat)
    requires i < |s| && s[i] == '\n'
    ensures EscapeXml(s, XhtmlParagraphs, false)
            == EscapeXml(s[..i], XhtmlParagraphs, false) + (PARAGRAPH_CLOSE + PARAGRAPH_OPEN + EscapeXml(s[i + 1..], XhtmlParagraphs, false))
  {
    EscapeAt(s, i, XhtmlParagraphs, false);
    XhtmlBlanks(s[i]);
  }

  lemma {:induction false} ParagraphsOfLines(s: string, i: nat)
    requires '\n' in s && i == FirstLineFeed(s)
    ensures Paragraphs(Lines(s)) == Paragraph(s[..i]) + Paragraphs(Lines(s[i + 1..]))
  {
    var rest := Lines(s[i + 1..]);
    var ls := Lines(s);
    assert ls == [s[..i]] + rest;
    assert ls[0] == s[..i] && ls[1..] == rest;
  }

  lemma {:induction false} ParagraphsAtLineFeed(s: string)
    requires '\n' in s
    requires EscapeXhtml(s[FirstLineFeed(s) + 1..], true) == Paragraphs(Lines(s[FirstLineFeed(s) + 1..]))
    ensures EscapeXhtml(s, true) == Paragraphs(Lines(s))
  {
    var i := FirstLineFeed(s);
    EscapeAtLineFeed(s, i);
    ParagraphsOfLines(s, i);
    var a, b := EscapeXml(s[..i], XhtmlParagraphs, false), EscapeXml(s[i + 1..], XhtmlParagraphs, false);
    Regroup(PARAGRAPH_OPEN, a, PARAGRAPH_CLOSE, b);
  }

  lemma {:induction false} Regroup(open: string, a: string, close: string, b: string)
    ensures open + (a + (close + open + b)) + close == (open + a + close) + (open + b + close)
  {
  }

  /** In paragraph mode, each line of the text becomes a paragraph of its own. */
  lemma {:induction false} XhtmlParagraphsPerLine(s: string)
    ensures EscapeXhtml(s, true) == Paragraphs(Lines(s))
    decreases |s|
  {
    if '\n' !in s {
      assert Lines(s) == [s];
      assert Lines(s)[1..] == [];
      assert Paragraphs(Lines(s)) == Paragraph(s) + Paragraphs([]);
    } else {
      XhtmlParagraphsPerLine(s[FirstLineFeed(s) + 1..]);
      ParagraphsAtLineFeed(s);
    }
  }
}
