/**
 * ODT splitting: the parser that cuts the content.xml of a document into the
 * part common to every sub-document (what comes before the payload and what
 * comes after it) and one chunk of payload per sub-document, a new chunk
 * starting at every element styled with a style tied to a page style.
 */
module OdtSplit {
  import opened Py

  const AUTOMATIC_STYLES := "office:automatic-styles"
  const STYLE := "style:style"
  const MASTER_PAGE_NAME := "style:master-page-name"
  const STYLE_NAME := "style:name"
  const TEXT_STYLE_NAME := "text:style-name"
  const SEQUENCE_DECLS := "text:sequence-decls"
  const OFFICE_TEXT := "office:text"
  const KEY_ERROR := "KeyError"

  /** Where parsed content goes: the common start or end, the last chunk, or a chunk to create. */
  datatype State = CommonStart | CommonEnd | ChunkLast | ChunkNew
  {
    predicate InPayload() { this == ChunkLast || this == ChunkNew }
  }

  /** Element attributes, in document order (their names are distinct). */
  type Attrs = seq<(string, string)>

  function Get(attrs: Attrs, name: string): (r: Option<string>)
    ensures r.Some? ==> (name, r.value) in attrs
    ensures r.None? ==> forall k | 0 <= k < |attrs| :: attrs[k].0 != name
  {
    if attrs == [] then None
    else if attrs[0].0 == name then Some(attrs[0].1)
    else Get(attrs[1..], name)
  }

  /** ` name="value"` for each attribute, in order. */
  function AttrsText(attrs: Attrs): string
  {
    if attrs == [] then "" else " " + attrs[0].0 + "=\"" + attrs[0].1 + "\"" + AttrsText(attrs[1..])
  }

  /** The start tag that dumpStartTag writes. */
  function StartTag(elem: string, attrs: Attrs): (r: string)
    ensures StartsWith(r, "<" + elem) && |r| > 0 && r[|r| - 1] == '>'
  {
    var r := "<" + elem + AttrsText(attrs) + ">";
    assert r[..|"<" + elem|] == "<" + elem;
    r
  }

  function EndTag(elem: string): string
  {
    "</" + elem + ">"
  }

  /** The parser's data, as a value. */
  datatype Parse = Parse(commonStart: seq<string>, commonEnd: seq<string>, chunks: seq<seq<string>>,
                         splitStyles: map<string, string>, state: State, inStyles: bool)

  /**
   * The order of the parts: nothing is put in a chunk or in the common end
   * before the common start is over, nothing is put in the common end while in
   * the payload, and the last chunk exists once the parser writes to it.
   */
  predicate Phased(p: Parse)
  {
    && (p.state == CommonStart ==> p.chunks == [] && p.commonEnd == [])
    && (p.state.InPayload() ==> p.commonEnd == [])
    && (p.state == ChunkLast ==> p.chunks != [])
  }

  /** startDocument */
  const Initial := Parse([], [], [], map[], CommonStart, false)

  /** Everything the parser holds, in document order. */
  function Whole(p: Parse): seq<string>
  {
    p.commonStart + Flatten(p.chunks) + p.commonEnd
  }

  /**
   * getStore followed by an append: the common parts take the piece; the
   * last chunk takes it; in CHUNK_NEW a new chunk holding it is added and the
   * state becomes CHUNK_LAST.
   */
  function Dumped(p: Parse, piece: string): (r: Parse)
    requires Phased(p)
    ensures Phased(r) && Whole(r) == Whole(p) + [piece]
  {
    match p.state
    case CommonStart => p.(commonStart := p.commonStart + [piece])
    case CommonEnd => p.(commonEnd := p.commonEnd + [piece])
    case ChunkLast =>
      var n := |p.chunks| - 1;
      var r := p.(chunks := p.chunks[..n] + [p.chunks[n] + [piece]]);
      FlattenAppend(p.chunks[..n], p.chunks[n]);
      FlattenAppend(p.chunks[..n], p.chunks[n] + [piece]);
      assert p.chunks[..n] + [p.chunks[n]] == p.chunks;
      r
    case ChunkNew =>
      FlattenAppend(p.chunks, [piece]);
      p.(chunks := p.chunks + [[piece]], state := ChunkLast)
  }

  /** hasSplitStyle: the element's text style name is non-empty and a split style. */
  predicate HasSplitStyle(styles: map<string, string>, attrs: Attrs)
  {
    var name := Get(attrs, TEXT_STYLE_NAME);
    name.Some? && name.value != "" && name.value in styles
  }

  /**
   * startElement: entering the automatic styles in the common start; a style
   * tied to a master page becomes a split style (its name is required:
   * KeyError otherwise); a split-styled element in the last chunk asks for a
   * new chunk; then the start tag is dumped.
   */
  function Started(p: Parse, elem: string, attrs: Attrs): (r: Result<Parse>)
    requires Phased(p)
    ensures r.Ok? ==> Phased(r.value) && Whole(r.value) == Whole(p) + [StartTag(elem, attrs)]
  {
    var inStyles := if p.state == CommonStart && !p.inStyles && elem == AUTOMATIC_STYLES then true else p.inStyles;
    var master := Get(attrs, MASTER_PAGE_NAME);
    var name := Get(attrs, STYLE_NAME);
    var splitStyle := inStyles && elem == STYLE && master.Some?;
    if splitStyle && name.None? then Err(KEY_ERROR)
    else
      var styles := if splitStyle then p.splitStyles[name.value := master.value] else p.splitStyles;
      var state := if p.state == ChunkLast && HasSplitStyle(styles, attrs) then ChunkNew else p.state;
      Ok(Dumped(p.(inStyles := inStyles, splitStyles := styles, state := state), StartTag(elem, attrs)))
  }

  /**
   * endElement: leaving the automatic styles; the end of office:text in the
   * payload switches to the common end before its tag is dumped; the end of
   * text:sequence-decls in the common start switches to CHUNK_NEW after.
   */
  function Ended(p: Parse, elem: string): (r: Parse)
    requires Phased(p)
    ensures Phased(r) && Whole(r) == Whole(p) + [EndTag(elem)]
  {
    var inStyles := if p.state == CommonStart && p.inStyles && elem == AUTOMATIC_STYLES then false else p.inStyles;
    var q := p.(inStyles := inStyles);
    if p.state.InPayload() && elem == OFFICE_TEXT then Dumped(q.(state := CommonEnd), EndTag(elem))
    else
      var d := Dumped(q, EndTag(elem));
      if p.state == CommonStart && elem == SEQUENCE_DECLS then d.(state := ChunkNew) else d
  }

  /** The SAX events the parser receives. */
  datatype Event = Open(elem: string, attrs: Attrs) | Close(elem: string) | Text(content: string)

  function Rendered(e: Event): string
  {
    match e
    case Open(elem, attrs) => StartTag(elem, attrs)
    case Close(elem) => EndTag(elem)
    case Text(content) => content
  }

  function Step(p: Parse, e: Event): (r: Result<Parse>)
    requires Phased(p)
    ensures r.Ok? ==> Phased(r.value) && Whole(r.value) == Whole(p) + [Rendered(e)]
  {
    match e
    case Open(elem, attrs) => Started(p, elem, attrs)
    case Close(elem) => Ok(Ended(p, elem))
    case Text(content) => Ok(Dumped(p, content))
  }

  /** Parsing a whole sequence of events; a KeyError stops it. */
  function Feed(p: Parse, events: seq<Event>): Result<Parse>
    requires Phased(p)
    decreases |events|
  {
    if events == [] then Ok(p)
    else
      match Step(p, events[0])
      case Err(e) => Err(e)
      case Ok(q) => Feed(q, events[1..])
  }

  function RenderedAll(events: seq<Event>): seq<string>
  {
    if events == [] then [] else [Rendered(events[0])] + RenderedAll(events[1..])
  }

  /**
   * Splitting loses nothing and keeps the order: the common start, the
   * chunks and the common end, one after the other, are the document's
   * pieces as parsed.
   */
  lemma {:induction false} FeedKeepsEverything(p: Parse, events: seq<Event>)
    requires Phased(p)
    ensures Feed(p, events).Ok? ==> Phased(Feed(p, events).value)
    ensures Feed(p, events).Ok? ==> Whole(Feed(p, events).value) == Whole(p) + RenderedAll(events)
    decreases |events|
  {
    if events == [] {
      assert Whole(p) + [] == Whole(p);
    } else {
      var r := Step(p, events[0]);
      assert Feed(p, events) == if r.Err? then Err(r.error) else Feed(r.value, events[1..]);
      if r.Ok? {
        var w, rest := Whole(p), RenderedAll(events[1..]);
        assert Phased(r.value) && Whole(r.value) == w + [Rendered(events[0])];
        FeedKeepsEverything(r.value, events[1..]);
        assert RenderedAll(events) == [Rendered(events[0])] + rest;
        assert w + [Rendered(events[0])] + rest == w + ([Rendered(events[0])] + rest);
      }
    }
  }

  /** From startDocument, the whole document lands in the three parts, in order. */
  lemma {:induction false} DocumentIsKept(events: seq<Event>)
    ensures Feed(Initial, events).Ok? ==> Whole(Feed(Initial, events).value) == RenderedAll(events)
  {
    FeedKeepsEverything(Initial, events);
    assert Whole(Initial) == [];
  }

  /** A split-styled element met in the last chunk opens a new chunk, which starts with its tag. */
  lemma {:induction false} SplitStyleOpensChunk(p: Parse, elem: string, attrs: Attrs)
    requires Phased(p) && p.state == ChunkLast
    requires HasSplitStyle(p.splitStyles, attrs)
    requires elem != STYLE
    ensures Started(p, elem, attrs).Ok?
    ensures Started(p, elem, attrs).value.chunks == p.chunks + [[StartTag(elem, attrs)]]
    ensures Started(p, elem, attrs).value.state == ChunkLast
  {
  }

  /** An element without a split style continues the last chunk. */
  lemma {:induction false} PlainElementContinuesChunk(p: Parse, elem: string, attrs: Attrs)
    requires Phased(p) && p.state == ChunkLast
    requires !HasSplitStyle(p.splitStyles, attrs)
    requires elem != STYLE
    ensures Started(p, elem, attrs).Ok?
    ensures |Started(p, elem, attrs).value.chunks| == |p.chunks|
    ensures Started(p, elem, attrs).value.chunks[|p.chunks| - 1] == p.chunks[|p.chunks| - 1] + [StartTag(elem, attrs)]
  {
  }

  /** The end of text:sequence-decls closes the common start: its tag is the last piece of it, and the next piece opens a chunk. */
  lemma {:induction false} SequenceDeclsCloseCommonStart(p: Parse)
    requires Phased(p) && p.state == CommonStart
    ensures Ended(p, SEQUENCE_DECLS).commonStart == p.commonStart + [EndTag(SEQUENCE_DECLS)]
    ensures Ended(p, SEQUENCE_DECLS).state == ChunkNew
    ensures forall x :: Dumped(Ended(p, SEQUENCE_DECLS), x).chunks == [[x]]
  {
  }

  /** The end of office:text in the payload opens the common end, whose first piece is that end tag. */
  lemma {:induction false} OfficeTextOpensCommonEnd(p: Parse)
    requires Phased(p) && p.state.InPayload()
    ensures Ended(p, OFFICE_TEXT).state == CommonEnd
    ensures Ended(p, OFFICE_TEXT).commonEnd == [EndTag(OFFICE_TEXT)]
    ensures Ended(p, OFFICE_TEXT).chunks == p.chunks
  {
  }

  /** A style tied to a master page, met within the automatic styles, becomes a split style. */
  lemma {:induction false} MasterPageStyleIsRegistered(p: Parse, attrs: Attrs, name: string, page: string)
    requires Phased(p) && p.inStyles
    requires Get(attrs, MASTER_PAGE_NAME) == Some(page) && Get(attrs, STYLE_NAME) == Some(name)
    ensures Started(p, STYLE, attrs).Ok?
    ensures Started(p, STYLE, attrs).value.splitStyles == p.splitStyles[name := page]
  {
  }

  /** A master-page style without a name stops the parse (KeyError). */
  lemma {:induction false} NamelessMasterPageStyle(p: Parse, attrs: Attrs)
    requires Phased(p) && p.inStyles
    requires Get(attrs, MASTER_PAGE_NAME).Some? && Get(attrs, STYLE_NAME).None?
    ensures Started(p, STYLE, attrs) == Err(KEY_ERROR)
  {
  }

  /** The sub-document built from each chunk (endDocument). */
  function Documents(p: Parse): (docs: seq<string>)
    ensures |docs| == |p.chunks|
  {
    seq(|p.chunks|, i requires 0 <= i < |p.chunks| => Concat(p.commonStart) + Concat(p.chunks[i]) + Concat(p.commonEnd))
  }

  /** The parser, whose methods update its parts in place. */
  class SplitParser {
    var commonStart: seq<string>
    var commonEnd: seq<string>
    var chunks: seq<seq<string>>
    var splitStyles: map<string, string>
    var state: State
    var inStyles: bool

    function Snapshot(): Parse
      reads this
    {
      Parse(commonStart, commonEnd, chunks, splitStyles, state, inStyles)
    }

    predicate Valid()
      reads this
    {
      Phased(Snapshot())
    }

    /** startDocument */
    constructor()
      ensures Snapshot() == Initial && Valid()
    {
      commonStart, commonEnd, chunks := [], [], [];
      splitStyles, state, inStyles := map[], CommonStart, false;
    }

    /** getStore().append(piece) */
    method Store(piece: string)
      requires Valid()
      modifies this
      ensures Valid() && Snapshot() == Dumped(old(Snapshot()), piece)
    {
      match state
      case CommonStart =>
        commonStart := commonStart + [piece];
      case CommonEnd =>
        commonEnd := commonEnd + [piece];
      case ChunkLast =>
        var n := |chunks| - 1;
        chunks := chunks[..n] + [chunks[n] + [piece]];
      case ChunkNew =>
        chunks := chunks + [[piece]];
        state := ChunkLast;
    }

    /** startElement; `ok` is false when a master-page style has no name (KeyError), and then nothing changes. */
    method StartElement(elem: string, attrs: Attrs) returns (ok: bool)
      requires Valid()
      modifies this
      ensures ok <==> Started(old(Snapshot()), elem, attrs).Ok?
      ensures Valid()
      ensures ok ==> Snapshot() == Started(old(Snapshot()), elem, attrs).value
      ensures !ok ==> Snapshot() == old(Snapshot())
    {
      var before := state;
      if state == CommonStart && !inStyles && elem == AUTOMATIC_STYLES {
        inStyles := true;
      }
      var master := Get(attrs, MASTER_PAGE_NAME);
      if inStyles && elem == STYLE && master.Some? {
        var name := Get(attrs, STYLE_NAME);
        if name.None? {
          return false;
        }
        splitStyles := splitStyles[name.value := master.value];
      }
      if before == ChunkLast && HasSplitStyle(splitStyles, attrs) {
        state := ChunkNew;
      }
      Store(StartTag(elem, attrs));
      ok := true;
    }

    /** endElement */
    method EndElement(elem: string)
      requires Valid()
      modifies this
      ensures Valid() && Snapshot() == Ended(old(Snapshot()), elem)
    {
      var before := state;
      if state == CommonStart && inStyles && elem == AUTOMATIC_STYLES {
        inStyles := false;
      }
      if before.InPayload() && elem == OFFICE_TEXT {
        state := CommonEnd;
        Store(EndTag(elem));
      } else {
        Store(EndTag(elem));
        if before == CommonStart && elem == SEQUENCE_DECLS {
          state := ChunkNew;
        }
      }
    }

    /** characters */
    method Characters(content: string)
      requires Valid()
      modifies this
      ensures Valid() && Snapshot() == Dumped(old(Snapshot()), content)
    {
      Store(content);
    }

    /** endDocument: every chunk surrounded by the common start and end. */
    method EndDocument() returns (docs: seq<string>)
      ensures docs == Documents(Snapshot())
    {
      var start := Concat(commonStart);
      var end := Concat(commonEnd);
      docs := [];
      var i := 0;
      while i < |chunks|
        invariant 0 <= i <= |chunks|
        invariant docs == Documents(Snapshot())[..i]
      {
        docs := docs + [start + Concat(chunks[i]) + end];
        i := i + 1;
      }
    }
  }

  /** Every sub-document starts with the common start and ends with the common end. */
  lemma {:induction false} DocumentsAreFramed(p: Parse, i: nat)
    requires i < |p.chunks|
    ensures StartsWith(Documents(p)[i], Concat(p.commonStart))
    ensures EndsWith(Documents(p)[i], Concat(p.commonEnd))
    ensures Documents(p)[i][|Concat(p.commonStart)|..|Documents(p)[i]| - |Concat(p.commonEnd)|] == Concat(p.chunks[i])
  {
    var d := Documents(p)[i];
    var s, c, e := Concat(p.commonStart), Concat(p.chunks[i]), Concat(p.commonEnd);
    assert d == s + c + e;
    assert d[..|s|] == s;
    assert d[|d| - |e|..] == e;
    assert d[|s|..|d| - |e|] == c;
  }

  // ------------------------------------------------------------------------
  // Split.run: one file per chunk, only when there are at least two
  // ------------------------------------------------------------------------

  const NO_SPLIT := "No file was generated: no splitting page break was found."
  const SPLITTED := " files were generated."

  /** getResultPath's file name: "<stem>.<i><suffix>". */
  function ResultName(stem: string, i: nat, suffix: string): string
  {
    stem + "." + NatToString(i) + suffix
  }

  /**
   * The files run writes (name and content, in order) and the message it
   * logs: nothing and NO_SPLIT for fewer than two chunks, else the i-th
   * document as "<stem>.<i><suffix>", from 1.
   */
  method Run(docs: seq<string>, stem: string, suffix: string) returns (files: seq<(string, string)>, message: string)
    ensures |docs| < 2 ==> files == [] && message == NO_SPLIT
    ensures |docs| >= 2 ==> |files| == |docs| && message == NatToString(|docs|) + SPLITTED
    ensures |docs| >= 2 ==> forall k | 0 <= k < |files| :: files[k] == (ResultName(stem, k + 1, suffix), docs[k])
  {
    files := [];
    if |docs| < 2 {
      message := NO_SPLIT;
    } else {
      var i := 0;
      for k := 0 to |docs|
        invariant i == k && |files| == k
        invariant forall j | 0 <= j < k :: files[j] == (ResultName(stem, j + 1, suffix), docs[j])
      {
        i := i + 1;
        files := files + [(ResultName(stem, i, suffix), docs[k])];
      }
      message := NatToString(|docs|) + SPLITTED;
    }
  }

  /** Names of distinct chunks differ, so no written file overwrites another. */
  lemma {:induction false} ResultNamesDiffer(stem: string, i: nat, j: nat, suffix: string)
    requires i != j
    ensures ResultName(stem, i, suffix) != ResultName(stem, j, suffix)
  {
    NatToStringValue(i);
    NatToStringValue(j);
    var a, b := NatToString(i), NatToString(j);
    var prefix := stem + ".";
    var x, y := prefix + a + suffix, prefix + b + suffix;
    assert a != b;
    if |a| != |b| {
      assert |x| != |y|;
    } else {
      assert x[|prefix|..|prefix| + |a|] == a;
      assert y[|prefix|..|prefix| + |a|] == b;
    }
  }
}
