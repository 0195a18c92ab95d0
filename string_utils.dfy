/**
 * String helpers of Appy: the per-character rule of Normalize, adding and
 * removing parts of separated strings, stretching, grammatical joins,
 * "nice" messages from identifiers, whitespace crunching and the
 * "key:value,key:value" dictionary syntax.
 */
module StringUtils {
  import opened Py

  const VALUE_ERROR := "ValueError"
  const COLON := ":"
  const COMMA := ","

  // ------------------------------------------------------------------------
  // Normalize.char
  // ------------------------------------------------------------------------

  /**
   * Normalize.char: a character to blankify becomes a space, one to ignore
   * vanishes, one the replacement dict holds becomes its replacement, and any
   * other one is kept or dropped depending on `keep`; the tables are tried in
   * that order. An absent table is the empty one; the replacement dict is
   * given by its lookup, None for a character it lacks.
   */
  function NormalizeChar(c: char, blankify: set<char>, ignore: set<char>,
                         replace: char -> Option<string>, keep: bool): (r: string)
    ensures c in blankify ==> r == " "
    ensures c !in blankify && c in ignore ==> r == ""
    ensures c !in blankify && c !in ignore && replace(c).Some? ==> r == replace(c).value
    ensures c !in blankify && c !in ignore && replace(c).None? ==> (r == [c] <==> keep) && (r == "" <==> !keep)
  {
    if c in blankify then " "
    else if c in ignore then ""
    else if replace(c).Some? then replace(c).value
    else if keep then [c]
    else ""
  }

  /** The lookup of an empty replacement dict. */
  function NoReplacement(c: char): Option<string>
  {
    None
  }

  /** Normalize.baseIgnorable: characters ignored or blankified in most situations. */
  const BASE_IGNORABLE: set<char> :=
    {'.', ',', ':', ';', '*', '+', '=', '~', '?', '%', '^', '\'', '\U{2019}', '"', '<', '>',
     '{', '}', '[', ']', '#', '|', '\t', '\\', '\U{b0}', '-', '\U{2011}'}

  /** Normalize.fileNameIgnorable: the base set, spaces, currency signs, "/" and line ends. */
  const FILE_NAME_IGNORABLE: set<char> :=
    BASE_IGNORABLE + {' ', '\U{a0}', '$', '\U{a3}', '\U{20ac}', '/', '\r', '\n'}

  /** Producing a file name, letters and digits are kept and separators vanish. */
  lemma {:induction false} FileNameKeepsAlnum(c: char)
    ensures IsAsciiAlnum(c) ==> NormalizeChar(c, {}, FILE_NAME_IGNORABLE, NoReplacement, true) == [c]
    ensures c in FILE_NAME_IGNORABLE ==> NormalizeChar(c, {}, FILE_NAME_IGNORABLE, NoReplacement, true) == ""
  {
  }

  /**
   * Normalize.replacements, as a lookup. flipDict sends each accented letter
   * of a group to the group's base letter; the update that follows sends the
   * ligatures to two letters (overriding the flipped entries for the two
   * ligatures of the groups), the no-break space to a space and the
   * non-breaking hyphen to a hyphen.
   */
  function Replacement(c: char): Option<string>
  {
    if c == '\U{c6}' then Some("AE")
    else if c == '\U{e6}' then Some("ae")
    else if c == '\U{152}' then Some("OE")
    else if c == '\U{153}' then Some("oe")
    else if c == '\U{a0}' then Some(" ")
    else if c == '\U{2011}' then Some("-")
    else if c == '\U{c0}' || c == '\U{c1}' || c == '\U{c2}' || c == '\U{c3}' || c == '\U{c4}' || c == '\U{c5}' || c == '\U{c6}' then Some("A")
    else if c == '\U{e0}' || c == '\U{e1}' || c == '\U{e2}' || c == '\U{e3}' || c == '\U{e4}' || c == '\U{e5}' || c == '\U{e6}' then Some("a")
    else if c == '\U{c7}' then Some("C")
    else if c == '\U{e7}' then Some("c")
    else if c == '\U{d0}' then Some("D")
    else if c == '\U{df}' then Some("S")
    else if c == '\U{c8}' || c == '\U{c9}' || c == '\U{ca}' || c == '\U{cb}' then Some("E")
    else if c == '\U{e8}' || c == '\U{e9}' || c == '\U{ea}' || c == '\U{eb}' then Some("e")
    else if c == '\U{cc}' || c == '\U{cd}' || c == '\U{ce}' || c == '\U{cf}' then Some("I")
    else if c == '\U{ec}' || c == '\U{ed}' || c == '\U{ee}' || c == '\U{ef}' then Some("i")
    else if c == '\U{d1}' then Some("N")
    else if c == '\U{f1}' then Some("n")
    else if c == '\U{d2}' || c == '\U{d3}' || c == '\U{d4}' || c == '\U{d5}' || c == '\U{d6}' || c == '\U{d8}' then Some("O")
    else if c == '\U{f2}' || c == '\U{f3}' || c == '\U{f4}' || c == '\U{f5}' || c == '\U{f6}' || c == '\U{f0}' || c == '\U{f8}' then Some("o")
    else if c == '\U{d9}' || c == '\U{da}' || c == '\U{db}' || c == '\U{dc}' then Some("U")
    else if c == '\U{f9}' || c == '\U{fa}' || c == '\U{fb}' || c == '\U{fc}' then Some("u")
    else if c == '\U{dd}' then Some("Y")
    else if c == '\U{fd}' || c == '\U{ff}' then Some("y")
    else None
  }

  /** The characters a replacement, or an ASCII letter or digit, can give. */
  predicate IsNormalChar(c: char) { IsAsciiAlnum(c) || c == ' ' || c == '-' }

  /** Each replacement is one or two letters, a space or a hyphen. */
  lemma {:induction false} ReplacementsAreNormal(c: char)
    requires Replacement(c).Some?
    ensures 1 <= |Replacement(c).value| <= 2
    ensures forall k | 0 <= k < |Replacement(c).value| :: IsNormalChar(Replacement(c).value[k])
  {
  }

  /** A few entries of the table: accents, a ligature, the no-break space and hyphen; a plain space or "/" has none. */
  lemma {:induction false} SomeReplacements()
    ensures Replacement('\U{c9}') == Some("E") && Replacement('\U{e7}') == Some("c")
    ensures Replacement('\U{c6}') == Some("AE") && Replacement('\U{a0}') == Some(" ")
    ensures Replacement('\U{2011}') == Some("-")
    ensures Replacement(' ') == None && Replacement('/') == None
  {
  }

  // ------------------------------------------------------------------------
  // sadd and sremove
  // ------------------------------------------------------------------------

  predicate NoDup<T(==)>(s: seq<T>)
  {
    forall i, j | 0 <= i < j < |s| :: s[i] != s[j]
  }

  /** The parts list after adding `parts`, one after the other, each only when absent. */
  function AddParts(r: seq<string>, parts: seq<string>, append: bool): seq<string>
    decreases |parts|
  {
    if parts == [] then r
    else
      var prev := AddParts(r, parts[..|parts| - 1], append);
      var p := parts[|parts| - 1];
      if p in prev then prev else if append then prev + [p] else [p] + prev
  }

  /** sadd: adds to separated string `s` the parts of `sub` it lacks, at the end or at the start. */
  method Sadd(s: string, sub: string, sep: string, append: bool) returns (res: Result<string>)
    ensures sub == "" ==> res == Ok(s)
    ensures sub != "" && s == "" ==> res == Ok(sub)
    ensures sub != "" && s != "" && sep == "" ==> res == Err(VALUE_ERROR)
    ensures sub != "" && s != "" && sep != "" ==>
              res == Ok(Join(AddParts(Split(s, sep), Split(sub, sep), append), sep))
  {
    if sub == "" { return Ok(s); }
    if s == "" { return Ok(sub); }
    if sep == "" { return Err(VALUE_ERROR); }
    var r := Split(s, sep);
    var parts := Split(sub, sep);
    var i := 0;
    while i < |parts|
      invariant 0 <= i <= |parts|
      invariant r == AddParts(Split(s, sep), parts[..i], append)
    {
      assert parts[..i + 1][..i] == parts[..i];
      var part := parts[i];
      if part !in r {
        if append {
          r := r + [part];
        } else {
          r := [part] + r;
        }
      }
      i := i + 1;
    }
    assert parts[..i] == parts;
    res := Ok(Join(r, sep));
  }

  /** Adding parts gives exactly the old parts and the added ones. */
  lemma {:induction false} AddPartsElements(r: seq<string>, parts: seq<string>, append: bool, x: string)
    ensures x in AddParts(r, parts, append) <==> x in r || x in parts
    decreases |parts|
  {
    if parts != [] {
      var init := parts[..|parts| - 1];
      AddPartsElements(r, init, append, x);
      assert parts == init + [parts[|parts| - 1]];
    }
  }

  /** sadd never duplicates a part: a list without duplicates stays so. */
  lemma {:induction false} AddPartsNoDup(r: seq<string>, parts: seq<string>, append: bool)
    requires NoDup(r)
    ensures NoDup(AddParts(r, parts, append))
    decreases |parts|
  {
    if parts != [] {
      AddPartsNoDup(r, parts[..|parts| - 1], append);
    }
  }

  /** The old parts keep their order: at the start of the list when appending, at its end otherwise. */
  lemma {:induction false} AddPartsKeepsOld(r: seq<string>, parts: seq<string>, append: bool)
    ensures |r| <= |AddParts(r, parts, append)|
    ensures append ==> AddParts(r, parts, append)[..|r|] == r
    ensures !append ==> AddParts(r, parts, append)[|AddParts(r, parts, append)| - |r|..] == r
    decreases |parts|
  {
    if parts != [] {
      AddPartsKeepsOld(r, parts[..|parts| - 1], append);
      var prev := AddParts(r, parts[..|parts| - 1], append);
      if append {
        assert (prev + [parts[|parts| - 1]])[..|r|] == prev[..|r|];
      }
    }
  }

  /** Adding parts that are all present already changes nothing. */
  lemma {:induction false} AddPartsPresent(r: seq<string>, parts: seq<string>, append: bool)
    requires forall k | 0 <= k < |parts| :: parts[k] in r
    ensures AddParts(r, parts, append) == r
    decreases |parts|
  {
    if parts != [] {
      AddPartsPresent(r, parts[..|parts| - 1], append);
    }
  }

  /** `list.remove(x)`: drops the first occurrence of x. */
  function RemoveFirst(r: seq<string>, x: string): seq<string>
  {
    if r == [] then []
    else if r[0] == x then r[1..]
    else [r[0]] + RemoveFirst(r[1..], x)
  }

  /** The parts list after removing each of `parts` once, when present. */
  function RemoveParts(r: seq<string>, parts: seq<string>): seq<string>
    decreases |parts|
  {
    if parts == [] then r
    else
      var prev := RemoveParts(r, parts[..|parts| - 1]);
      var p := parts[|parts| - 1];
      if p in prev then RemoveFirst(prev, p) else prev
  }

  /** sremove: removes from separated string `s` each part of `sub` once. */
  method Sremove(s: string, sub: string, sep: string) returns (res: Result<string>)
    ensures sub == "" || s == "" ==> res == Ok(s)
    ensures sub != "" && s != "" && sep == "" ==> res == Err(VALUE_ERROR)
    ensures sub != "" && s != "" && sep != "" ==> res == Ok(Join(RemoveParts(Split(s, sep), Split(sub, sep)), sep))
  {
    if sub == "" { return Ok(s); }
    if s == "" { return Ok(s); }
    if sep == "" { return Err(VALUE_ERROR); }
    var r := Split(s, sep);
    var parts := Split(sub, sep);
    var i := 0;
    while i < |parts|
      invariant 0 <= i <= |parts|
      invariant r == RemoveParts(Split(s, sep), parts[..i])
    {
      assert parts[..i + 1][..i] == parts[..i];
      var part := parts[i];
      if part in r {
        r := RemoveFirst(r, part);
      }
      i := i + 1;
    }
    assert parts[..i] == parts;
    res := Ok(Join(r, sep));
  }

  lemma {:induction false} RemoveFirstCount(r: seq<string>, x: string)
    ensures multiset(RemoveFirst(r, x)) == multiset(r) - multiset{x}
  {
    if r != [] {
      assert r == [r[0]] + r[1..];
      if r[0] != x {
        RemoveFirstCount(r[1..], x);
      }
    }
  }

  /** sremove takes out of the parts exactly the multiset difference with the removed parts. */
  lemma {:induction false} RemovePartsCount(r: seq<string>, parts: seq<string>)
    ensures multiset(RemoveParts(r, parts)) == multiset(r) - multiset(parts)
    decreases |parts|
  {
    if parts != [] {
      var init := parts[..|parts| - 1];
      var p := parts[|parts| - 1];
      var prev := RemoveParts(r, init);
      RemovePartsCount(r, init);
      assert parts == init + [p];
      if p in prev {
        RemoveFirstCount(prev, p);
      } else {
        assert multiset(prev)[p] == 0;
      }
    }
  }

  /** `a` is a subsequence of `b`: the parts of a appear in b in the same order. */
  predicate Subsequence(a: seq<string>, b: seq<string>)
    decreases |b|
  {
    a == [] || (b != [] && ((a[0] == b[0] && Subsequence(a[1..], b[1..])) || Subsequence(a, b[1..])))
  }

  lemma {:induction false} SubsequenceTrans(a: seq<string>, b: seq<string>, c: seq<string>)
    requires Subsequence(a, b) && Subsequence(b, c)
    ensures Subsequence(a, c)
    decreases |c|, |b|
  {
    if a != [] {
      if Subsequence(b, c[1..]) {
        SubsequenceTrans(a, b, c[1..]);
      } else if a[0] == b[0] && Subsequence(a[1..], b[1..]) {
        SubsequenceTrans(a[1..], b[1..], c[1..]);
      } else {
        SubsequenceTrans(a, b[1..], c[1..]);
      }
    }
  }

  lemma {:induction false} SubsequenceRefl(a: seq<string>)
    ensures Subsequence(a, a)
  {
    if a != [] {
      SubsequenceRefl(a[1..]);
    }
  }

  lemma {:induction false} RemoveFirstSubsequence(r: seq<string>, x: string)
    ensures Subsequence(RemoveFirst(r, x), r)
  {
    if r != [] {
      if r[0] == x {
        SubsequenceRefl(r[1..]);
        var t := r[1..];
        if t != [] {
          assert Subsequence(t, r) by {
            assert Subsequence(t, r[1..]);
          }
        }
      } else {
        RemoveFirstSubsequence(r[1..], x);
      }
    }
  }

  /** The parts sremove leaves keep their order. */
  lemma {:induction false} RemovePartsSubsequence(r: seq<string>, parts: seq<string>)
    ensures Subsequence(RemoveParts(r, parts), r)
    decreases |parts|
  {
    if parts == [] {
      SubsequenceRefl(r);
    } else {
      var prev := RemoveParts(r, parts[..|parts| - 1]);
      RemovePartsSubsequence(r, parts[..|parts| - 1]);
      if parts[|parts| - 1] in prev {
        RemoveFirstSubsequence(prev, parts[|parts| - 1]);
        SubsequenceTrans(RemoveFirst(prev, parts[|parts| - 1]), prev, r);
      }
    }
  }

  // ------------------------------------------------------------------------
  // stretchText
  // ------------------------------------------------------------------------

  function Sum(pattern: seq<nat>): nat
  {
    if pattern == [] then 0 else Sum(pattern[..|pattern| - 1]) + pattern[|pattern| - 1]
  }

  /**
   * stretchText: each group of pattern[k] characters of `s`, in order,
   * followed by `ch`; None when `s` is too short (the source's IndexError).
   */
  function Stretched(s: string, pattern: seq<nat>, ch: char): Option<string>
    decreases |pattern|
  {
    if pattern == [] then Some("")
    else
      var init := pattern[..|pattern| - 1];
      match Stretched(s, init, ch)
      case None => None
      case Some(prev) =>
        var i := Sum(init);
        var nb := pattern[|pattern| - 1];
        if i + nb <= |s| then Some(prev + s[i..i + nb] + [ch]) else None
  }

  lemma {:induction false} SumSnoc(pattern: seq<nat>, k: nat)
    requires k < |pattern|
    ensures Sum(pattern[..k + 1]) == Sum(pattern[..k]) + pattern[k]
  {
    assert pattern[..k + 1][..k] == pattern[..k];
  }

  /** stretchText("475123456", (3, 2, 2, 2)) is "475 12 34 56 ". */
  method StretchText(s: string, pattern: seq<nat>, ch: char) returns (res: Option<string>)
    ensures res == Stretched(s, pattern, ch)
  {
    var acc := "";
    var i := 0;
    var k := 0;
    while k < |pattern|
      invariant 0 <= k <= |pattern|
      invariant i == Sum(pattern[..k]) && i <= |s|
      invariant Stretched(s, pattern[..k], ch) == Some(acc)
    {
      var nb := pattern[k];
      var j := 0;
      while j < nb
        invariant 0 <= j <= nb && i + j <= |s|
        invariant acc == Stretched(s, pattern[..k], ch).value + s[i..i + j]
      {
        if i + j >= |s| {
          assert pattern[..k + 1][..k] == pattern[..k];
          SumSnoc(pattern, k);
          StretchedStops(s, pattern, k + 1, ch);
          return None;
        }
        acc := acc + [s[i + j]];
        j := j + 1;
      }
      acc := acc + [ch];
      assert pattern[..k + 1][..k] == pattern[..k];
      SumSnoc(pattern, k);
      i := i + nb;
      k := k + 1;
    }
    assert pattern[..k] == pattern;
    res := Some(acc);
  }

  /** Once a group runs past the end of s, stretching fails, whatever follows. */
  lemma {:induction false} StretchedStops(s: string, pattern: seq<nat>, k: nat, ch: char)
    requires 0 < k <= |pattern| && Stretched(s, pattern[..k], ch).None?
    ensures Stretched(s, pattern, ch).None?
    decreases |pattern| - k
  {
    if k < |pattern| {
      assert pattern[..k + 1][..k] == pattern[..k];
      StretchedStops(s, pattern, k + 1, ch);
    } else {
      assert pattern[..k] == pattern;
    }
  }

  /** stretchText succeeds exactly when the groups fit in s; then each group gets one separator. */
  lemma {:induction false} StretchedLength(s: string, pattern: seq<nat>, ch: char)
    ensures Stretched(s, pattern, ch).Some? <==> Sum(pattern) <= |s|
    ensures Stretched(s, pattern, ch).Some? ==> |Stretched(s, pattern, ch).value| == Sum(pattern) + |pattern|
    decreases |pattern|
  {
    if pattern != [] {
      StretchedLength(s, pattern[..|pattern| - 1], ch);
    }
  }

  /** Taking the separators out gives back the first Sum(pattern) characters of s. */
  lemma {:induction false} StretchedKeepsText(s: string, pattern: seq<nat>, ch: char)
    requires Stretched(s, pattern, ch).Some?
    ensures Sum(pattern) <= |s|
    ensures Unstretched(Stretched(s, pattern, ch).value, pattern) == s[..Sum(pattern)]
    decreases |pattern|
  {
    StretchedLength(s, pattern, ch);
    if pattern != [] {
      var init := pattern[..|pattern| - 1];
      var prev := Stretched(s, init, ch).value;
      StretchedKeepsText(s, init, ch);
      StretchedLength(s, init, ch);
      var i := Sum(init);
      var nb := pattern[|pattern| - 1];
      var t := prev + s[i..i + nb] + [ch];
      assert t[..|prev|] == prev;
      assert t[|prev|..|t| - 1] == s[i..i + nb];
      assert s[..i + nb] == s[..i] + s[i..i + nb];
    }
  }

  /** The text of a stretched string, its groups' separators taken out. */
  function Unstretched(t: string, pattern: seq<nat>): string
    decreases |pattern|
  {
    if pattern == [] || |t| < Sum(pattern) + |pattern| then ""
    else
      var init := pattern[..|pattern| - 1];
      var n := Sum(init) + |init|;
      Unstretched(t[..n], init) + t[n..|t| - 1]
  }

  // ------------------------------------------------------------------------
  // grammarJoin
  // ------------------------------------------------------------------------

  /** The separator grammarJoin puts after element i of n: none after the last, lastSep before it. */
  function SepAfter(i: nat, n: nat, sep: string, lastSep: string): string
  {
    if i + 1 == n then "" else if i + 2 == n then lastSep else sep
  }

  /** What grammarJoin has produced after its first i elements. */
  function GrammarPrefix(l: seq<string>, i: nat, sep: string, lastSep: string): string
    requires i <= |l|
  {
    if i == 0 then "" else GrammarPrefix(l, i - 1, sep, lastSep) + l[i - 1] + SepAfter(i - 1, |l|, sep, lastSep)
  }

  /** grammarJoin: ["a", "b", "c"] gives "a, b and c". */
  method GrammarJoin(l: seq<string>, sep: string, lastSep: string) returns (r: string)
    ensures r == GrammarPrefix(l, |l|, sep, lastSep)
  {
    r := "";
    var i := 0;
    var last := |l| - 1;
    while i < |l|
      invariant 0 <= i <= |l|
      invariant r == GrammarPrefix(l, i, sep, lastSep)
    {
      var curSep;
      if i == last {
        curSep := "";
      } else if i == last - 1 {
        curSep := lastSep;
      } else {
        curSep := sep;
      }
      r := r + l[i] + curSep;
      i := i + 1;
    }
  }

  lemma {:induction false} GrammarPrefixIsJoin(l: seq<string>, k: nat, sep: string, lastSep: string)
    requires 0 < k < |l|
    ensures GrammarPrefix(l, k, sep, lastSep) == Join(l[..k], sep) + (if k == |l| - 1 then lastSep else sep)
  {
    if k == 1 {
      assert l[..1] == [l[0]];
    } else {
      GrammarPrefixIsJoin(l, k - 1, sep, lastSep);
      assert l[..k] == l[..k - 1] + [l[k - 1]];
      JoinSnoc(l[..k - 1], sep, l[k - 1]);
    }
  }

  /** grammarJoin is "" for no element, the element alone for one, else the join by sep of all but the last, lastSep and the last. */
  lemma {:induction false} GrammarJoinShape(l: seq<string>, sep: string, lastSep: string)
    ensures |l| == 0 ==> GrammarPrefix(l, |l|, sep, lastSep) == ""
    ensures |l| == 1 ==> GrammarPrefix(l, |l|, sep, lastSep) == l[0]
    ensures |l| >= 2 ==> GrammarPrefix(l, |l|, sep, lastSep)
                         == Join(l[..|l| - 1], sep) + lastSep + l[|l| - 1]
  {
    if |l| >= 2 {
      GrammarPrefixIsJoin(l, |l| - 1, sep, lastSep);
    }
  }

  // ------------------------------------------------------------------------
  // produceNiceMessage
  // ------------------------------------------------------------------------

  /** How produceNiceMessage writes a character after the first: "_" as a space, an upper-case letter as a space and its lower case. */
  function NiceChar(c: char): string
  {
    if c == '_' then " " else if IsAsciiUpper(c) then [' ', Lower(c)] else [c]
  }

  function NiceTail(t: string): string
  {
    if t == [] then "" else NiceTail(t[..|t| - 1]) + NiceChar(t[|t| - 1])
  }

  /** produceNiceMessage as a function of its input. */
  function NiceMessage(msg: string): string
  {
    if msg == "" then "" else [Upper(msg[0])] + NiceTail(msg[1..])
  }

  /** produceNiceMessage: "myFirst_field" gives "My first field". */
  method ProduceNiceMessage(msg: string) returns (r: string)
    ensures r == NiceMessage(msg)
  {
    r := "";
    if msg != "" {
      r := [Upper(msg[0])];
      var tail := msg[1..];
      var i := 0;
      while i < |tail|
        invariant 0 <= i <= |tail|
        invariant r == [Upper(msg[0])] + NiceTail(tail[..i])
      {
        assert tail[..i + 1][..i] == tail[..i];
        var c := tail[i];
        if c == '_' {
          r := r + " ";
        } else if IsAsciiUpper(c) {
          r := r + " " + [Lower(c)];
        } else {
          r := r + [c];
        }
        i := i + 1;
      }
      assert tail[..i] == tail;
    }
  }

  /** After the first character, a nice message has neither "_" nor upper-case letters; it grows by one space per upper-case letter. */
  lemma {:induction false} NiceTailClean(t: string)
    ensures forall k | 0 <= k < |NiceTail(t)| :: NiceTail(t)[k] != '_' && !IsAsciiUpper(NiceTail(t)[k])
    ensures |NiceTail(t)| == |t| + UpperCount(t)
  {
    if t != [] {
      NiceTailClean(t[..|t| - 1]);
    }
  }

  function UpperCount(t: string): nat
  {
    if t == [] then 0 else UpperCount(t[..|t| - 1]) + (if IsAsciiUpper(t[|t| - 1]) then 1 else 0)
  }

  /** The first character is upper-cased, and the message is empty only for an empty input. */
  lemma {:induction false} NiceMessageFirst(msg: string)
    requires msg != ""
    ensures NiceMessage(msg) != "" && NiceMessage(msg)[0] == Upper(msg[0])
  {
  }

  // ------------------------------------------------------------------------
  // WhitespaceCruncher.crunch
  // ------------------------------------------------------------------------

  /** WhitespaceCruncher.whiteChars */
  predicate IsWhite(c: char) { c == ' ' || c == '\r' || c == '\t' || c == '\n' }

  /** WhitespaceCruncher.allChars: the white characters and the non-breaking space. */
  predicate IsAllWhite(c: char) { IsWhite(c) || c == '\U{a0}' }

  /** The character before the rest of the text: the last of `t`, else the one given by the caller. */
  function PrevOf(t: string, previous: Option<char>): Option<char>
  {
    if t == [] then previous else Some(t[|t| - 1])
  }

  /** What crunch writes for c: a white character becomes one space unless it follows a white one or a non-breaking space. */
  function Emit(c: char, prev: Option<char>): string
  {
    if IsWhite(c) then (if prev.None? || !IsAllWhite(prev.value) then " " else "") else [c]
  }

  /** crunch of s, `previous` being the last character of the text before it, if any. */
  function Crunched(s: string, previous: Option<char>): string
  {
    if s == [] then "" else Crunched(s[..|s| - 1], previous) + Emit(s[|s| - 1], PrevOf(s[..|s| - 1], previous))
  }

  /** WhitespaceCruncher.crunch; `previous` is the last character of the caller's previous text (None for none). */
  method Crunch(s: string, previous: Option<char>) returns (r: string)
    ensures r == Crunched(s, previous)
  {
    r := "";
    var previousChar := previous;
    var i := 0;
    while i < |s|
      invariant 0 <= i <= |s|
      invariant r == Crunched(s[..i], previous)
      invariant previousChar == PrevOf(s[..i], previous)
    {
      assert s[..i + 1][..i] == s[..i];
      var c := s[i];
      if IsWhite(c) {
        if previousChar.None? || !IsAllWhite(previousChar.value) {
          r := r + " ";
        }
      } else {
        r := r + [c];
      }
      previousChar := Some(c);
      i := i + 1;
    }
    assert s[..i] == s;
  }

  /** The characters of a text that are not white, in order. */
  function NonWhite(s: string): string
  {
    if s == [] then "" else NonWhite(s[..|s| - 1]) + (if IsWhite(s[|s| - 1]) then "" else [s[|s| - 1]])
  }

  lemma {:induction false} NonWhiteAppend(a: string, b: string)
    ensures NonWhite(a + b) == NonWhite(a) + NonWhite(b)
    decreases |b|
  {
    if b == [] {
      assert a + b == a;
    } else {
      assert (a + b)[..|a + b| - 1] == a + b[..|b| - 1];
      NonWhiteAppend(a, b[..|b| - 1]);
    }
  }

  /** crunch keeps every character that is not white, in order. */
  lemma {:induction false} CrunchedKeepsText(s: string, previous: Option<char>)
    ensures NonWhite(Crunched(s, previous)) == NonWhite(s)
  {
    if s != [] {
      var t := s[..|s| - 1];
      var c := s[|s| - 1];
      CrunchedKeepsText(t, previous);
      var e := Emit(c, PrevOf(t, previous));
      NonWhiteAppend(Crunched(t, previous), e);
      assert NonWhite(e) == NonWhite([c]) by {
        if e == " " {
          assert e[..0] == "";
        }
      }
    }
  }

  /**
   * The only white character crunch writes is the space, never two in a
   * row; a result ending in a space comes from a text ending in a white
   * character.
   */
  lemma {:induction false} CrunchedSpaces(s: string, previous: Option<char>)
    ensures forall k | 0 <= k < |Crunched(s, previous)| :: IsWhite(Crunched(s, previous)[k]) ==> Crunched(s, previous)[k] == ' '
    ensures forall k | 0 <= k < |Crunched(s, previous)| - 1 :: !(Crunched(s, previous)[k] == ' ' && Crunched(s, previous)[k + 1] == ' ')
    ensures Crunched(s, previous) != [] && Crunched(s, previous)[|Crunched(s, previous)| - 1] == ' '
            ==> s != [] && IsWhite(s[|s| - 1])
  {
    if s != [] {
      var t := s[..|s| - 1];
      CrunchedSpaces(t, previous);
      var prev := Crunched(t, previous);
      var e := Emit(s[|s| - 1], PrevOf(t, previous));
      var r := prev + e;
      assert Crunched(s, previous) == r;
      assert forall k | 0 <= k < |prev| :: r[k] == prev[k];
      assert |e| <= 1;
      if |e| == 1 {
        assert r[|r| - 1] == e[0];
      }
    }
  }

  // ------------------------------------------------------------------------
  // getDictFrom
  // ------------------------------------------------------------------------

  /** The dict built from the "key:value" parts, left to right; a part without ":" raises. */
  function DictOf(parts: seq<string>): (r: Result<map<string, string>>)
    ensures r.Err? ==> r.error == VALUE_ERROR
    decreases |parts|
  {
    if parts == [] then Ok(map[])
    else
      match DictOf(parts[..|parts| - 1])
      case Err(e) => Err(e)
      case Ok(m) =>
        var kv := SplitOnce(parts[|parts| - 1], COLON);
        if |kv| == 1 then Err(VALUE_ERROR)
        else Ok(if kv[1] != "" then m[kv[0] := kv[1]] else m)
  }

  /** getDictFrom: "key1:value1,key2:value2" to a dict, keys with an empty value being skipped. */
  method GetDictFrom(s: string) returns (r: Result<map<string, string>>)
    ensures r == if s == "" then Ok(map[]) else DictOf(Split(s, COMMA))
  {
    if s == "" { return Ok(map[]); }
    var parts := Split(s, COMMA);
    var m: map<string, string> := map[];
    var i := 0;
    while i < |parts|
      invariant 0 <= i <= |parts|
      invariant DictOf(parts[..i]) == Ok(m)
    {
      var kv := SplitOnce(parts[i], COLON);
      DictOfStep(parts, i, m);
      if |kv| == 1 {
        DictOfStops(parts, i + 1);
        return Err(VALUE_ERROR);
      }
      var key, value := kv[0], kv[1];
      if value != "" {
        m := m[key := value];
      }
      i := i + 1;
    }
    assert parts[..i] == parts;
    r := Ok(m);
  }

  /** One more part: it raises, or its pair is added when its value is not empty. */
  lemma {:induction false} DictOfStep(parts: seq<string>, i: nat, m: map<string, string>)
    requires i < |parts| && DictOf(parts[..i]) == Ok(m)
    ensures var kv := SplitOnce(parts[i], COLON);
            DictOf(parts[..i + 1]) == if |kv| == 1 then Err(VALUE_ERROR) else Ok(if kv[1] != "" then m[kv[0] := kv[1]] else m)
  {
    var p := parts[..i + 1];
    assert p[..|p| - 1] == parts[..i] && p[|p| - 1] == parts[i];
  }

  /** Once a part raises, the whole dict raises. */
  lemma {:induction false} DictOfStops(parts: seq<string>, k: nat)
    requires 0 < k <= |parts| && DictOf(parts[..k]).Err?
    ensures DictOf(parts).Err?
    decreases |parts| - k
  {
    if k < |parts| {
      assert parts[..k + 1][..k] == parts[..k];
      DictOfStops(parts, k + 1);
    } else {
      assert parts[..k] == parts;
    }
  }

  /** getDictFrom raises exactly when some part has no ":". */
  lemma {:induction false} DictOfRaises(parts: seq<string>)
    ensures DictOf(parts).Err? <==> exists k | 0 <= k < |parts| :: !Contains(parts[k], COLON)
    decreases |parts|
  {
    if parts != [] {
      var init, last := parts[..|parts| - 1], parts[|parts| - 1];
      DictOfRaises(init);
      DictOfLast(parts);
      ExistsOnInit(parts, init);
    }
  }

  /** The dict of a non-empty list raises when the dict of its init does, or when its last part has no ":". */
  lemma {:induction false} DictOfLast(parts: seq<string>)
    requires parts != []
    ensures DictOf(parts).Err? <==> DictOf(parts[..|parts| - 1]).Err? || !Contains(parts[|parts| - 1], COLON)
  {
  }

  lemma {:induction false} ExistsOnInit(parts: seq<string>, init: seq<string>)
    requires parts != [] && init == parts[..|parts| - 1]
    ensures (exists k | 0 <= k < |parts| :: !Contains(parts[k], COLON))
            <==> (exists k | 0 <= k < |init| :: !Contains(init[k], COLON)) || !Contains(parts[|parts| - 1], COLON)
  {
    if exists k | 0 <= k < |parts| :: !Contains(parts[k], COLON) {
      var k :| 0 <= k < |parts| && !Contains(parts[k], COLON);
      if k < |init| {
        assert init[k] == parts[k];
      }
    }
    if exists k | 0 <= k < |init| :: !Contains(init[k], COLON) {
      var k :| 0 <= k < |init| && !Contains(init[k], COLON);
      assert parts[k] == init[k];
    }
  }


  /** No key of the dict getDictFrom builds has an empty value. */
  lemma {:induction false} DictOfSkipsEmpty(parts: seq<string>)
    ensures DictOf(parts).Ok? ==> forall key | key in DictOf(parts).value :: DictOf(parts).value[key] != ""
    decreases |parts|
  {
    if parts != [] {
      DictOfSkipsEmpty(parts[..|parts| - 1]);
    }
  }

  /** A key of the dict is the key of some part, and holds the value of the last part with that key and a value. */
  lemma {:induction false} DictOfValue(parts: seq<string>, key: string)
    requires DictOf(parts).Ok? && key in DictOf(parts).value
    ensures exists k | 0 <= k < |parts| :: parts[k] == key + COLON + DictOf(parts).value[key]
    decreases |parts|
  {
    var init := parts[..|parts| - 1];
    var kv := SplitOnce(parts[|parts| - 1], COLON);
    var m := DictOf(init).value;
    if kv[1] != "" && kv[0] == key {
      assert parts[|parts| - 1] == key + COLON + DictOf(parts).value[key];
    } else {
      DictOfValue(init, key);
      var k :| 0 <= k < |init| && init[k] == key + COLON + m[key];
      assert parts[k] == init[k];
    }
  }
}
