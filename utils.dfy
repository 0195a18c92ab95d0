/**
 * Utils: the list and dict helpers of the framework's utility module.
 */
module Utils {
  import opened Py

  // asDict ------------------------------------------------------------------

  /** A dict whose keys are the elements of a sequence, every value being None. */
  function AsDict<T(!new)>(s: seq<T>): (r: map<T, Option<T>>)
    ensures forall x :: x in r <==> x in s
    ensures forall x | x in r :: r[x] == None
  {
    map x | x in s :: None
  }

  // initMasterValue ---------------------------------------------------------

  /** A single Python value a master field may hold. */
  datatype Atom = NoneAtom | BoolAtom(b: bool) | IntAtom(i: int) | StrAtom(s: string)

  /** What initMasterValue is given: a method, a single value or a list or tuple of values. */
  datatype MasterInput = Method | Scalar(a: Atom) | Sequence(items: seq<Atom>)

  datatype MasterValue = MethodValue | Strings(values: seq<string>)

  /** Python's str() on an atom. */
  function AtomString(a: Atom): string
  {
    match a
    case NoneAtom => "None"
    case BoolAtom(b) => if b then "True" else "False"
    case IntAtom(i) => IntToString(i)
    case StrAtom(s) => s
  }

  /** A falsy value other than a boolean: None, 0, "" or an empty sequence. */
  predicate IsEmptyValue(v: MasterInput)
  {
    match v
    case Method => false
    case Scalar(a) => a == NoneAtom || a == IntAtom(0) || a == StrAtom("")
    case Sequence(items) => items == []
  }

  /** initMasterValue: a method is kept; anything else becomes a list of strings. */
  function InitMasterValue(v: MasterInput): (r: MasterValue)
    ensures v.Method? <==> r.MethodValue?
    ensures IsEmptyValue(v) ==> r == Strings([])
    ensures v.Scalar? && !IsEmptyValue(v) ==> r == Strings([AtomString(v.a)])
    ensures v.Sequence? ==> r.Strings? && |r.values| == |v.items|
                            && forall k | 0 <= k < |v.items| :: r.values[k] == AtomString(v.items[k])
  {
    match v
    case Method => MethodValue
    case Scalar(a) => if IsEmptyValue(v) then Strings([]) else Strings([AtomString(a)])
    case Sequence(items) => Strings(seq(|items|, k requires 0 <= k < |items| => AtomString(items[k])))
  }

  /** The list of strings, handed back as a Python list. */
  function AsInput(r: MasterValue): MasterInput
  {
    match r
    case MethodValue => Method
    case Strings(values) => Sequence(seq(|values|, k requires 0 <= k < |values| => StrAtom(values[k])))
  }

  /** Standardizing an already standard value changes nothing. */
  lemma {:induction false} InitMasterValueIdempotent(v: MasterInput)
    ensures InitMasterValue(AsInput(InitMasterValue(v))) == InitMasterValue(v)
  {
    var r := InitMasterValue(v);
    if r.Strings? {
      var again := InitMasterValue(AsInput(r));
      assert again.values == r.values;
    }
  }

  // splitList ---------------------------------------------------------------

  /** The groups splitList builds, element by element: a new group starts at each index that `sub` divides. */
  function Grouped<T>(l: seq<T>, sub: int): (r: seq<seq<T>>)
    requires sub != 0
    ensures l == [] <==> r == []
    decreases |l|
  {
    if l == [] then []
    else
      var p := Grouped(l[..|l| - 1], sub);
      if Mod(|l| - 1, sub) == 0 then p + [[l[|l| - 1]]]
      else p[..|p| - 1] + [p[|p| - 1] + [l[|l| - 1]]]
  }

  /** splitList: None when `sub` is 0 and the list is not empty (the division by zero). */
  method SplitList<T>(l: seq<T>, sub: int) returns (r: Option<seq<seq<T>>>)
    ensures sub == 0 ==> r == (if l == [] then Some([]) else None)
    ensures sub != 0 ==> r == Some(Grouped(l, sub))
  {
    if sub == 0 {
      if l == [] { return Some([]); }
      return None;
    }
    var groups: seq<seq<T>> := [];
    var i := 0;
    while i < |l|
      invariant 0 <= i <= |l|
      invariant groups == Grouped(l[..i], sub)
    {
      assert l[..i + 1][..i] == l[..i];
      GroupedStep(l[..i + 1], sub);
      if Mod(i, sub) == 0 {
        groups := groups + [[l[i]]];
      } else {
        groups := groups[..|groups| - 1] + [groups[|groups| - 1] + [l[i]]];
      }
      i := i + 1;
    }
    assert l[..i] == l;
    return Some(groups);
  }

  /** The groups put back together give the list. */
  lemma {:induction false} GroupedFlatten<T>(l: seq<T>, sub: int)
    requires sub != 0
    ensures Flatten(Grouped(l, sub)) == l
    decreases |l|
  {
    if l != [] {
      var init := l[..|l| - 1];
      var x := l[|l| - 1];
      GroupedFlatten(init, sub);
      GroupedStep(l, sub);
      assert l == init + [x];
      if Mod(|l| - 1, sub) == 0 {
        FlattenAppend(Grouped(init, sub), [x]);
      } else {
        FlattenLonger(Grouped(init, sub), x);
      }
    }
  }

  /** Appending to the last group appends to the flattened list. */
  lemma {:induction false} FlattenLonger<T>(p: seq<seq<T>>, x: T)
    requires p != []
    ensures Flatten(p[..|p| - 1] + [p[|p| - 1] + [x]]) == Flatten(p) + [x]
  {
    var q := p[..|p| - 1];
    assert p == q + [p[|p| - 1]];
    FlattenAppend(q, p[|p| - 1]);
    FlattenAppend(q, p[|p| - 1] + [x]);
  }

  lemma {:induction false} ModZeroIff(i: int, sub: int)
    requires sub != 0
    ensures Mod(i, sub) == 0 <==> i % Abs(sub) == 0
  {
  }

  /** Every group holds |sub| elements, except the last, which holds between 1 and |sub|. */
  lemma {:induction false} GroupedSizes<T>(l: seq<T>, sub: int)
    requires sub != 0 && l != []
    ensures var r := Grouped(l, sub);
            |r| == (|l| - 1) / Abs(sub) + 1
            && |r[|r| - 1]| == (|l| - 1) % Abs(sub) + 1
            && forall k | 0 <= k < |r| - 1 :: |r[k]| == Abs(sub)
    decreases |l|
  {
    if |l| == 1 {
      assert Grouped(l, sub) == [[l[0]]] by { assert l[..0] == []; }
    } else {
      GroupedSizes(l[..|l| - 1], sub);
      GroupedSizesStep(l, sub);
    }
  }

  /** The group sizes of l from those of l without its last element. */
  lemma {:induction false} GroupedSizesStep<T>(l: seq<T>, sub: int)
    requires sub != 0 && |l| >= 2
    requires var p := Grouped(l[..|l| - 1], sub);
             |p| == (|l| - 2) / Abs(sub) + 1
             && |p[|p| - 1]| == (|l| - 2) % Abs(sub) + 1
             && forall k | 0 <= k < |p| - 1 :: |p[k]| == Abs(sub)
    ensures var r := Grouped(l, sub);
            |r| == (|l| - 1) / Abs(sub) + 1
            && |r[|r| - 1]| == (|l| - 1) % Abs(sub) + 1
            && forall k | 0 <= k < |r| - 1 :: |r[k]| == Abs(sub)
  {
    var n := Abs(sub);
    var m := |l| - 1;
    var x := l[m];
    var p := Grouped(l[..m], sub);
    GroupedStep(l, sub);
    if m % n == 0 {
      assert Mod(m, sub) == 0 by { ModZeroIff(m, sub); }
      SizesOfNewGroup(p, x, n, m);
    } else {
      assert Mod(m, sub) != 0 by { ModZeroIff(m, sub); }
      SizesOfLongerGroup(p, x, n, m);
    }
  }

  /** Grouped, one element further. */
  lemma {:induction false} GroupedStep<T>(l: seq<T>, sub: int)
    requires sub != 0 && l != []
    ensures var p := Grouped(l[..|l| - 1], sub);
            Grouped(l, sub) == if Mod(|l| - 1, sub) == 0 then p + [[l[|l| - 1]]]
                               else p[..|p| - 1] + [p[|p| - 1] + [l[|l| - 1]]]
  {
  }

  /** Group sizes of m elements, when the next one starts a group. */
  lemma {:induction false} SizesOfNewGroup<T>(p: seq<seq<T>>, x: T, n: int, m: int)
    requires n > 0 && m > 0 && m % n == 0
    requires |p| == (m - 1) / n + 1 && |p[|p| - 1]| == (m - 1) % n + 1
    requires forall k | 0 <= k < |p| - 1 :: |p[k]| == n
    ensures var r := p + [[x]];
            |r| == m / n + 1 && |r[|r| - 1]| == m % n + 1 && forall k | 0 <= k < |r| - 1 :: |r[k]| == n
  {
    DivModStep(m, n);
    var r := p + [[x]];
    forall k | 0 <= k < |r| - 1 ensures |r[k]| == n {
      assert r[k] == p[k];
    }
  }

  /** Group sizes of m elements, when the next one joins the last group. */
  lemma {:induction false} SizesOfLongerGroup<T>(p: seq<seq<T>>, x: T, n: int, m: int)
    requires n > 0 && m > 0 && m % n != 0
    requires |p| == (m - 1) / n + 1 && |p[|p| - 1]| == (m - 1) % n + 1
    requires forall k | 0 <= k < |p| - 1 :: |p[k]| == n
    ensures var r := p[..|p| - 1] + [p[|p| - 1] + [x]];
            |r| == m / n + 1 && |r[|r| - 1]| == m % n + 1 && forall k | 0 <= k < |r| - 1 :: |r[k]| == n
  {
    DivModStep(m, n);
    var r := p[..|p| - 1] + [p[|p| - 1] + [x]];
    forall k | 0 <= k < |r| - 1 ensures |r[k]| == n {
      assert r[k] == p[k];
    }
  }

  /** How m and m - 1 divide by n. */
  lemma {:induction false} DivModStep(m: int, n: int)
    requires m > 0 && n > 0
    ensures m % n == 0 ==> (m - 1) % n == n - 1 && (m - 1) / n + 1 == m / n
    ensures m % n != 0 ==> (m - 1) % n == m % n - 1 && (m - 1) / n == m / n
  {
    var q, r := m / n, m % n;
    assert m == q * n + r;
    if r == 0 {
      assert m - 1 == (q - 1) * n + (n - 1);
      DivModUnique(m - 1, n, q - 1, n - 1);
    } else {
      DivModUnique(m - 1, n, q, r - 1);
    }
  }

  // IterSub -----------------------------------------------------------------

  /** The elements an iterator at sub-list `i`, position `j` still has to yield, in order. */
  function RemainingOf<T>(l: seq<seq<T>>, i: nat, j: nat): seq<T>
  {
    if i >= |l| then []
    else (if j <= |l[i]| then l[i][j..] else []) + Flatten(l[i + 1..])
  }

  /** Past the end of a sub-list, the iterator moves on to the start of the next one. */
  lemma {:induction false} RemainingSkips<T>(l: seq<seq<T>>, i: nat, j: nat)
    requires i < |l| && j >= |l[i]|
    ensures RemainingOf(l, i, j) == RemainingOf(l, i + 1, 0)
  {
    assert l[i + 1..] == [] || l[i + 1..] == [l[i + 1]] + l[i + 2..];
    if i + 1 < |l| {
      assert l[i + 1][0..] == l[i + 1];
    }
  }

  /** Inside a sub-list, the next element is the one at `j`. */
  lemma {:induction false} RemainingTakes<T>(l: seq<seq<T>>, i: nat, j: nat)
    requires i < |l| && j < |l[i]|
    ensures RemainingOf(l, i, j) == [l[i][j]] + RemainingOf(l, i, j + 1)
  {
    assert l[i][j..] == [l[i][j]] + l[i][j + 1..];
  }

  /** An iterator over the elements of a list of lists. */
  class IterSub<T> {
    const l: seq<seq<T>>
    var i: nat
    var j: nat

    /** The elements still to come, in order. */
    function Remaining(): seq<T>
      reads this
    {
      RemainingOf(l, i, j)
    }

    constructor (l: seq<seq<T>>)
      ensures this.l == l && i == 0 && j == 0
      ensures Remaining() == Flatten(l)
    {
      this.l := l;
      i := 0;
      j := 0;
      new;
      if l != [] {
        assert l[0][0..] == l[0];
      }
    }

    /** __next__: None stands for StopIteration. */
    method Next() returns (r: Option<T>)
      modifies this
      ensures old(Remaining()) == [] ==> r == None && Remaining() == []
      ensures old(Remaining()) != [] ==> r == Some(old(Remaining())[0]) && Remaining() == old(Remaining())[1..]
      decreases |l| - i
    {
      if i + 1 > |l| {
        return None;
      }
      var sub := l[i];
      if j + 1 > |sub| {
        RemainingSkips(l, i, j);
        i := i + 1;
        j := 0;
        r := Next();
      } else {
        RemainingTakes(l, i, j);
        r := Some(sub[j]);
        j := j + 1;
      }
    }

    /** Draining the iterator: everything that remains, in order. */
    method Rest() returns (r: seq<T>)
      modifies this
      ensures r == old(Remaining()) && Remaining() == []
    {
      ghost var all := Remaining();
      r := [];
      while true
        invariant r + Remaining() == all
        decreases |Remaining()|
      {
        ghost var before := Remaining();
        var next := Next();
        if next.None? {
          assert r == all;
          return;
        }
        assert before == [next.value] + Remaining();
        r := r + [next.value];
        assert r + Remaining() == all;
      }
    }
  }

  /** A fresh iterator yields exactly the flattened list. */
  method IterSubYieldsFlatten<T>(l: seq<seq<T>>) returns (r: seq<T>)
    ensures r == Flatten(l)
  {
    var it := new IterSub(l);
    r := it.Rest();
  }

  // getElementAt ------------------------------------------------------------

  /** getElementAt: None for an empty list, where the modulo divides by zero. */
  function GetElementAt<T>(l: seq<T>, cyclicIndex: int): (r: Option<T>)
    ensures l == [] <==> r == None
  {
    if l == [] then None else Some(l[Mod(cyclicIndex, |l|)])
  }

  /** Indices wrap around the list in both directions, and an index inside the list is taken as it is. */
  lemma {:induction false} GetElementAtCycles<T>(l: seq<T>, cyclicIndex: int)
    requires l != []
    ensures GetElementAt(l, cyclicIndex + |l|) == GetElementAt(l, cyclicIndex)
    ensures 0 <= cyclicIndex < |l| ==> GetElementAt(l, cyclicIndex) == Some(l[cyclicIndex])
    ensures -|l| <= cyclicIndex < 0 ==> GetElementAt(l, cyclicIndex) == Some(l[|l| + cyclicIndex])
  {
    var n := |l|;
    var q, r := cyclicIndex / n, cyclicIndex % n;
    assert cyclicIndex + n == (q + 1) * n + r;
    DivModUnique(cyclicIndex + n, n, q + 1, r);
    if 0 <= cyclicIndex < n {
      DivModUnique(cyclicIndex, n, 0, cyclicIndex);
    }
    if -n <= cyclicIndex < 0 {
      DivModUnique(cyclicIndex, n, -1, n + cyclicIndex);
    }
  }

  // flipDict ----------------------------------------------------------------

  /** The flipped dict, entry after entry: a later entry overrides an earlier one with the same value. */
  function Flipped<K, V>(items: seq<(K, V)>): map<V, K>
  {
    if items == [] then map[]
    else
      var last := items[|items| - 1];
      Flipped(items[..|items| - 1])[last.1 := last.0]
  }

  /** flipDict(d): the dict's items in their order. */
  method FlipDict<K, V>(items: seq<(K, V)>) returns (r: map<V, K>)
    ensures r == Flipped(items)
  {
    r := map[];
    for n := 0 to |items|
      invariant r == Flipped(items[..n])
    {
      assert items[..n + 1][..n] == items[..n];
      r := r[items[n].1 := items[n].0];
    }
    assert items[..|items|] == items;
  }

  /** Every value becomes a key, mapped to the key of the last entry holding that value. */
  lemma {:induction false} FlippedInverts<K, V>(items: seq<(K, V)>)
    ensures Flipped(items).Keys == set p | p in items :: p.1
    ensures forall i | 0 <= i < |items| && (forall j | i < j < |items| :: items[j].1 != items[i].1) ::
              Flipped(items)[items[i].1] == items[i].0
  {
    if items != [] {
      var init := items[..|items| - 1];
      FlippedInverts(init);
      assert items == init + [items[|items| - 1]];
      assert forall i | 0 <= i < |init| :: init[i] == items[i];
    }
  }

  /** The chars of one value, each mapped to the key. */
  function FlippedChars<K>(r: map<char, K>, k: K, v: string): map<char, K>
  {
    if v == [] then r else FlippedChars(r, k, v[..|v| - 1])[v[|v| - 1] := k]
  }

  function FlippedByChar<K>(items: seq<(K, string)>): map<char, K>
  {
    if items == [] then map[]
    else
      var last := items[|items| - 1];
      FlippedChars(FlippedByChar(items[..|items| - 1]), last.0, last.1)
  }

  /** flipDict(d, byChar=True) */
  method FlipDictByChar<K>(items: seq<(K, string)>) returns (r: map<char, K>)
    ensures r == FlippedByChar(items)
  {
    r := map[];
    for n := 0 to |items|
      invariant r == FlippedByChar(items[..n])
    {
      assert items[..n + 1][..n] == items[..n];
      var (k, v) := items[n];
      ghost var before := r;
      for m := 0 to |v|
        invariant r == FlippedChars(before, k, v[..m])
      {
        assert v[..m + 1][..m] == v[..m];
        r := r[v[m] := k];
      }
      assert v[..|v|] == v;
    }
    assert items[..|items|] == items;
  }

  lemma {:induction false} FlippedCharsMaps<K>(r: map<char, K>, k: K, v: string)
    ensures FlippedChars(r, k, v).Keys == r.Keys + set c | c in v
    ensures forall c | c in v :: FlippedChars(r, k, v)[c] == k
    ensures forall c | c in r && c !in v :: FlippedChars(r, k, v)[c] == r[c]
  {
    if v != [] {
      var init := v[..|v| - 1];
      FlippedCharsMaps(r, k, init);
      assert v == init + [v[|v| - 1]];
    }
  }

  /** Every char of a value becomes a key, mapped to the key of the last entry whose value holds it. */
  lemma {:induction false} FlippedByCharInverts<K>(items: seq<(K, string)>)
    ensures forall c :: c in FlippedByChar(items) <==> exists p | p in items :: c in p.1
    ensures forall i, c | 0 <= i < |items| && c in items[i].1 && (forall j | i < j < |items| :: c !in items[j].1) ::
              FlippedByChar(items)[c] == items[i].0
  {
    if items != [] {
      var init := items[..|items| - 1];
      var last := items[|items| - 1];
      FlippedByCharInverts(init);
      FlippedCharsMaps(FlippedByChar(init), last.0, last.1);
      assert items == init + [last];
      assert forall i | 0 <= i < |init| :: init[i] == items[i];
    }
  }

  // addListValue ------------------------------------------------------------

  /** `d` after addListValue(d, key, value). */
  function WithListValue<K, V>(d: map<K, seq<V>>, key: K, value: V): map<K, seq<V>>
  {
    d[key := (if key in d then d[key] else []) + [value]]
  }

  /** The value is appended at the key, to a new list if there was none; the other keys keep their lists. */
  lemma {:induction false} WithListValueAppends<K, V>(d: map<K, seq<V>>, key: K, value: V)
    ensures WithListValue(d, key, value).Keys == d.Keys + {key}
    ensures var l := WithListValue(d, key, value)[key];
            |l| >= 1 && l[|l| - 1] == value && (key in d ==> l[..|l| - 1] == d[key]) && (key !in d ==> l == [value])
    ensures forall k | k in d && k != key :: WithListValue(d, key, value)[k] == d[k]
  {
    var l := WithListValue(d, key, value)[key];
    if key in d {
      assert l[..|l| - 1] == d[key];
    }
  }

  /** A dict of lists, updated in place. */
  class ListDict<K(==), V> {
    var entries: map<K, seq<V>>

    constructor ()
      ensures entries == map[]
    {
      entries := map[];
    }

    /** addListValue */
    method AddListValue(key: K, value: V)
      modifies this
      ensures entries == WithListValue(old(entries), key, value)
    {
      if key in entries {
        entries := entries[key := entries[key] + [value]];
      } else {
        assert [] + [value] == [value];
        entries := entries[key := [value]];
      }
    }
  }

  // iconParts ---------------------------------------------------------------

  const SLASH := "/"
  const SVG_SUFFIX := ".svg"

  /** iconParts: the icon name, the app part before the first "/" if any, and whether the icon is an SVG file. */
  function IconParts(icon: string): (r: (string, Option<string>, bool))
    ensures r.1.None? <==> !Contains(icon, SLASH)
    ensures r.1.None? ==> r.0 == icon
    ensures r.1.Some? ==> icon == r.1.value + SLASH + r.0 && !Contains(r.1.value, SLASH)
    ensures r.2 <==> EndsWith(r.0, SVG_SUFFIX)
  {
    var parts := SplitOnce(icon, SLASH);
    if |parts| == 2 then (parts[1], Some(parts[0]), EndsWith(parts[1], SVG_SUFFIX))
    else (icon, None, EndsWith(icon, SVG_SUFFIX))
  }
}
