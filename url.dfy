/**
 * Url: splitting a URL into its base and its dict of parameters, and
 * encoding a dict of parameters as a query string. The parsing of the URL
 * itself (urllib.parse.urlparse) is taken as given: its result is a
 * parameter of `Split`.
 */
module Url {
  import opened Py

  const AMP := "&"
  const EQ := "="
  const SCHEME_SEP := "://"
  /** The exception Python raises when a name is read before being bound. */
  const UNBOUND_LOCAL := "UnboundLocalError"

  /** What urlparse extracts from a URL (params and fragment aside). */
  datatype ParsedUrl = ParsedUrl(scheme: string, netloc: string, path: string, query: string)

  /** The parameters of a query: a name maps to its value, or to None when the parameter has no "=". */
  type Params = map<string, Option<string>>

  // split -------------------------------------------------------------------

  /** One "name=value" parameter, split at its first "=". */
  function ParamOf(param: string): (r: (string, Option<string>))
    ensures r.1.None? <==> !Contains(param, EQ)
    ensures r.1.None? ==> r.0 == param
    ensures r.1.Some? ==> param == r.0 + EQ + r.1.value && !Contains(r.0, EQ)
  {
    var kv := SplitOnce(param, EQ);
    if |kv| == 2 then (kv[0], Some(kv[1])) else (param, None)
  }

  /** The dict of parameters, built left to right: a later parameter overrides an earlier one with its name. */
  function ParamsOf(params: seq<string>): Params
  {
    if params == [] then map[]
    else
      var p := ParamOf(params[|params| - 1]);
      ParamsOf(params[..|params| - 1])[p.0 := p.1]
  }

  /**
   * The loop of split as written: a parameter without "=" stores None under
   * the name of the PREVIOUS parameter, which is unbound for the first one.
   * The state is the dict so far and the last name bound.
   */
  function ParamsAsWritten(params: seq<string>): Result<(Params, Option<string>)>
  {
    if params == [] then Ok((map[], None))
    else
      match ParamsAsWritten(params[..|params| - 1])
      case Err(e) => Err(e)
      case Ok((r, name)) =>
        var param := params[|params| - 1];
        if Contains(param, EQ) then
          var kv := SplitOnce(param, EQ);
          Ok((r[kv[0] := Some(kv[1])], Some(kv[0])))
        else if name.None? then Err(UNBOUND_LOCAL)
        else Ok((r[name.value := None], name))
  }

  /** The URL split returns: scheme, "://", netloc and path. */
  function BaseUrl(parsed: ParsedUrl): string
  {
    parsed.scheme + SCHEME_SEP + parsed.netloc + parsed.path
  }

  /** split(url), given what urlparse made of url: the url itself and None without a query. */
  function SplitSpec(url: string, parsed: ParsedUrl): (r: (string, Option<Params>))
    ensures parsed.query == "" <==> r.1.None?
    ensures parsed.query == "" ==> r.0 == url
  {
    if parsed.query == "" then (url, None)
    else (BaseUrl(parsed), Some(ParamsOf(Split(parsed.query, AMP))))
  }

  /** split: a parameter without "=" maps itself to None. */
  method SplitUrl(url: string, parsed: ParsedUrl) returns (base: string, params: Option<Params>)
    ensures (base, params) == SplitSpec(url, parsed)
  {
    if parsed.query == "" {
      return url, None;
    }
    var parts := Split(parsed.query, AMP);
    var r: Params := map[];
    for i := 0 to |parts|
      invariant r == ParamsOf(parts[..i])
    {
      assert parts[..i + 1][..i] == parts[..i];
      var p := ParamOf(parts[i]);
      r := r[p.0 := p.1];
    }
    assert parts[..|parts|] == parts;
    return BaseUrl(parsed), Some(r);
  }

  /** A first parameter without "=" makes split raise, where it is meant to map to None. */
  lemma {:induction false} SplitAsWrittenRaises(param: string)
    requires !Contains(param, EQ)
    ensures ParamsAsWritten([param]) == Err(UNBOUND_LOCAL)
    ensures ParamsOf([param]) == map[param := None]
  {
    assert [param][..0] == [];
  }

  /** A later parameter without "=" overwrites the value of the previous parameter, and is itself missing. */
  lemma {:induction false} SplitAsWrittenOverwrites(name: string, value: string, param: string)
    requires !Contains(name, EQ) && !Contains(param, EQ) && name != param
    ensures var r := ParamsAsWritten([name + EQ + value, param]);
            r.Ok? && r.value.0 == map[name := None]
    ensures ParamsOf([name + EQ + value, param]) == map[name := Some(value), param := None]
  {
    var first := name + EQ + value;
    SplitOnceAt(name, EQ, value);
    assert [first, param][..1] == [first];
    assert [first][..0] == [];
    assert ParamOf(first) == (name, Some(value));
    assert ParamsOf([first]) == map[name := Some(value)];
    assert ParamsAsWritten([first]) == Ok((map[name := Some(value)], Some(name)));
    var w := [first, param];
    assert w[..|w| - 1] == [first] && w[|w| - 1] == param;
    assert ParamsAsWritten(w) == Ok((map[name := Some(value)][name := None], Some(name)));
    assert map[name := Some(value)][name := None] == map[name := None];
  }

  // encode ------------------------------------------------------------------

  /** A parameter value: None, a string, or an int that str() converts. */
  datatype ParamValue = NoneValue | Str(s: string) | Int(i: int)

  function AsString(v: ParamValue): string
  {
    match v
    case NoneValue => "None"
    case Str(s) => s
    case Int(i) => IntToString(i)
  }

  /** The "name=value" entries encode produces, in the dict's order. */
  function Entries(items: seq<(string, ParamValue)>, ignoreNoneValues: bool): (r: seq<string>)
    ensures |r| <= |items|
  {
    if items == [] then []
    else
      var (name, value) := items[|items| - 1];
      Entries(items[..|items| - 1], ignoreNoneValues)
      + (if ignoreNoneValues && value.NoneValue? then [] else [name + EQ + AsString(value)])
  }

  /** What encode returns: falsy params unchanged, or the query string. */
  datatype Encoded = Unchanged | Query(q: string)

  /** encode(params, ignoreNoneValues); the params are None or the dict's items in order. */
  method Encode(params: Option<seq<(string, ParamValue)>>, ignoreNoneValues: bool) returns (r: Encoded)
    ensures (params.None? || params.value == []) <==> r.Unchanged?
    ensures r.Query? ==> r.q == Join(Entries(params.value, ignoreNoneValues), AMP)
  {
    if params.None? || params.value == [] {
      return Unchanged;
    }
    var items := params.value;
    var entries: seq<string> := [];
    for i := 0 to |items|
      invariant entries == Entries(items[..i], ignoreNoneValues)
    {
      assert items[..i + 1][..i] == items[..i];
      var (name, value) := items[i];
      if ignoreNoneValues && value.NoneValue? {
        continue;
      }
      entries := entries + [name + EQ + AsString(value)];
    }
    assert items[..|items|] == items;
    return Query(Join(entries, AMP));
  }

  /** The params a query should decode to: each name with a value, as a string. */
  function Expected(items: seq<(string, ParamValue)>): Params
  {
    if items == [] then map[]
    else
      var (name, value) := items[|items| - 1];
      var init := Expected(items[..|items| - 1]);
      if value.NoneValue? then init else init[name := Some(AsString(value))]
  }

  /** A name and value that survive a round trip: no "&" anywhere and no "=" in the name. */
  predicate Safe(item: (string, ParamValue))
  {
    '&' !in item.0 && '=' !in item.0 && (item.1.Str? ==> '&' !in item.1.s)
  }

  lemma {:induction false} IntTextHasNoAmp(i: int)
    ensures '&' !in IntToString(i)
  {
    var d := NatToString(if i < 0 then -i else i);
    assert forall k | 0 <= k < |d| :: IsDigit(d[k]);
    if i < 0 {
      assert IntToString(i) == MINUS + d;
      assert forall k | 0 <= k < |MINUS + d| :: (MINUS + d)[k] == '-' || IsDigit((MINUS + d)[k]);
    }
  }

  /** An encoded entry splits back into its name and value. */
  lemma {:induction false} EntryReads(name: string, value: ParamValue)
    requires Safe((name, value))
    ensures ParamOf(name + EQ + AsString(value)) == (name, Some(AsString(value)))
    ensures '&' !in name + EQ + AsString(value)
  {
    ContainsChar(name, '=');
    SplitOnceAt(name, EQ, AsString(value));
    if value.Int? {
      IntTextHasNoAmp(value.i);
    }
  }

  lemma {:induction false} ParamsOfSnoc(es: seq<string>, e: string)
    ensures ParamsOf(es + [e]) == ParamsOf(es)[ParamOf(e).0 := ParamOf(e).1]
  {
    assert (es + [e])[..|es|] == es;
  }

  lemma {:induction false} EntriesRead(items: seq<(string, ParamValue)>)
    requires forall k | 0 <= k < |items| :: Safe(items[k])
    ensures ParamsOf(Entries(items, true)) == Expected(items)
  {
    if items != [] {
      var init := items[..|items| - 1];
      var (name, value) := items[|items| - 1];
      EntriesRead(init);
      if !value.NoneValue? {
        EntryReads(name, value);
        var e := name + EQ + AsString(value);
        assert Entries(items, true) == Entries(init, true) + [e];
        assert Expected(items) == Expected(init)[name := Some(AsString(value))];
        ParamsOfSnoc(Entries(init, true), e);
      } else {
        assert Entries(items, true) == Entries(init, true);
        assert Expected(items) == Expected(init);
      }
    }
  }

  lemma {:induction false} EntriesHaveNoAmp(items: seq<(string, ParamValue)>)
    requires forall k | 0 <= k < |items| :: Safe(items[k])
    ensures forall k | 0 <= k < |Entries(items, true)| :: '&' !in Entries(items, true)[k]
  {
    if items != [] {
      var init := items[..|items| - 1];
      var (name, value) := items[|items| - 1];
      EntriesHaveNoAmp(init);
      if !value.NoneValue? {
        EntryReads(name, value);
      }
    }
  }

  /** Splitting the query encode builds gives back every parameter that had a value. */
  lemma {:induction false} EncodeRoundTrip(items: seq<(string, ParamValue)>)
    requires forall k | 0 <= k < |items| :: Safe(items[k])
    requires Entries(items, true) != []
    ensures ParamsOf(Split(Join(Entries(items, true), AMP), AMP)) == Expected(items)
  {
    var es := Entries(items, true);
    EntriesRead(items);
    EntriesHaveNoAmp(items);
    forall k | 0 <= k < |es| ensures !Contains(es[k], AMP) {
      ContainsChar(es[k], '&');
    }
    SplitJoin(es, AMP);
  }
}
