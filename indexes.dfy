/**
 * Indexes: a catalog index keeps two dicts in step, "byValue" (each index
 * value to the ids of the objects holding it) and "byObject" (each object id
 * to the value indexed for it, a tuple for a multi-value).
 */
module Indexes {
  import opened Py

  /** What a field gives to index: None, a single value or a list of values. */
  datatype Value<K> = NoneValue | Scalar(v: K) | List(vs: seq<K>)

  /** What byObject stores: a single value, or a multi-value as a tuple. */
  datatype Stored<K> = Single(v: K) | Multi(vs: seq<K>)

  /** Index.emptyValues: None, [] and () */
  predicate IsEmpty<K(==)>(value: Value<K>)
  {
    value == NoneValue || value == List([])
  }

  /** isMultiple(value): a list, for a value from the database. */
  predicate IsMultiple<K(==)>(value: Value<K>) { value.List? }

  /** isMultiple(value, inIndex=True): a tuple, for a value from byObject. */
  predicate IsMultipleInIndex<K(==)>(current: Stored<K>) { current.Multi? }

  /** The value byObject gets for a value (getMultiple turns a list into a tuple). */
  function Store<K(==)>(value: Value<K>): Stored<K>
    requires value != NoneValue
  {
    match value
    case Scalar(v) => Single(v)
    case List(vs) => Multi(vs)
  }

  /** The single values a stored value has entries for in byValue. */
  function Elements<K(==)>(s: Stored<K>): seq<K>
  {
    match s
    case Single(v) => [v]
    case Multi(vs) => vs
  }

  /** The index invariant: an id is in byValue[v] exactly when byObject holds v for it, and byValue has no empty set. */
  predicate Consistent<K(==)>(byValue: map<K, set<int>>, byObject: map<int, Stored<K>>)
  {
    (forall v, id | v in byValue && id in byValue[v] :: id in byObject && v in Elements(byObject[id]))
    && (forall id, v | id in byObject && v in Elements(byObject[id]) :: v in byValue && id in byValue[v])
    && (forall v | v in byValue :: byValue[v] != {})
  }

  lemma {:induction false} SomeId(s: set<int>) returns (x: int)
    requires s != {}
    ensures x in s
  {
    if forall y :: y !in s {
      assert false;
    }
    x :| x in s;
  }

  /** byObject determines byValue: two forward dicts consistent with the same reverse dict are equal. */
  lemma {:induction false} ConsistentUnique<K>(forward1: map<K, set<int>>, forward2: map<K, set<int>>, byObject: map<int, Stored<K>>)
    requires Consistent(forward1, byObject) && Consistent(forward2, byObject)
    ensures forward1 == forward2
  {
    forall v | v in forward1 ensures v in forward2 {
      var w := SomeId(forward1[v]);
      assert w in byObject && v in Elements(byObject[w]);
    }
    forall v | v in forward2 ensures v in forward1 {
      var w := SomeId(forward2[v]);
      assert w in byObject && v in Elements(byObject[w]);
    }
    forall v | v in forward1 ensures forward1[v] == forward2[v] {
      forall x ensures x in forward1[v] <==> x in forward2[v] {
        if x in forward1[v] {
          assert x in byObject && v in Elements(byObject[x]);
        }
        if x in forward2[v] {
          assert x in byObject && v in Elements(byObject[x]);
        }
      }
    }
    assert forward1.Keys == forward2.Keys;
  }

  // byValue updates ---------------------------------------------------------

  /** addEntry for a single value, on byValue: the id inserted into the value's set, created if need be. */
  function AddId<K(==)>(byValue: map<K, set<int>>, v: K, id: int): map<K, set<int>>
  {
    if v in byValue then byValue[v := byValue[v] + {id}] else byValue[v := {id}]
  }

  function AddIds<K(==)>(byValue: map<K, set<int>>, vs: seq<K>, id: int): map<K, set<int>>
  {
    if vs == [] then byValue else AddId(AddIds(byValue, vs[..|vs| - 1], id), vs[|vs| - 1], id)
  }

  /** removeByValueEntry: the id removed from the value's set, and the set dropped once empty. */
  function RemoveId<K(==)>(byValue: map<K, set<int>>, v: K, id: int): map<K, set<int>>
  {
    if v !in byValue then byValue
    else
      var ids := byValue[v] - {id};
      if ids == {} then byValue - {v} else byValue[v := ids]
  }

  function RemoveIds<K(==)>(byValue: map<K, set<int>>, vs: seq<K>, id: int): map<K, set<int>>
  {
    if vs == [] then byValue else RemoveId(RemoveIds(byValue, vs[..|vs| - 1], id), vs[|vs| - 1], id)
  }

  /** Adding an id for values puts it in their sets and touches nothing else. */
  lemma {:induction false} AddIdsSpec<K>(byValue: map<K, set<int>>, vs: seq<K>, id: int)
    ensures var r := AddIds(byValue, vs, id);
            (forall v | v in r :: v in byValue || v in vs)
            && (forall v | v in byValue || v in vs :: v in r)
            && (forall v, x | v in r :: x in r[v] <==> (v in byValue && x in byValue[v]) || (x == id && v in vs))
            && ((forall v | v in byValue :: byValue[v] != {}) ==> forall v | v in r :: r[v] != {})
  {
    if vs != [] {
      AddIdsSpec(byValue, vs[..|vs| - 1], id);
      assert vs == vs[..|vs| - 1] + [vs[|vs| - 1]];
    }
  }

  /** Removing an id for values takes it out of their sets, drops the sets left empty and touches nothing else. */
  lemma {:induction false} RemoveIdsSpec<K>(byValue: map<K, set<int>>, vs: seq<K>, id: int)
    ensures var r := RemoveIds(byValue, vs, id);
            (forall v | v in r :: v in byValue)
            && (forall v, x | v in r :: x in r[v] <==> x in byValue[v] && !(x == id && v in vs))
            && (forall v, x | v in byValue && x in byValue[v] && !(x == id && v in vs) :: v in r)
            && ((forall v | v in byValue :: byValue[v] != {}) ==> forall v | v in r :: r[v] != {})
  {
    if vs != [] {
      var init := vs[..|vs| - 1];
      RemoveIdsSpec(byValue, init, id);
      assert vs == init + [vs[|vs| - 1]];
      var before := RemoveIds(byValue, init, id);
      forall v, x | v in byValue && x in byValue[v] && !(x == id && v in vs)
        ensures v in RemoveIds(byValue, vs, id)
      {
        assert !(x == id && v in init);
        assert v in before && x in before[v];
        if v == vs[|vs| - 1] {
          assert x != id;
          assert x in before[v] - {id};
        }
      }
    }
  }

  lemma {:induction false} AddPreserves<K>(byValue: map<K, set<int>>, byObject: map<int, Stored<K>>, id: int, s: Stored<K>)
    requires Consistent(byValue, byObject) && id !in byObject
    ensures Consistent(AddIds(byValue, Elements(s), id), byObject[id := s])
  {
    AddIdsSpec(byValue, Elements(s), id);
  }

  lemma {:induction false} RemovePreserves<K>(byValue: map<K, set<int>>, byObject: map<int, Stored<K>>, id: int)
    requires Consistent(byValue, byObject) && id in byObject
    ensures Consistent(RemoveIds(byValue, Elements(byObject[id]), id), byObject - {id})
  {
    var vs := Elements(byObject[id]);
    RemoveIdsSpec(byValue, vs, id);
    var r := RemoveIds(byValue, vs, id);
    var rest := byObject - {id};
    forall other, v | other in rest && v in Elements(rest[other]) ensures v in r && other in r[v] {
      assert other != id && rest[other] == byObject[other];
      assert v in byValue && other in byValue[v];
    }
  }

  /** After an entry is removed, the id is in no set of byValue. */
  lemma {:induction false} RemovedIdIsGone<K>(byValue: map<K, set<int>>, byObject: map<int, Stored<K>>, id: int)
    requires Consistent(byValue, byObject) && id in byObject
    ensures var r := RemoveIds(byValue, Elements(byObject[id]), id);
            forall v | v in r :: id !in r[v]
  {
    var vs := Elements(byObject[id]);
    RemoveIdsSpec(byValue, vs, id);
    var r := RemoveIds(byValue, vs, id);
    forall v | v in r ensures id !in r[v] {
      assert v in byValue;
      if id in byValue[v] {
        assert v in vs;
      }
    }
  }

  // valueEquals -------------------------------------------------------------

  /** valueEquals: a list and a tuple compare element by element; otherwise Python's ==, under which a list never equals a tuple or a single value. */
  function Equal<K(==)>(value: Value<K>, current: Stored<K>): bool
  {
    match (value, current)
    case (List(xs), Multi(ys)) => xs == ys
    case (Scalar(x), Single(y)) => x == y
    case _ => false
  }

  /** A value equals the current one exactly when it would be stored as it. */
  lemma {:induction false} EqualIsStoredEquality<K>(value: Value<K>, current: Stored<K>)
    ensures Equal(value, current) <==> value != NoneValue && Store(value) == current
  {
  }

  method ValueEquals<K(==)>(value: Value<K>, current: Stored<K>) returns (r: bool)
    ensures r == Equal(value, current)
  {
    if !IsMultiple(value) || !IsMultipleInIndex(current) {
      return match (value, current)
        case (Scalar(x), Single(y)) => x == y
        case _ => false;
    }
    var xs, ys := value.vs, current.vs;
    var size := |xs|;
    r := size == |ys|;
    if r {
      var i := 0;
      while i < size
        invariant 0 <= i <= size
        invariant xs[..i] == ys[..i]
      {
        if xs[i] != ys[i] {
          r := false;
          break;
        }
        assert xs[..i + 1] == xs[..i] + [xs[i]] && ys[..i + 1] == ys[..i] + [ys[i]];
        i := i + 1;
      }
      if r {
        assert xs == xs[..i] && ys == ys[..i];
      }
    }
  }

  // The index ---------------------------------------------------------------

  class Index<K(==)> {
    var byValue: map<K, set<int>>
    var byObject: map<int, Stored<K>>

    predicate Valid()
      reads this
    {
      Consistent(byValue, byObject)
    }

    constructor ()
      ensures Valid() && byValue == map[] && byObject == map[]
    {
      byValue := map[];
      byObject := map[];
    }

    /** init: cleans the index. */
    method Init()
      modifies this
      ensures Valid() && byValue == map[] && byObject == map[]
    {
      byValue := map[];
      byObject := map[];
    }

    method RemoveByValueEntry(value: K, id: int)
      modifies this
      ensures byValue == RemoveId(old(byValue), value, id) && byObject == old(byObject)
    {
      if value !in byValue {
        return;
      }
      var ids := byValue[value] - {id};
      if ids == {} {
        byValue := byValue - {value};
      } else {
        byValue := byValue[value := ids];
      }
    }

    /** removeEntry: byObject[id] is required to exist (a KeyError otherwise). */
    method RemoveEntry(id: int)
      requires id in byObject
      modifies this
      ensures byObject == old(byObject) - {id}
      ensures byValue == RemoveIds(old(byValue), Elements(old(byObject)[id]), id)
      ensures old(Valid()) ==> Valid()
    {
      var value := byObject[id];
      byObject := byObject - {id};
      var vs := Elements(value);
      ghost var start := byValue;
      for k := 0 to |vs|
        invariant byValue == RemoveIds(start, vs[..k], id)
        invariant byObject == old(byObject) - {id}
      {
        assert vs[..k + 1][..k] == vs[..k];
        RemoveByValueEntry(vs[k], id);
      }
      assert vs[..|vs|] == vs;
      if old(Valid()) {
        RemovePreserves(old(byValue), old(byObject), id);
      }
    }

    /** addEntry(id, v, byValueOnly=True) for a single value. */
    method AddByValue(id: int, v: K)
      modifies this
      ensures byValue == AddId(old(byValue), v, id) && byObject == old(byObject)
    {
      if v in byValue {
        byValue := byValue[v := byValue[v] + {id}];
      } else {
        byValue := byValue[v := {id}];
      }
    }

    /** addEntry(id, value): a list is stored as a tuple and each of its elements gets an entry. */
    method AddEntry(id: int, value: Value<K>)
      requires value != NoneValue
      modifies this
      ensures byObject == old(byObject)[id := Store(value)]
      ensures byValue == AddIds(old(byValue), Elements(Store(value)), id)
      ensures old(Valid()) && id !in old(byObject) ==> Valid()
    {
      var stored := Store(value);
      byObject := byObject[id := stored];
      var vs := Elements(stored);
      ghost var start := byValue;
      for k := 0 to |vs|
        invariant byValue == AddIds(start, vs[..k], id)
        invariant byObject == old(byObject)[id := stored]
      {
        assert vs[..k + 1][..k] == vs[..k];
        AddByValue(id, vs[k]);
      }
      assert vs[..|vs|] == vs;
      if old(Valid()) && id !in old(byObject) {
        AddPreserves(old(byValue), old(byObject), id, stored);
      }
    }

    /** indexObject: None when nothing changed, Some(true) when entries were added or removed. */
    method IndexObject(id: int, value: Value<K>) returns (r: Option<bool>)
      requires Valid()
      modifies this
      ensures Valid()
      ensures r == None ==> byObject == old(byObject) && byValue == old(byValue)
      ensures r != None ==> r == Some(true)
      ensures IsEmpty(value) ==> (r == None <==> id !in old(byObject)) && byObject == old(byObject) - {id}
      ensures !IsEmpty(value) ==> (r == None <==> id in old(byObject) && Equal(value, old(byObject)[id]))
                                  && byObject == old(byObject)[id := Store(value)]
    {
      if IsEmpty(value) {
        if id !in byObject {
          return None;
        }
        RemoveEntry(id);
      } else {
        if id !in byObject {
          AddEntry(id, value);
        } else {
          var current := byObject[id];
          var same := ValueEquals(value, current);
          if same {
            EqualIsStoredEquality(value, current);
            assert byObject == byObject[id := Store(value)];
            return None;
          }
          RemoveEntry(id);
          AddEntry(id, value);
        }
      }
      return Some(true);
    }

    /** unindexObject: Some(true) exactly when an entry existed and was removed. */
    method UnindexObject(id: int) returns (r: Option<bool>)
      requires Valid()
      modifies this
      ensures Valid()
      ensures r == Some(true) <==> id in old(byObject)
      ensures r == None ==> byValue == old(byValue)
      ensures byObject == old(byObject) - {id}
      ensures forall v | v in byValue :: id !in byValue[v]
    {
      if id !in byObject {
        return None;
      }
      RemovedIdIsGone(byValue, byObject, id);
      RemoveEntry(id);
      return Some(true);
    }
  }
}
