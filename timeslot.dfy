/**
 * Timeslots: the parts of a day a calendar's events are placed in. The
 * slot "main" stands for the whole day; a slot may restrict the event types
 * it accepts, and one slot may be the default one.
 */
module Timeslots {
  import opened Py

  /** The id of the timeslot representing the whole day. */
  const MAIN := "main"

  /** The error `list.remove` raises for a value the list does not hold. */
  const VALUE_ERROR := "ValueError"

  datatype Timeslot = Timeslot(id: string, name: string, eventTypes: Option<seq<string>>, dayPart: real, default: bool)

  /** Timeslot.__init__: the name defaults to the id; the day part to 1.0. */
  function NewTimeslot(id: string, name: Option<string>, eventTypes: Option<seq<string>>, dayPart: real, default: bool): (r: Timeslot)
    ensures r.id == id && r.eventTypes == eventTypes && r.dayPart == dayPart && r.default == default
    ensures name.Some? && name.value != [] ==> r.name == name.value
    ensures name.None? || name.value == [] ==> r.name == id
  {
    Timeslot(id, if name.Some? && name.value != [] then name.value else id, eventTypes, dayPart, default)
  }

  /** The timeslot a calendar gets when none is defined. */
  const MAIN_SLOT := NewTimeslot(MAIN, None, None, 1.0, false)

  /** allows: a slot without event types accepts every type, otherwise only those it lists. */
  function Allows(slot: Timeslot, eventType: string): (r: bool)
    ensures slot.eventTypes.None? || slot.eventTypes.value == [] ==> r
    ensures slot.eventTypes.Some? && slot.eventTypes.value != [] ==> (r <==> eventType in slot.eventTypes.value)
  {
    slot.eventTypes.None? || slot.eventTypes.value == [] || eventType in slot.eventTypes.value
  }

  // ------------------------------------------------------------------------
  // check and init
  // ------------------------------------------------------------------------

  /** The exceptions check raises: TS_NO and TS_MAIN. */
  datatype SlotError = NoSlot | MainNotWholeDay

  function Message(e: SlotError): string
  {
    match e
    case NoSlot => "At least one timeslot must be defined."
    case MainNotWholeDay => "The \"main\" timeslot must have a day part of 1.0."
  }

  /** What is wrong with a list of timeslots, if anything: none at all, or a "main" slot not covering the whole day. */
  function SlotsError(slots: seq<Timeslot>): Option<SlotError>
  {
    if slots == [] then Some(NoSlot)
    else if exists k | 0 <= k < |slots| :: slots[k].id == MAIN && slots[k].dayPart != 1.0 then Some(MainNotWholeDay)
    else None
  }

  /** check */
  method Check(slots: seq<Timeslot>) returns (error: Option<SlotError>)
    ensures error == SlotsError(slots)
  {
    if slots == [] {
      return Some(NoSlot);
    }
    for k := 0 to |slots|
      invariant forall j | 0 <= j < k :: !(slots[j].id == MAIN && slots[j].dayPart != 1.0)
    {
      if slots[k].id == MAIN && slots[k].dayPart != 1.0 {
        return Some(MainNotWholeDay);
      }
    }
    return None;
  }

  /** The timeslots attribute of a calendar: a list of slots, or a method computing them. */
  datatype CalendarSlots = SlotList(slots: seq<Timeslot>) | SlotMethod(id: string)

  /** init: no slot (None or an empty list) gives the single "main" slot; a list is checked, a method is not. */
  method Init(given: Option<CalendarSlots>) returns (stored: CalendarSlots, error: Option<SlotError>)
    ensures given.None? || given.value == SlotList([]) ==> stored == SlotList([MAIN_SLOT]) && error.None?
    ensures given.Some? && given.value != SlotList([]) ==> stored == given.value
    ensures given.Some? && given.value.SlotMethod? ==> error.None?
    ensures given.Some? && given.value.SlotList? && given.value.slots != [] ==> error == SlotsError(given.value.slots)
  {
    if given.None? || given.value == SlotList([]) {
      return SlotList([MAIN_SLOT]), None;
    }
    stored := given.value;
    error := None;
    if stored.SlotList? {
      error := Check(stored.slots);
    }
  }

  /** The default "main" slot passes the check. */
  lemma {:induction false} MainSlotIsValid()
    ensures SlotsError([MAIN_SLOT]).None?
  {
    assert [MAIN_SLOT][0] == MAIN_SLOT;
  }

  // ------------------------------------------------------------------------
  // getAllNamed
  // ------------------------------------------------------------------------

  /** The name shown for a slot: the translated `mainName` for "main", its own name otherwise. */
  function SlotName(slot: Timeslot, mainName: string): string
  {
    if slot.id == MAIN then mainName else slot.name
  }

  /** getAllNamed, slot by slot: a default slot is inserted in front, the others appended. */
  function AllNamed(slots: seq<Timeslot>, mainName: string): (r: seq<(string, Timeslot)>)
    ensures |r| == |slots|
  {
    if slots == [] then []
    else
      var slot := slots[|slots| - 1];
      var named := AllNamed(slots[..|slots| - 1], mainName);
      if slot.default then [(SlotName(slot, mainName), slot)] + named else named + [(SlotName(slot, mainName), slot)]
  }

  /** getAllNamed */
  method GetAllNamed(slots: seq<Timeslot>, mainName: string) returns (r: seq<(string, Timeslot)>)
    ensures r == AllNamed(slots, mainName)
  {
    r := [];
    for k := 0 to |slots|
      invariant r == AllNamed(slots[..k], mainName)
    {
      assert slots[..k + 1][..k] == slots[..k];
      var slot := slots[k];
      var name := if slot.id == MAIN then mainName else slot.name;
      if slot.default {
        r := [(name, slot)] + r;
      } else {
        r := r + [(name, slot)];
      }
    }
    assert slots[..|slots|] == slots;
  }

  /** The slots, each with the name shown for it. */
  function Labelled(slots: seq<Timeslot>, mainName: string): (r: seq<(string, Timeslot)>)
    ensures |r| == |slots|
    ensures forall k | 0 <= k < |slots| :: r[k].1 == slots[k]
    ensures forall k | 0 <= k < |slots| :: slots[k].id == MAIN ==> r[k].0 == mainName
    ensures forall k | 0 <= k < |slots| :: slots[k].id != MAIN ==> r[k].0 == slots[k].name
  {
    seq(|slots|, k requires 0 <= k < |slots| => (SlotName(slots[k], mainName), slots[k]))
  }

  /** The default slots, in order. */
  function Defaults(slots: seq<Timeslot>): seq<Timeslot>
  {
    if slots == [] then []
    else Defaults(slots[..|slots| - 1]) + (if slots[|slots| - 1].default then [slots[|slots| - 1]] else [])
  }

  /** The other slots, in order. */
  function Others(slots: seq<Timeslot>): seq<Timeslot>
  {
    if slots == [] then []
    else Others(slots[..|slots| - 1]) + (if slots[|slots| - 1].default then [] else [slots[|slots| - 1]])
  }

  function Reverse<T>(s: seq<T>): (r: seq<T>)
    ensures |r| == |s|
  {
    if s == [] then [] else [s[|s| - 1]] + Reverse(s[..|s| - 1])
  }

  /**
   * getAllNamed puts the default slots first (the last one defined first)
   * and then the other slots in their order: with a single default slot, as
   * intended, that slot comes first and the others keep their order.
   */
  lemma {:induction false} AllNamedOrder(slots: seq<Timeslot>, mainName: string)
    ensures AllNamed(slots, mainName) == Reverse(Labelled(Defaults(slots), mainName)) + Labelled(Others(slots), mainName)
  {
    if slots != [] {
      var init := slots[..|slots| - 1];
      var slot := slots[|slots| - 1];
      var entry := (SlotName(slot, mainName), slot);
      AllNamedOrder(init, mainName);
      var d := Labelled(Defaults(init), mainName);
      var o := Labelled(Others(init), mainName);
      if slot.default {
        assert Defaults(slots) == Defaults(init) + [slot];
        assert Labelled(Defaults(slots), mainName) == d + [entry];
        assert (d + [entry])[..|d + [entry]| - 1] == d;
        assert Reverse(d + [entry]) == [entry] + Reverse(d);
      } else {
        assert Defaults(slots) == Defaults(init);
        assert Others(slots) == Others(init) + [slot];
        assert Labelled(Others(slots), mainName) == o + [entry];
        assert AllNamed(slots, mainName) == (Reverse(d) + o) + [entry];
        assert (Reverse(d) + o) + [entry] == Reverse(d) + (o + [entry]);
      }
    }
  }

  lemma {:induction false} DefaultsOfOne(slots: seq<Timeslot>, k: nat)
    requires k < |slots| && slots[k].default && forall j | 0 <= j < |slots| && j != k :: !slots[j].default
    ensures Defaults(slots) == [slots[k]]
  {
    var init := slots[..|slots| - 1];
    if k < |slots| - 1 {
      DefaultsOfOne(init, k);
    } else {
      NoDefaults(init);
    }
  }

  lemma {:induction false} NoDefaults(slots: seq<Timeslot>)
    requires forall j | 0 <= j < |slots| :: !slots[j].default
    ensures Defaults(slots) == []
  {
    if slots != [] {
      NoDefaults(slots[..|slots| - 1]);
    }
  }

  /** With exactly one default slot, getAllNamed lists it first. */
  lemma {:induction false} DefaultSlotFirst(slots: seq<Timeslot>, mainName: string, k: nat)
    requires k < |slots| && slots[k].default && forall j | 0 <= j < |slots| && j != k :: !slots[j].default
    ensures AllNamed(slots, mainName)[0] == (SlotName(slots[k], mainName), slots[k])
  {
    AllNamedOrder(slots, mainName);
    DefaultsOfOne(slots, k);
    assert Reverse(Labelled([slots[k]], mainName)) == Labelled([slots[k]], mainName);
  }

  // ------------------------------------------------------------------------
  // getFreeAt
  // ------------------------------------------------------------------------

  /** `list.remove(x)`: drops the first occurrence of x. */
  function RemoveFirst(xs: seq<string>, x: string): (r: seq<string>)
    requires x in xs
    ensures multiset(r) == multiset(xs) - multiset{x}
  {
    if xs[0] == x then
      assert xs == [xs[0]] + xs[1..];
      xs[1..]
    else
      assert xs == [xs[0]] + xs[1..];
      [xs[0]] + RemoveFirst(xs[1..], x)
  }

  /** The slot ids once "main" is removed, when present. */
  function WithoutMain(slotIds: seq<string>): seq<string>
  {
    if MAIN in slotIds then RemoveFirst(slotIds, MAIN) else slotIds
  }

  /** Removing the slots of the events one by one; None when one of them is not there any more (ValueError). */
  function RemoveAll(ids: seq<string>, taken: seq<string>): Option<seq<string>>
  {
    if taken == [] then Some(ids)
    else
      match RemoveAll(ids, taken[..|taken| - 1])
      case None => None
      case Some(rest) =>
        var t := taken[|taken| - 1];
        if t in rest then Some(RemoveFirst(rest, t)) else None
  }

  /** getFreeAt: all the slots when there is no event; otherwise the slots other than "main" not taken by an event. */
  function FreeAt(taken: seq<string>, slotIds: seq<string>): Result<seq<string>>
  {
    if taken == [] then Ok(slotIds)
    else
      match RemoveAll(WithoutMain(slotIds), taken)
      case None => Err(VALUE_ERROR)
      case Some(r) => Ok(r)
  }

  /** getFreeAt, given the timeslot ids of the events at the date. */
  method GetFreeAt(taken: seq<string>, slotIds: seq<string>) returns (r: Result<seq<string>>)
    ensures r == FreeAt(taken, slotIds)
  {
    if taken == [] {
      return Ok(slotIds);
    }
    var free := slotIds;
    if MAIN in free {
      free := RemoveFirst(free, MAIN);
    }
    for k := 0 to |taken|
      invariant RemoveAll(free, []) == Some(free)
      invariant RemoveAll(WithoutMain(slotIds), taken[..k]) == Some(free)
    {
      assert taken[..k + 1][..k] == taken[..k];
      if taken[k] !in free {
        FailureStays(WithoutMain(slotIds), taken, k + 1);
        assert taken[..|taken|] == taken;
        return Err(VALUE_ERROR);
      }
      free := RemoveFirst(free, taken[k]);
    }
    assert taken[..|taken|] == taken;
    return Ok(free);
  }

  lemma {:induction false} FailureStays(ids: seq<string>, taken: seq<string>, j: nat)
    requires 0 < j <= |taken| && RemoveAll(ids, taken[..j]).None?
    ensures RemoveAll(ids, taken).None?
    decreases |taken| - j
  {
    if j < |taken| {
      assert taken[..j + 1][..j] == taken[..j];
      FailureStays(ids, taken, j + 1);
    } else {
      assert taken[..j] == taken;
    }
  }

  /** Removing the taken slots succeeds exactly when each is there as often as it is taken, and leaves the others. */
  lemma {:induction false} RemoveAllMeaning(ids: seq<string>, taken: seq<string>)
    ensures RemoveAll(ids, taken).Some? <==> multiset(taken) <= multiset(ids)
    ensures RemoveAll(ids, taken).Some? ==> multiset(RemoveAll(ids, taken).value) == multiset(ids) - multiset(taken)
  {
    if taken != [] {
      var init := taken[..|taken| - 1];
      var t := taken[|taken| - 1];
      assert taken == init + [t];
      RemoveAllMeaning(ids, init);
      assert multiset(taken) == multiset(init) + multiset{t};
      if RemoveAll(ids, init).Some? {
        var rest := RemoveAll(ids, init).value;
        assert t in rest <==> multiset(rest)[t] > 0;
        SubStep(multiset(ids), multiset(init), t);
      } else {
        assert multiset(init) <= multiset(taken);
      }
    }
  }

  lemma {:induction false} SubStep(a: multiset<string>, b: multiset<string>, t: string)
    requires b <= a
    ensures (b + multiset{t} <= a) <==> (a - b)[t] > 0
    ensures (a - b)[t] > 0 ==> (a - b) - multiset{t} == a - (b + multiset{t})
  {
  }

  /**
   * With events at the date, the free slots are the slots other than "main"
   * less those the events take; the call fails (ValueError) exactly when an
   * event's slot is not among them.
   */
  lemma {:induction false} FreeAtMeaning(taken: seq<string>, slotIds: seq<string>)
    ensures taken == [] ==> FreeAt(taken, slotIds) == Ok(slotIds)
    ensures taken != [] ==> (FreeAt(taken, slotIds).Ok? <==> multiset(taken) <= multiset(WithoutMain(slotIds)))
    ensures taken != [] && FreeAt(taken, slotIds).Ok? ==>
              multiset(FreeAt(taken, slotIds).value) == multiset(WithoutMain(slotIds)) - multiset(taken)
  {
    RemoveAllMeaning(WithoutMain(slotIds), taken);
  }

  /** When the slot ids are distinct, neither "main" nor a taken slot is free. */
  lemma {:induction false} FreeSlotsAreFree(taken: seq<string>, slotIds: seq<string>)
    requires taken != [] && FreeAt(taken, slotIds).Ok?
    requires forall i, j | 0 <= i < j < |slotIds| :: slotIds[i] != slotIds[j]
    ensures MAIN !in FreeAt(taken, slotIds).value
    ensures forall k | 0 <= k < |taken| :: taken[k] !in FreeAt(taken, slotIds).value
  {
    FreeAtMeaning(taken, slotIds);
    var free := FreeAt(taken, slotIds).value;
    DistinctCount(slotIds);
    var w := WithoutMain(slotIds);
    assert multiset(w)[MAIN] == 0;
    forall k | 0 <= k < |taken| ensures taken[k] !in free {
      assert multiset(taken)[taken[k]] >= 1;
    }
  }

  lemma {:induction false} DistinctCount(s: seq<string>)
    requires forall i, j | 0 <= i < j < |s| :: s[i] != s[j]
    ensures forall x :: multiset(s)[x] <= 1
  {
    if s != [] {
      var init := s[..|s| - 1];
      DistinctCount(init);
      assert s == init + [s[|s| - 1]];
      assert s[|s| - 1] !in init;
    }
  }

  // ------------------------------------------------------------------------
  // getEventsAt
  // ------------------------------------------------------------------------

  datatype Event = Event(timeslot: string, eventType: string)

  /** An entry of getEventsAt: the event itself, or the `ifEmpty` filler for a slot without event. */
  datatype Entry = AnEvent(event: Event) | Filler(text: string)

  /** The event the dict keyed by timeslot keeps for a slot: the last one placed in it. */
  function LastIn(events: seq<Event>, id: string): (r: Option<Event>)
    ensures r.None? <==> forall k | 0 <= k < |events| :: events[k].timeslot != id
    ensures r.Some? ==> r.value in events && r.value.timeslot == id
  {
    if events == [] then None
    else if events[|events| - 1].timeslot == id then Some(events[|events| - 1])
    else
      var r := LastIn(events[..|events| - 1], id);
      assert forall k | 0 <= k < |events| - 1 :: events[..|events| - 1][k] == events[k];
      r
  }

  /**
   * getEventsAt, given the events at the date and the calendar's slots:
   * one entry per event, or, with `addEmpty`, one entry per slot, holding
   * its event or the filler.
   */
  method GetEventsAt(events: seq<Event>, slots: seq<Timeslot>, addEmpty: bool, ifEmpty: string)
    returns (r: seq<(string, Entry)>)
    ensures !addEmpty ==> |r| == |events| && forall k | 0 <= k < |events| :: r[k] == (events[k].timeslot, AnEvent(events[k]))
    ensures addEmpty ==> |r| == |slots| && forall k | 0 <= k < |slots| ::
              r[k] == (slots[k].id, match LastIn(events, slots[k].id) case Some(e) => AnEvent(e) case None => Filler(ifEmpty))
  {
    r := [];
    if !addEmpty {
      for k := 0 to |events|
        invariant |r| == k && forall j | 0 <= j < k :: r[j] == (events[j].timeslot, AnEvent(events[j]))
      {
        r := r + [(events[k].timeslot, AnEvent(events[k]))];
      }
      return;
    }
    var bySlot := IndexBySlot(events);
    for k := 0 to |slots|
      invariant |r| == k
      invariant forall j | 0 <= j < k ::
                  r[j] == (slots[j].id, match LastIn(events, slots[j].id) case Some(e) => AnEvent(e) case None => Filler(ifEmpty))
    {
      var id := slots[k].id;
      if id in bySlot {
        r := r + [(id, AnEvent(bySlot[id]))];
      } else {
        r := r + [(id, Filler(ifEmpty))];
      }
    }
  }

  /** The dict of getEventsAt: each slot holding an event, mapped to the last event placed in it. */
  method IndexBySlot(events: seq<Event>) returns (bySlot: map<string, Event>)
    ensures forall id :: id in bySlot <==> LastIn(events, id).Some?
    ensures forall id | id in bySlot :: LastIn(events, id) == Some(bySlot[id])
  {
    bySlot := map[];
    for k := 0 to |events|
      invariant forall id :: id in bySlot <==> LastIn(events[..k], id).Some?
      invariant forall id | id in bySlot :: LastIn(events[..k], id) == Some(bySlot[id])
    {
      LastInStep(events, k);
      bySlot := bySlot[events[k].timeslot := events[k]];
    }
    assert events[..|events|] == events;
  }

  lemma {:induction false} LastInStep(events: seq<Event>, k: nat)
    requires k < |events|
    ensures forall id :: LastIn(events[..k + 1], id) == if events[k].timeslot == id then Some(events[k]) else LastIn(events[..k], id)
  {
    var p := events[..k + 1];
    assert p[..|p| - 1] == events[..k] && p[|p| - 1] == events[k];
    forall id ensures LastIn(p, id) == if events[k].timeslot == id then Some(events[k]) else LastIn(events[..k], id) {
    }
  }
}
