/**
 * Calendars: the rules of the Calendar field — its render modes and the
 * options they allow, the chain of layers painted over its cells, when a
 * day is full, and how the stored events (a dict of years, of months, of
 * days, of events) are looked up and walked in chronological order.
 */
module Calendars {
  import opened Py
  import Timeslots

  // ------------------------------------------------------------------------
  // Render modes
  // ------------------------------------------------------------------------

  const MULTI := "Multi"
  const MONTH := "month"
  const WEEK := "week"
  const DAY := "day"

  /** Calendar.renderModes */
  const RENDER_MODES: seq<string> := [MONTH, MONTH + MULTI, WEEK, DAY + MULTI]

  /** The exceptions raised while a Calendar is defined. */
  datatype ConfigError =
    | RenderKo(render: string)         // RENDER_KO
    | EventTypesInMultiple             // TL_W_EVTS
    | TotalsOutsideMonthMulti          // Totals.TOT_KO
    | StrictMonthsOutsideMonthMulti    // S_MONTHS_KO

  /** getRenderInfo: the mode without its "Multi" suffix, and whether it had one. */
  function GetRenderInfo(render: string): (r: Result<(string, bool)>)
    ensures r.Err? <==> render !in RENDER_MODES
    ensures r.Ok? ==> (r.value.1 <==> EndsWith(render, MULTI))
    ensures r.Ok? ==> render == r.value.0 + (if r.value.1 then MULTI else [])
  {
    if render !in RENDER_MODES then
      Err("Wrong render mode \"" + render + "\". Possible render modes are: " + Join(RENDER_MODES, ", ") + ".")
    else if EndsWith(render, MULTI) then
      assert render == render[..|render| - 5] + MULTI;
      Ok((render[..|render| - 5], true))
    else
      Ok((render, false))
  }

  /** The four modes give a month view (single or multiple), a week view and a multiple day view. */
  lemma {:induction false} RenderInfoOfModes()
    ensures GetRenderInfo(MONTH) == Ok((MONTH, false))
    ensures GetRenderInfo(MONTH + MULTI) == Ok((MONTH, true))
    ensures GetRenderInfo(WEEK) == Ok((WEEK, false))
    ensures GetRenderInfo(DAY + MULTI) == Ok((DAY, true))
  {
    assert RENDER_MODES[0] == MONTH && RENDER_MODES[1] == MONTH + MULTI;
    assert RENDER_MODES[2] == WEEK && RENDER_MODES[3] == DAY + MULTI;
    assert MONTH[0] != MULTI[0];
    assert (MONTH + MULTI)[|MONTH + MULTI| - 5..] == MULTI;
    assert (DAY + MULTI)[|DAY + MULTI| - 5..] == MULTI;
    assert (MONTH + MULTI)[..|MONTH + MULTI| - 5] == MONTH;
    assert (DAY + MULTI)[..|DAY + MULTI| - 5] == DAY;
  }

  /**
   * The checks of Calendar.__init__, in their order: the render mode, then
   * event types in a multiple calendar, then totals rows and columns, then
   * strict months, the last two being for multiple month views only.
   */
  function ConfigCheck(render: string, hasEventTypes: bool, hasTotalRows: bool, hasTotalCols: bool, strictMonths: bool)
    : (r: Option<ConfigError>)
    ensures r.None? <==>
              render in RENDER_MODES
              && !(EndsWith(render, MULTI) && hasEventTypes)
              && (hasTotalRows || hasTotalCols || strictMonths ==> render == MONTH + MULTI)
    ensures render !in RENDER_MODES ==> r == Some(RenderKo(render))
  {
    match GetRenderInfo(render)
    case Err(_) => Some(RenderKo(render))
    case Ok((mode, multiple)) =>
      var monthMulti := multiple && mode == MONTH;
      assert monthMulti <==> render == MONTH + MULTI;
      if multiple && hasEventTypes then Some(EventTypesInMultiple)
      else if hasTotalRows && !monthMulti then Some(TotalsOutsideMonthMulti)
      else if hasTotalCols && !monthMulti then Some(TotalsOutsideMonthMulti)
      else if strictMonths && !monthMulti then Some(StrictMonthsOutsideMonthMulti)
      else None
  }

  // ------------------------------------------------------------------------
  // Layers
  // ------------------------------------------------------------------------

  /** What a layer's onCell method gives for a cell: its style, title and content. */
  datatype CellInfo = CellInfo(style: string, title: string, content: string)

  class Layer {
    const name: string
    const activeByDefault: bool
    const merge: bool
    /** The layer below this one in the stack. */
    var previous: Layer?

    constructor (name: string, activeByDefault: bool, merge: bool)
      ensures this.name == name && this.activeByDefault == activeByDefault && this.merge == merge
      ensures previous == null
    {
      this.name := name;
      this.activeByDefault := activeByDefault;
      this.merge := merge;
      previous := null;
    }

    /**
     * Layer.getCellInfo, on this layer, the k-th of a chained stack:
     * `onCell` gives, per layer name, what that layer's method returns for
     * the cell.
     */
    method GetCellInfo(ghost layers: seq<Layer>, ghost k: nat, active: set<string>, onCell: string -> Option<CellInfo>)
      returns (r: Option<CellInfo>)
      requires k < |layers| && layers[k] == this && Chained(layers)
      ensures r == FirstInfo(layers, k, active, onCell)
    {
      var current: Layer := this;
      ghost var i: nat := k;
      while true
        invariant i < |layers| && current == layers[i]
        invariant FirstInfo(layers, k, active, onCell) == FirstInfo(layers, i, active, onCell)
        decreases i
      {
        if current.name in active {
          var info := onCell(current.name);
          if info.Some? {
            return info;
          }
        }
        if current.previous == null {
          return None;
        }
        assert i > 0;
        current := current.previous;
        i := i - 1;
      }
    }
  }

  /** The stack is chained: each layer's previous one is the one before it, and the first has none. */
  predicate Chained(layers: seq<Layer>)
    reads set l | l in layers
  {
    |layers| > 0 ==> layers[0].previous == null && forall i | 1 <= i < |layers| :: layers[i].previous == layers[i - 1]
  }

  /** The cell info of the k-th layer: its own when it is active and has some, else that of the layers below it. */
  function FirstInfo(layers: seq<Layer>, k: nat, active: set<string>, onCell: string -> Option<CellInfo>): Option<CellInfo>
    requires k < |layers|
  {
    if layers[k].name in active && onCell(layers[k].name).Some? then onCell(layers[k].name)
    else if k == 0 then None
    else FirstInfo(layers, k - 1, active, onCell)
  }

  /** The info shown comes from the topmost active layer, at or below the k-th one, that has some. */
  lemma {:induction false} FirstInfoMeaning(layers: seq<Layer>, k: nat, active: set<string>, onCell: string -> Option<CellInfo>)
    requires k < |layers|
    ensures FirstInfo(layers, k, active, onCell).None? <==>
              forall j | 0 <= j <= k :: !(layers[j].name in active && onCell(layers[j].name).Some?)
    ensures FirstInfo(layers, k, active, onCell).Some? ==>
              exists j | 0 <= j <= k :: layers[j].name in active && onCell(layers[j].name) == FirstInfo(layers, k, active, onCell)
                                        && forall i | j < i <= k :: !(layers[i].name in active && onCell(layers[i].name).Some?)
  {
    if !(layers[k].name in active && onCell(layers[k].name).Some?) && k > 0 {
      FirstInfoMeaning(layers, k - 1, active, onCell);
    }
  }

  /** formatLayers: chains each layer, from the second one on, to the one before it. */
  method FormatLayers(layers: seq<Layer>) returns (r: seq<Layer>)
    requires forall i, j | 0 <= i < j < |layers| :: layers[i] != layers[j]
    modifies set l | l in layers
    ensures r == layers
    ensures forall i | 1 <= i < |layers| :: layers[i].previous == layers[i - 1]
    ensures |layers| > 0 ==> layers[0].previous == old(layers[0].previous)
  {
    if layers == [] {
      return [];
    }
    var i := |layers| - 1;
    while i >= 1
      invariant 0 <= i < |layers|
      invariant forall j | i < j < |layers| :: layers[j].previous == layers[j - 1]
      invariant forall j | 0 <= j <= i :: layers[j].previous == old(layers[j].previous)
    {
      layers[i].previous := layers[i - 1];
      i := i - 1;
    }
    return layers;
  }

  /** Layers built by the constructor and then formatted form a chained stack. */
  lemma {:induction false} FormattedLayersAreChained(layers: seq<Layer>)
    requires |layers| > 0 && layers[0].previous == null
    requires forall i | 1 <= i < |layers| :: layers[i].previous == layers[i - 1]
    ensures Chained(layers)
  {
  }

  // ------------------------------------------------------------------------
  // dayIsFull and dateInRange
  // ------------------------------------------------------------------------

  /**
   * dayIsFull: None without events; True when an event takes the "main"
   * slot; else what the field's fullDay method answers (`fullDay`, when it
   * has one), or whether the events take all slots but "main".
   */
  function DayFull(events: seq<Timeslots.Event>, slotCount: nat, fullDay: Option<bool>): Option<bool>
  {
    if events == [] then None
    else if exists k | 0 <= k < |events| :: events[k].timeslot == Timeslots.MAIN then Some(true)
    else if fullDay.Some? then fullDay
    else Some(|events| == slotCount - 1)
  }

  /** dayIsFull */
  method DayIsFull(events: seq<Timeslots.Event>, slotCount: nat, fullDay: Option<bool>) returns (r: Option<bool>)
    ensures r == DayFull(events, slotCount, fullDay)
  {
    if events == [] {
      return None;
    }
    for k := 0 to |events|
      invariant forall j | 0 <= j < k :: events[j].timeslot != Timeslots.MAIN
    {
      if events[k].timeslot == Timeslots.MAIN {
        return Some(true);
      }
    }
    if fullDay.Some? {
      return fullDay;
    }
    return Some(|events| == slotCount - 1);
  }

  /**
   * Without a fullDay method, when the events of a day take distinct slots
   * other than "main" among the calendar's (distinct) slots, the day is full
   * exactly when every slot but "main" is taken.
   */
  lemma {:induction false} DayFullIffAllSlotsTaken(events: seq<Timeslots.Event>, slotIds: seq<string>)
    requires events != []
    requires forall i, j | 0 <= i < j < |events| :: events[i].timeslot != events[j].timeslot
    requires forall k | 0 <= k < |events| :: events[k].timeslot != Timeslots.MAIN && events[k].timeslot in slotIds
    requires forall i, j | 0 <= i < j < |slotIds| :: slotIds[i] != slotIds[j]
    requires Timeslots.MAIN in slotIds
    ensures DayFull(events, |slotIds|, None) == Some(true) <==>
              forall id | id in slotIds && id != Timeslots.MAIN :: exists k | 0 <= k < |events| :: events[k].timeslot == id
  {
    DayFullIffCovered(events, slotIds);
    CoversIff(events, slotIds);
  }

  lemma {:induction false} DayFullIffCovered(events: seq<Timeslots.Event>, slotIds: seq<string>)
    requires events != []
    requires forall i, j | 0 <= i < j < |events| :: events[i].timeslot != events[j].timeslot
    requires forall k | 0 <= k < |events| :: events[k].timeslot != Timeslots.MAIN && events[k].timeslot in slotIds
    requires forall i, j | 0 <= i < j < |slotIds| :: slotIds[i] != slotIds[j]
    requires Timeslots.MAIN in slotIds
    ensures DayFull(events, |slotIds|, None) == Some(true) <==> OtherSlots(slotIds) <= TakenSlots(events)
  {
    var taken := TakenSlots(events);
    var others := OtherSlots(slotIds);
    DayFullWithoutMain(events, |slotIds|);
    TakenSize(events);
    OtherSlotsSize(slotIds);
    TakenAreOthers(events, slotIds);
    EqualSizeCovers(taken, others, |events|, |slotIds|);
  }

  lemma {:induction false} EqualSizeCovers(taken: set<string>, others: set<string>, n: int, count: int)
    requires taken <= others && |taken| == n && |others| == count - 1
    ensures n == count - 1 <==> others <= taken
  {
    SubsetSize(taken, others);
  }

  lemma {:induction false} DayFullWithoutMain(events: seq<Timeslots.Event>, slotCount: nat)
    requires events != []
    requires forall k | 0 <= k < |events| :: events[k].timeslot != Timeslots.MAIN
    ensures DayFull(events, slotCount, None) == Some(|events| == slotCount - 1)
  {
  }

  lemma {:induction false} TakenAreOthers(events: seq<Timeslots.Event>, slotIds: seq<string>)
    requires forall k | 0 <= k < |events| :: events[k].timeslot != Timeslots.MAIN && events[k].timeslot in slotIds
    ensures TakenSlots(events) <= OtherSlots(slotIds)
  {
  }

  lemma {:induction false} CoversIff(events: seq<Timeslots.Event>, slotIds: seq<string>)
    ensures (forall id | id in slotIds && id != Timeslots.MAIN :: exists k | 0 <= k < |events| :: events[k].timeslot == id)
            <==> OtherSlots(slotIds) <= TakenSlots(events)
  {
  }

  /** The slot ids but "main", as a set. */
  function OtherSlots(slotIds: seq<string>): (r: set<string>)
    ensures forall id :: id in r <==> id in slotIds && id != Timeslots.MAIN
  {
    (set id | id in slotIds) - {Timeslots.MAIN}
  }

  lemma {:induction false} OtherSlotsSize(slotIds: seq<string>)
    requires forall i, j | 0 <= i < j < |slotIds| :: slotIds[i] != slotIds[j]
    requires Timeslots.MAIN in slotIds
    ensures |OtherSlots(slotIds)| == |slotIds| - 1
  {
    DistinctSize(slotIds);
    assert OtherSlots(slotIds) == (set id | id in slotIds) - {Timeslots.MAIN};
  }

  /** The slots the events take. */
  function TakenSlots(events: seq<Timeslots.Event>): (r: set<string>)
    ensures forall id :: id in r <==> exists k | 0 <= k < |events| :: events[k].timeslot == id
  {
    if events == [] then {}
    else
      var init := events[..|events| - 1];
      assert forall k | 0 <= k < |init| :: init[k] == events[k];
      TakenSlots(init) + {events[|events| - 1].timeslot}
  }

  lemma {:induction false} TakenSize(events: seq<Timeslots.Event>)
    requires forall i, j | 0 <= i < j < |events| :: events[i].timeslot != events[j].timeslot
    ensures |TakenSlots(events)| == |events|
  {
    if events != [] {
      var init := events[..|events| - 1];
      TakenSize(init);
      assert events[|events| - 1].timeslot !in TakenSlots(init);
    }
  }

  lemma {:induction false} DistinctSize(s: seq<string>)
    requires forall i, j | 0 <= i < j < |s| :: s[i] != s[j]
    ensures |set x | x in s| == |s|
  {
    if s != [] {
      var init := s[..|s| - 1];
      DistinctSize(init);
      assert (set x | x in s) == (set x | x in init) + {s[|s| - 1]};
    }
  }

  lemma {:induction false} SubsetSize(a: set<string>, b: set<string>)
    requires a <= b
    ensures |a| <= |b| && (|a| == |b| ==> a == b)
    decreases |b|
  {
    if b != {} {
      var x :| x in b;
      if x in a {
        SubsetSize(a - {x}, b - {x});
        assert a == (a - {x}) + {x};
        if |a| == |b| {
          assert a - {x} == b - {x};
          assert b == (b - {x}) + {x};
        }
      } else {
        SubsetSize(a, b - {x});
      }
    }
  }

  /** dateInRange, dates being ordered numbers: not before the start date nor after the end date, when defined. */
  function DateInRange(date: int, startDate: Option<int>, endDate: Option<int>): (r: bool)
    ensures r <==> (startDate.None? || date >= startDate.value) && (endDate.None? || date <= endDate.value)
  {
    var tooEarly := startDate.Some? && date < startDate.value;
    var tooLate := endDate.Some? && !tooEarly && date > endDate.value;
    !tooEarly && !tooLate
  }

  // ------------------------------------------------------------------------
  // Date ranges
  // ------------------------------------------------------------------------

  /** A day, as (year, month, day). */
  type Day = (int, int, int)

  /** A date range given to walkEvents: a year, a month (year, month), or a pair of dates. */
  datatype DateRange = NoRange | Year(year: int) | Month(y: int, month: int) | Between(start: Day, end: Day)

  /** A standardized range: its first and last days. */
  datatype Bounds = Bounds(first: Day, last: Day)

  /** standardizeDateRange; year 0 is falsy in Python, so it gives no range. */
  function StandardizeDateRange(range: DateRange): (r: Option<Bounds>)
    ensures range.NoRange? || range == Year(0) ==> r.None?
    ensures range.Year? && range.year != 0 ==> r == Some(Bounds((range.year, 1, 1), (range.year, 12, 31)))
    ensures range.Month? ==> r == Some(Bounds((range.y, range.month, 1), (range.y, range.month, 31)))
    ensures range.Between? ==> r == Some(Bounds(range.start, range.end))
  {
    match range
    case NoRange => None
    case Year(y) => if y == 0 then None else Some(Bounds((y, 1, 1), (y, 12, 31)))
    case Month(y, m) => Some(Bounds((y, m, 1), (y, m, 31)))
    case Between(start, end) => Some(Bounds(start, end))
  }

  predicate LexLe(a: Day, b: Day)
  {
    a.0 < b.0 || (a.0 == b.0 && (a.1 < b.1 || (a.1 == b.1 && a.2 <= b.2)))
  }

  predicate LexLt(a: Day, b: Day)
  {
    LexLe(a, b) && a != b
  }

  /** The year tests of walkEvents. */
  predicate KeepYear(b: Option<Bounds>, y: int)
  {
    b.None? || (b.value.first.0 <= y <= b.value.last.0)
  }

  /** The month tests of walkEvents. */
  predicate KeepMonth(b: Option<Bounds>, y: int, m: int)
  {
    b.None? || !((y == b.value.first.0 && m < b.value.first.1) || (y == b.value.last.0 && m > b.value.last.1))
  }

  /** The day tests of walkEvents. */
  predicate KeepDay(b: Option<Bounds>, y: int, m: int, d: int)
  {
    b.None?
    || !((y == b.value.first.0 && m == b.value.first.1 && d < b.value.first.2)
         || (y == b.value.last.0 && m == b.value.last.1 && d > b.value.last.2))
  }

  predicate Kept(b: Option<Bounds>, day: Day)
  {
    KeepYear(b, day.0) && KeepMonth(b, day.0, day.1) && KeepDay(b, day.0, day.1, day.2)
  }

  /** The tests of walkEvents keep exactly the days between the first and last days of the range. */
  lemma {:induction false} KeptIsWithinBounds(b: Bounds, day: Day)
    ensures Kept(Some(b), day) <==> LexLe(b.first, day) && LexLe(day, b.last)
  {
  }

  /** A year range keeps the days of that year; a month range the days of that month (days being 1 to 31). */
  lemma {:induction false} RangesKeepTheirDays(range: DateRange, day: Day)
    requires 1 <= day.1 <= 12 && 1 <= day.2 <= 31
    ensures range.Year? && range.year != 0 ==> (Kept(StandardizeDateRange(range), day) <==> day.0 == range.year)
    ensures range.Month? ==> (Kept(StandardizeDateRange(range), day) <==> day.0 == range.y && day.1 == range.month)
  {
  }

  // ------------------------------------------------------------------------
  // The stored events, walked in order
  // ------------------------------------------------------------------------

  type Events = seq<Timeslots.Event>
  type DaysDict = map<int, Events>
  type MonthsDict = map<int, DaysDict>
  type YearsDict = map<int, MonthsDict>

  predicate Increasing(s: seq<int>)
  {
    forall i, j | 0 <= i < j < |s| :: s[i] < s[j]
  }

  lemma {:induction false} HasElement(s: set<int>)
    ensures s == {} || exists y :: y in s
  {
    if forall y :: y !in s {
      assert s == {};
    }
  }

  lemma {:induction false} MinExists(s: set<int>)
    requires s != {}
    ensures exists m | m in s :: forall y | y in s :: m <= y
    decreases s
  {
    HasElement(s);
    var x :| x in s;
    if s != {x} {
      MinExists(s - {x});
      var m :| m in s - {x} && forall y | y in s - {x} :: m <= y;
      forall y | y in s ensures m <= y || y == x {
        if y != x {
          assert y in s - {x};
        }
      }
      if x >= m {
        assert m in s;
      }
    }
  }

  /** `list(d.keys())` once sorted. */
  function SortedKeys(s: set<int>): (r: seq<int>)
    decreases s
  {
    if s == {} then []
    else
      MinExists(s);
      var m :| m in s && forall y | y in s :: m <= y;
      [m] + SortedKeys(s - {m})
  }

  /** The sorted keys are the keys... */
  lemma {:induction false} SortedKeysMembers(s: set<int>)
    ensures forall x :: x in SortedKeys(s) <==> x in s
    decreases s
  {
    if s != {} {
      MinExists(s);
      var m :| m in s && forall y | y in s :: m <= y;
      SortedKeysMembers(s - {m});
      var rest := SortedKeys(s - {m});
      assert SortedKeys(s) == [m] + rest;
      forall x ensures x in SortedKeys(s) <==> x in s {
        assert x in [m] + rest <==> x == m || x in rest;
      }
    }
  }

  /** ... in increasing order. */
  lemma {:induction false} SortedKeysIncrease(s: set<int>)
    ensures Increasing(SortedKeys(s))
    decreases s
  {
    if s != {} {
      MinExists(s);
      var m :| m in s && forall y | y in s :: m <= y;
      SortedKeysIncrease(s - {m});
      SortedKeysMembers(s - {m});
      var rest := SortedKeys(s - {m});
      assert SortedKeys(s) == [m] + rest;
      forall i, j | 0 <= i < j < |[m] + rest| ensures ([m] + rest)[i] < ([m] + rest)[j] {
        if i == 0 {
          assert ([m] + rest)[j] == rest[j - 1];
          assert rest[j - 1] in s - {m};
        } else {
          assert ([m] + rest)[i] == rest[i - 1] && ([m] + rest)[j] == rest[j - 1];
        }
      }
    }
  }

  lemma {:induction false} SortedKeysMeaning(s: set<int>)
    ensures forall x :: x in SortedKeys(s) <==> x in s
    ensures Increasing(SortedKeys(s))
  {
    SortedKeysMembers(s);
    SortedKeysIncrease(s);
  }

  lemma {:induction false} SortedKeyIn(s: set<int>, k: nat)
    requires k < |SortedKeys(s)|
    ensures SortedKeys(s)[k] in s
    decreases s
  {
    MinExists(s);
    var m :| m in s && forall y | y in s :: m <= y;
    assert SortedKeys(s) == [m] + SortedKeys(s - {m});
    if k > 0 {
      SortedKeyIn(s - {m}, k - 1);
    }
  }

  /** A day visited by walkEvents, with its events. */
  type Visit = (Day, Events)

  /** The visits of the days `ds` of a month (each a key of `days`). */
  function DaysVisits(days: DaysDict, b: Option<Bounds>, y: int, m: int, ds: seq<int>): seq<Visit>
  {
    if ds == [] then []
    else (if ds[0] in days && KeepDay(b, y, m, ds[0]) then [((y, m, ds[0]), days[ds[0]])] else []) + DaysVisits(days, b, y, m, ds[1..])
  }

  /** The visits of the months `ms` of a year (each a key of `months`). */
  function MonthsVisits(months: MonthsDict, b: Option<Bounds>, y: int, ms: seq<int>): seq<Visit>
  {
    if ms == [] then []
    else
      (if ms[0] in months && KeepMonth(b, y, ms[0]) then DaysVisits(months[ms[0]], b, y, ms[0], SortedKeys(months[ms[0]].Keys)) else [])
      + MonthsVisits(months, b, y, ms[1..])
  }

  /** The visits of the years `ys` (each a key of `years`). */
  function YearsVisits(years: YearsDict, b: Option<Bounds>, ys: seq<int>): seq<Visit>
  {
    if ys == [] then []
    else
      (if ys[0] in years && KeepYear(b, ys[0]) then MonthsVisits(years[ys[0]], b, ys[0], SortedKeys(years[ys[0]].Keys)) else [])
      + YearsVisits(years, b, ys[1..])
  }

  /** Every day of the calendar within the range, in the order walkEvents visits them. */
  function AllVisits(values: Option<YearsDict>, range: DateRange): seq<Visit>
  {
    if values.None? then []
    else YearsVisits(values.value, StandardizeDateRange(range), SortedKeys(values.value.Keys))
  }

  /** The visits up to and including the first one for which the callback asks to stop. */
  function TakeUntil(visits: seq<Visit>, stop: (Day, Events) -> bool): (r: seq<Visit>)
  {
    if visits == [] then []
    else if stop(visits[0].0, visits[0].1) then [visits[0]]
    else [visits[0]] + TakeUntil(visits[1..], stop)
  }

  /** Some visit makes the callback ask to stop. */
  predicate Stops(visits: seq<Visit>, stop: (Day, Events) -> bool)
  {
    exists k | 0 <= k < |visits| :: stop(visits[k].0, visits[k].1)
  }

  /** The walk goes through a whole part that does not stop it, and ends within the first part that does. */
  lemma {:induction false} TakeUntilAppend(a: seq<Visit>, b: seq<Visit>, stop: (Day, Events) -> bool)
    ensures TakeUntil(a + b, stop) == if Stops(a, stop) then TakeUntil(a, stop) else a + TakeUntil(b, stop)
  {
    if a == [] {
      assert a + b == b;
    } else {
      assert (a + b)[0] == a[0] && (a + b)[1..] == a[1..] + b;
      TakeUntilAppend(a[1..], b, stop);
      assert Stops(a, stop) <==> stop(a[0].0, a[0].1) || Stops(a[1..], stop) by {
        assert forall k | 1 <= k < |a| :: a[k] == a[1..][k - 1];
        if Stops(a[1..], stop) {
          var k :| 0 <= k < |a[1..]| && stop(a[1..][k].0, a[1..][k].1);
          assert a[k + 1] == a[1..][k];
        }
      }
      if !stop(a[0].0, a[0].1) {
        assert a == [a[0]] + a[1..];
      }
    }
  }

  lemma {:induction false} NoStopTakesAll(a: seq<Visit>, stop: (Day, Events) -> bool)
    requires !Stops(a, stop)
    ensures TakeUntil(a, stop) == a
  {
    TakeUntilAppend(a, [], stop);
    assert a + [] == a;
  }

  /** A walk that has not stopped yet stops within the next part when that part stops it. */
  lemma {:induction false} StopsWithin(calls: seq<Visit>, here: seq<Visit>, rest: seq<Visit>, stop: (Day, Events) -> bool)
    requires !Stops(calls, stop) && Stops(here, stop)
    ensures TakeUntil((calls + here) + rest, stop) == calls + TakeUntil(here, stop)
    ensures Stops((calls + here) + rest, stop)
  {
    StopsAppend(calls, here, stop);
    StopsAppend(calls + here, rest, stop);
    TakeUntilAppend(calls + here, rest, stop);
    TakeUntilAppend(calls, here, stop);
  }

  /** A walk that has not stopped yet goes through the next part when that part does not stop it. */
  lemma {:induction false} GoesThrough(calls: seq<Visit>, here: seq<Visit>, stop: (Day, Events) -> bool)
    requires !Stops(calls, stop) && !Stops(here, stop)
    ensures !Stops(calls + here, stop) && TakeUntil(here, stop) == here
  {
    StopsAppend(calls, here, stop);
    NoStopTakesAll(here, stop);
  }

  /** The end of a walk that never stopped. */
  lemma {:induction false} WalkedAll(calls: seq<Visit>, stop: (Day, Events) -> bool)
    requires !Stops(calls, stop)
    ensures TakeUntil(calls, stop) == calls
  {
    NoStopTakesAll(calls, stop);
  }

  lemma {:induction false} OneStop(visit: Visit, stop: (Day, Events) -> bool)
    ensures Stops([visit], stop) <==> stop(visit.0, visit.1)
    ensures TakeUntil([visit], stop) == [visit]
  {
    assert [visit][0] == visit;
  }

  lemma {:induction false} DaysUnfold(days: DaysDict, b: Option<Bounds>, y: int, m: int, ds: seq<int>, k: nat)
    requires k < |ds|
    ensures DaysVisits(days, b, y, m, ds[k..]) ==
              (if ds[k] in days && KeepDay(b, y, m, ds[k]) then [((y, m, ds[k]), days[ds[k]])] else [])
              + DaysVisits(days, b, y, m, ds[k + 1..])
  {
    assert ds[k..][0] == ds[k] && ds[k..][1..] == ds[k + 1..];
  }

  lemma {:induction false} MonthsUnfold(months: MonthsDict, b: Option<Bounds>, y: int, ms: seq<int>, j: nat)
    requires j < |ms|
    ensures MonthsVisits(months, b, y, ms[j..]) ==
              (if ms[j] in months && KeepMonth(b, y, ms[j])
               then DaysVisits(months[ms[j]], b, y, ms[j], SortedKeys(months[ms[j]].Keys)) else [])
              + MonthsVisits(months, b, y, ms[j + 1..])
  {
    assert ms[j..][0] == ms[j] && ms[j..][1..] == ms[j + 1..];
  }

  lemma {:induction false} YearsUnfold(years: YearsDict, b: Option<Bounds>, ys: seq<int>, i: nat)
    requires i < |ys|
    ensures YearsVisits(years, b, ys[i..]) ==
              (if ys[i] in years && KeepYear(b, ys[i])
               then MonthsVisits(years[ys[i]], b, ys[i], SortedKeys(years[ys[i]].Keys)) else [])
              + YearsVisits(years, b, ys[i + 1..])
  {
    assert ys[i..][0] == ys[i] && ys[i..][1..] == ys[i + 1..];
  }

  lemma {:induction false} Assoc(a: seq<Visit>, b: seq<Visit>, c: seq<Visit>)
    ensures a + (b + c) == (a + b) + c
  {
  }

  /** The visits of a month. */
  method WalkDays(days: DaysDict, b: Option<Bounds>, y: int, m: int, stop: (Day, Events) -> bool)
    returns (calls: seq<Visit>, stopped: bool)
    ensures var visits := DaysVisits(days, b, y, m, SortedKeys(days.Keys));
            calls == TakeUntil(visits, stop) && stopped == Stops(visits, stop)
  {
    var ds := SortedKeys(days.Keys);
    ghost var visits := DaysVisits(days, b, y, m, ds);
    calls := [];
    for k := 0 to |ds|
      invariant visits == calls + DaysVisits(days, b, y, m, ds[k..]) && !Stops(calls, stop)
    {
      var d := ds[k];
      SortedKeyIn(days.Keys, k);
      DaysUnfold(days, b, y, m, ds, k);
      ghost var rest := DaysVisits(days, b, y, m, ds[k + 1..]);
      if !KeepDay(b, y, m, d) {
        assert [] + rest == rest;
        continue;
      }
      var visit := ((y, m, d), days[d]);
      Assoc(calls, [visit], rest);
      OneStop(visit, stop);
      if stop((y, m, d), days[d]) {
        StopsWithin(calls, [visit], rest, stop);
        return calls + [visit], true;
      }
      GoesThrough(calls, [visit], stop);
      calls := calls + [visit];
    }
    assert ds[|ds|..] == [];
    assert visits == calls;
    WalkedAll(calls, stop);
    return calls, false;
  }

  /** The visits of a year. */
  method WalkMonths(months: MonthsDict, b: Option<Bounds>, y: int, stop: (Day, Events) -> bool)
    returns (calls: seq<Visit>, stopped: bool)
    ensures var visits := MonthsVisits(months, b, y, SortedKeys(months.Keys));
            calls == TakeUntil(visits, stop) && stopped == Stops(visits, stop)
  {
    var ms := SortedKeys(months.Keys);
    ghost var visits := MonthsVisits(months, b, y, ms);
    calls := [];
    for j := 0 to |ms|
      invariant visits == calls + MonthsVisits(months, b, y, ms[j..]) && !Stops(calls, stop)
    {
      var m := ms[j];
      SortedKeyIn(months.Keys, j);
      MonthsUnfold(months, b, y, ms, j);
      ghost var rest := MonthsVisits(months, b, y, ms[j + 1..]);
      if !KeepMonth(b, y, m) {
        assert [] + rest == rest;
        continue;
      }
      var part, partStopped := WalkDays(months[m], b, y, m, stop);
      ghost var here := DaysVisits(months[m], b, y, m, SortedKeys(months[m].Keys));
      Assoc(calls, here, rest);
      if partStopped {
        StopsWithin(calls, here, rest, stop);
        return calls + part, true;
      }
      GoesThrough(calls, here, stop);
      calls := calls + part;
    }
    assert ms[|ms|..] == [];
    assert visits == calls;
    WalkedAll(calls, stop);
    return calls, false;
  }

  lemma {:induction false} StopsAppend(a: seq<Visit>, b: seq<Visit>, stop: (Day, Events) -> bool)
    ensures Stops(a + b, stop) <==> Stops(a, stop) || Stops(b, stop)
  {
    if Stops(a + b, stop) {
      var k :| 0 <= k < |a + b| && stop((a + b)[k].0, (a + b)[k].1);
      if k >= |a| {
        assert (a + b)[k] == b[k - |a|];
      } else {
        assert (a + b)[k] == a[k];
      }
    }
    if Stops(a, stop) {
      var k :| 0 <= k < |a| && stop(a[k].0, a[k].1);
      assert (a + b)[k] == a[k];
    }
    if Stops(b, stop) {
      var k :| 0 <= k < |b| && stop(b[k].0, b[k].1);
      assert (a + b)[|a| + k] == b[k];
    }
  }

  /**
   * walkEvents: calls the callback (`stop`) on every day of the calendar,
   * within the range when there is one, in chronological order, until it
   * returns true. The result is the sequence of calls made.
   */
  method WalkEvents(values: Option<YearsDict>, range: DateRange, stop: (Day, Events) -> bool) returns (calls: seq<Visit>)
    ensures calls == TakeUntil(AllVisits(values, range), stop)
  {
    calls := [];
    if values.None? || values.value == map[] {
      return;
    }
    var years := values.value;
    var b := StandardizeDateRange(range);
    var ys := SortedKeys(years.Keys);
    ghost var visits := AllVisits(values, range);
    for i := 0 to |ys|
      invariant visits == calls + YearsVisits(years, b, ys[i..]) && !Stops(calls, stop)
    {
      var y := ys[i];
      SortedKeyIn(years.Keys, i);
      YearsUnfold(years, b, ys, i);
      ghost var rest := YearsVisits(years, b, ys[i + 1..]);
      if !KeepYear(b, y) {
        assert [] + rest == rest;
        continue;
      }
      var part, partStopped := WalkMonths(years[y], b, y, stop);
      ghost var here := MonthsVisits(years[y], b, y, SortedKeys(years[y].Keys));
      Assoc(calls, here, rest);
      if partStopped {
        StopsWithin(calls, here, rest, stop);
        return calls + part;
      }
      GoesThrough(calls, here, stop);
      calls := calls + part;
    }
    assert ys[|ys|..] == [];
    assert visits == calls;
    WalkedAll(calls, stop);
  }

  // ------------------------------------------------------------------------
  // What the walk visits
  // ------------------------------------------------------------------------

  /** Visits in strictly increasing chronological order. */
  predicate Chronological(vs: seq<Visit>)
  {
    forall i, j | 0 <= i < j < |vs| :: LexLt(vs[i].0, vs[j].0)
  }

  /**
   * The days walkEvents visits, in chronological order: exactly the days
   * holding stored events that the tests of the standardized range keep.
   */
  lemma {:induction false} AllVisitsMeaning(values: Option<YearsDict>, range: DateRange)
    ensures Chronological(AllVisits(values, range))
    ensures forall v: Visit :: v in AllVisits(values, range) <==>
              StoredAt(values, v.0, v.1) && Kept(StandardizeDateRange(range), v.0)
  {
    if values.Some? {
      var years := values.value;
      SortedKeysMeaning(years.Keys);
      YearsVisitsMeaning(years, StandardizeDateRange(range), SortedKeys(years.Keys));
    }
  }

  lemma {:induction false} ChronologicalAppend(a: seq<Visit>, b: seq<Visit>)
    requires Chronological(a) && Chronological(b)
    requires forall i, j | 0 <= i < |a| && 0 <= j < |b| :: LexLt(a[i].0, b[j].0)
    ensures Chronological(a + b)
  {
    forall i, j | 0 <= i < j < |a + b| ensures LexLt((a + b)[i].0, (a + b)[j].0) {
      if j < |a| {
        assert (a + b)[i] == a[i] && (a + b)[j] == a[j];
      } else if i < |a| {
        assert (a + b)[i] == a[i] && (a + b)[j] == b[j - |a|];
      } else {
        assert (a + b)[i] == b[i - |a|] && (a + b)[j] == b[j - |a|];
      }
    }
  }

  lemma {:induction false} IncreasingTail(s: seq<int>)
    requires Increasing(s) && s != []
    ensures Increasing(s[1..])
    ensures forall x | x in s[1..] :: s[0] < x
  {
    forall x | x in s[1..] ensures s[0] < x {
      var k :| 0 <= k < |s[1..]| && s[1..][k] == x;
      assert s[k + 1] == x;
    }
  }

  /** A month's visits: its kept days holding events, in increasing order of day. */
  predicate InDays(days: DaysDict, b: Option<Bounds>, y: int, m: int, ds: seq<int>, v: Visit)
  {
    v.0.0 == y && v.0.1 == m && v.0.2 in ds && v.0.2 in days && days[v.0.2] == v.1 && KeepDay(b, y, m, v.0.2)
  }

  lemma {:induction false} DaysVisitsMeaning(days: DaysDict, b: Option<Bounds>, y: int, m: int, ds: seq<int>)
    requires Increasing(ds)
    ensures Chronological(DaysVisits(days, b, y, m, ds))
    ensures forall v: Visit :: v in DaysVisits(days, b, y, m, ds) <==> InDays(days, b, y, m, ds, v)
    decreases |ds|
  {
    if ds != [] {
      var d := ds[0];
      IncreasingTail(ds);
      DaysVisitsMeaning(days, b, y, m, ds[1..]);
      var head: seq<Visit> := if d in days && KeepDay(b, y, m, d) then [((y, m, d), days[d])] else [];
      var rest := DaysVisits(days, b, y, m, ds[1..]);
      assert DaysVisits(days, b, y, m, ds) == head + rest;
      forall i, j | 0 <= i < |head| && 0 <= j < |rest| ensures LexLt(head[i].0, rest[j].0) {
        assert rest[j] in rest;
      }
      ChronologicalAppend(head, rest);
      assert ds == [d] + ds[1..];
      forall v: Visit ensures v in head + rest <==> InDays(days, b, y, m, ds, v) {
        assert v.0.2 in ds <==> v.0.2 == d || v.0.2 in ds[1..];
      }
    }
  }

  /** A year's visits: the kept days of its kept months holding events. */
  predicate InMonths(months: MonthsDict, b: Option<Bounds>, y: int, ms: seq<int>, v: Visit)
  {
    v.0.0 == y && v.0.1 in ms && v.0.1 in months && v.0.2 in months[v.0.1] && months[v.0.1][v.0.2] == v.1
    && KeepMonth(b, y, v.0.1) && KeepDay(b, y, v.0.1, v.0.2)
  }

  lemma {:induction false} MonthsVisitsMeaning(months: MonthsDict, b: Option<Bounds>, y: int, ms: seq<int>)
    requires Increasing(ms)
    ensures Chronological(MonthsVisits(months, b, y, ms))
    ensures forall v: Visit :: v in MonthsVisits(months, b, y, ms) <==> InMonths(months, b, y, ms, v)
    decreases |ms|
  {
    if ms != [] {
      var m := ms[0];
      IncreasingTail(ms);
      MonthsVisitsMeaning(months, b, y, ms[1..]);
      var head: seq<Visit> := if m in months && KeepMonth(b, y, m) then DaysVisits(months[m], b, y, m, SortedKeys(months[m].Keys)) else [];
      var rest := MonthsVisits(months, b, y, ms[1..]);
      assert MonthsVisits(months, b, y, ms) == head + rest;
      if m in months {
        SortedKeysMeaning(months[m].Keys);
        DaysVisitsMeaning(months[m], b, y, m, SortedKeys(months[m].Keys));
      }
      forall i, j | 0 <= i < |head| && 0 <= j < |rest| ensures LexLt(head[i].0, rest[j].0) {
        assert head[i] in head && rest[j] in rest;
      }
      ChronologicalAppend(head, rest);
      assert ms == [m] + ms[1..];
      forall v: Visit ensures v in head + rest <==> InMonths(months, b, y, ms, v) {
        assert v.0.1 in ms <==> v.0.1 == m || v.0.1 in ms[1..];
      }
    }
  }

  /** The calendar's visits: the kept days of the kept months of its kept years holding events. */
  predicate InYears(years: YearsDict, b: Option<Bounds>, ys: seq<int>, v: Visit)
  {
    v.0.0 in ys && v.0.0 in years && v.0.1 in years[v.0.0] && v.0.2 in years[v.0.0][v.0.1]
    && years[v.0.0][v.0.1][v.0.2] == v.1 && Kept(b, v.0)
  }

  lemma {:induction false} YearsVisitsMeaning(years: YearsDict, b: Option<Bounds>, ys: seq<int>)
    requires Increasing(ys)
    ensures Chronological(YearsVisits(years, b, ys))
    ensures forall v: Visit :: v in YearsVisits(years, b, ys) <==> InYears(years, b, ys, v)
    decreases |ys|
  {
    if ys != [] {
      var y := ys[0];
      IncreasingTail(ys);
      YearsVisitsMeaning(years, b, ys[1..]);
      var head: seq<Visit> := if y in years && KeepYear(b, y) then MonthsVisits(years[y], b, y, SortedKeys(years[y].Keys)) else [];
      var rest := YearsVisits(years, b, ys[1..]);
      assert YearsVisits(years, b, ys) == head + rest;
      if y in years {
        SortedKeysMeaning(years[y].Keys);
        MonthsVisitsMeaning(years[y], b, y, SortedKeys(years[y].Keys));
      }
      forall i, j | 0 <= i < |head| && 0 <= j < |rest| ensures LexLt(head[i].0, rest[j].0) {
        assert head[i] in head && rest[j] in rest;
      }
      ChronologicalAppend(head, rest);
      assert ys == [y] + ys[1..];
      forall v: Visit ensures v in head + rest <==> InYears(years, b, ys, v) {
        assert v.0.0 in ys <==> v.0.0 == y || v.0.0 in ys[1..];
      }
    }
  }

  // ------------------------------------------------------------------------
  // The events stored at one date
  // ------------------------------------------------------------------------

  /** The forms a date may take: a (year, month, day) tuple, a "YYYYMMDD" string or a date object. */
  datatype DateArg = DateTuple(year: int, month: int, day: int) | DateString(text: string) | DateObject(y: int, m: int, d: int)

  const VALUE_ERROR := "ValueError"

  /** `s[i:j]` for 0 <= i <= j: Python clamps the bounds to the length. */
  function Slice(s: string, i: nat, j: nat): (r: string)
    requires i <= j
    ensures |r| <= j - i
    ensures j <= |s| ==> r == s[i..j]
  {
    if |s| <= i then [] else if |s| <= j then s[i..] else s[i..j]
  }

  /** The year, month and day of a date; `int` raises ValueError on a part that is not an integer. */
  function DateParts(date: DateArg): (r: Result<Day>)
  {
    match date
    case DateTuple(y, m, d) => Ok((y, m, d))
    case DateObject(y, m, d) => Ok((y, m, d))
    case DateString(s) =>
      var y := ParseInt(Slice(s, 0, 4));
      var m := ParseInt(Slice(s, 4, 6));
      var d := ParseInt(Slice(s, 6, 8));
      if y.Some? && m.Some? && d.Some? then Ok((y.value, m.value, d.value)) else Err(VALUE_ERROR)
  }

  /**
   * getEventsAt: the events stored at a date, or `empty` when the calendar
   * holds nothing (`values` is None, or an empty tree), when the date is
   * absent at any level, or when the stored list is empty.
   */
  function EventsAt(values: Option<YearsDict>, date: DateArg, empty: Option<Events>): (r: Result<Option<Events>>)
  {
    if values.None? || values.value == map[] then Ok(empty)
    else
      match DateParts(date)
      case Err(e) => Err(e)
      case Ok((y, m, d)) =>
        var years := values.value;
        if y !in years || m !in years[y] || d !in years[y][m] then Ok(empty)
        else if years[y][m][d] == [] then Ok(empty)
        else Ok(Some(years[y][m][d]))
  }

  /** The events stored at a day, when there are some. */
  predicate StoredAt(values: Option<YearsDict>, day: Day, events: Events)
  {
    values.Some? && day.0 in values.value && day.1 in values.value[day.0]
    && day.2 in values.value[day.0][day.1] && values.value[day.0][day.1][day.2] == events
  }

  /**
   * getEventsAt answers the stored events exactly when there are some at the
   * date, and `empty` otherwise; only an unparsable date string raises.
   */
  lemma {:induction false} EventsAtMeaning(values: Option<YearsDict>, date: DateArg, empty: Option<Events>, events: Events)
    requires events != []
    ensures DateParts(date).Ok? && values.Some? && values.value != map[] && StoredAt(values, DateParts(date).value, events) ==>
              EventsAt(values, date, empty) == Ok(Some(events))
    ensures DateParts(date).Ok? ==>
              EventsAt(values, date, empty).Ok?
              && (EventsAt(values, date, empty).value != empty ==> StoredAt(values, DateParts(date).value, EventsAt(values, date, empty).value.value))
    ensures EventsAt(values, date, empty).Err? <==> values.Some? && values.value != map[] && DateParts(date).Err?
  {
  }

  lemma {:induction false} FourDigits(y: nat)
    requires 1000 <= y <= 9999
    ensures |NatToString(y)| == 4
  {
    assert NatToString(y) == NatToString(y / 10) + [DigitChar(y % 10)];
    assert NatToString(y / 10) == NatToString(y / 100) + [DigitChar((y / 10) % 10)];
    assert NatToString(y / 100) == NatToString(y / 1000) + [DigitChar((y / 100) % 10)];
  }

  /** A date written as "YYYYMMDD" (`'%d%02d%02d'`) reads back as the day it was written from. */
  lemma {:induction false} DateStringRoundTrip(y: nat, m: nat, d: nat)
    requires 1000 <= y <= 9999 && m < 100 && d < 100
    ensures DateParts(DateString(NatToString(y) + ZFill2(m) + ZFill2(d))) == Ok((y, m, d))
  {
    var ys, ms, ds := NatToString(y), ZFill2(m), ZFill2(d);
    var s := ys + ms + ds;
    FourDigits(y);
    assert Slice(s, 0, 4) == ys;
    assert Slice(s, 4, 6) == ms;
    assert Slice(s, 6, 8) == ds;
    ParseIntOfNat(y);
    ParseIntOfDigits(ms);
    ParseIntOfDigits(ds);
  }

  /** Hence looking a day up by its string gives what looking it up by its tuple gives. */
  lemma {:induction false} EventsAtString(values: Option<YearsDict>, y: nat, m: nat, d: nat, empty: Option<Events>)
    requires 1000 <= y <= 9999 && m < 100 && d < 100
    ensures EventsAt(values, DateString(NatToString(y) + ZFill2(m) + ZFill2(d)), empty) == EventsAt(values, DateTuple(y, m, d), empty)
  {
    DateStringRoundTrip(y, m, d);
  }
}
