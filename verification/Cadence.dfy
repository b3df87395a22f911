/**
 The calendar of expected control occurrences (app/control_occurrences.py): month arithmetic that
 clamps to the end of the month, and the dates of a period or of a rolling horizon.
 */
module Cadence {
  import opened Common

  datatype Date = Date(year: int, month: int, day: int)

  predicate IsLeap(year: int) {
    year % 4 == 0 && (year % 100 != 0 || year % 400 == 0)
  }

  /** calendar.monthrange(year, month)[1]. */
  function DaysIn(year: int, month: int): (n: int)
    ensures 28 <= n <= 31
  {
    if month == 2 then (if IsLeap(year) then 29 else 28)
    else if month in {4, 6, 9, 11} then 30
    else 31
  }

  lemma Nested(year: int)
    ensures year % 400 == 0 ==> year % 100 == 0
    ensures year % 100 == 0 ==> year % 4 == 0
  {
    assert year == 400 * (year / 400) + year % 400 && year == 100 * (year / 100) + year % 100;
    if year % 400 == 0 {
      assert year == 100 * (4 * (year / 400));
    }
    if year % 100 == 0 {
      assert year == 4 * (25 * (year / 100));
    }
  }

  lemma LeapRule(year: int)
    ensures IsLeap(year) <==> year % 400 == 0 || (year % 4 == 0 && year % 100 != 0)
  {
    Nested(year);
  }

  /** The Gregorian calendar: the lengths of the twelve months. */
  lemma MonthLengths(year: int)
    ensures DaysIn(year, 1) == 31 && DaysIn(year, 3) == 31 && DaysIn(year, 5) == 31 && DaysIn(year, 7) == 31
    ensures DaysIn(year, 8) == 31 && DaysIn(year, 10) == 31 && DaysIn(year, 12) == 31
    ensures DaysIn(year, 4) == 30 && DaysIn(year, 6) == 30 && DaysIn(year, 9) == 30 && DaysIn(year, 11) == 30
    ensures DaysIn(year, 2) == if year % 400 == 0 || (year % 4 == 0 && year % 100 != 0) then 29 else 28
  {
    LeapRule(year);
  }

  function YearLength(year: int): int {
    DaysIn(year, 1) + DaysIn(year, 2) + DaysIn(year, 3) + DaysIn(year, 4) + DaysIn(year, 5) + DaysIn(year, 6) +
    DaysIn(year, 7) + DaysIn(year, 8) + DaysIn(year, 9) + DaysIn(year, 10) + DaysIn(year, 11) + DaysIn(year, 12)
  }

  /** 365 days in a common year and 366 in a leap year. */
  lemma YearLengths(year: int)
    ensures YearLength(year) == if year % 400 == 0 || (year % 4 == 0 && year % 100 != 0) then 366 else 365
  {
    MonthLengths(year);
  }

  /** The leap years from year 1 up to and including a year. */
  function LeapsBy(year: int): int {
    year / 4 - year / 100 + year / 400
  }

  lemma Multiples(year: int, n: int)
    requires n == 4 || n == 100 || n == 400
    ensures year / n - (year - 1) / n == if year % n == 0 then 1 else 0
  {
  }

  lemma LeapStep(year: int)
    ensures LeapsBy(year) - LeapsBy(year - 1) ==
            if year % 400 == 0 || (year % 4 == 0 && year % 100 != 0) then 1 else 0
  {
    Multiples(year, 4);
    Multiples(year, 100);
    Multiples(year, 400);
    Nested(year);
  }

  lemma Shifted(x: int, n: int, k: int)
    requires n == 4 || n == 100 || n == 400
    ensures (x + n * k) / n == x / n + k
  {
  }

  lemma YearStep(year: int)
    ensures YearLength(year) == 365 + LeapsBy(year) - LeapsBy(year - 1)
  {
    YearLengths(year);
    LeapStep(year);
  }

  function DaysOver(year: int, years: nat): int {
    if years == 0 then 0 else DaysOver(year, years - 1) + YearLength(year + years - 1)
  }

  lemma {:induction false} DaysOverYears(year: int, years: nat)
    ensures DaysOver(year, years) == 365 * years + LeapsBy(year + years - 1) - LeapsBy(year - 1)
  {
    if years > 0 {
      DaysOverYears(year, years - 1);
      YearStep(year + years - 1);
    }
  }

  /** Any 400 consecutive years have 146097 days. */
  lemma FourHundredYears(year: int, years: nat)
    requires years == 400
    ensures DaysOver(year, years) == 146097
  {
    DaysOverYears(year, years);
    Shifted(year - 1, 4, 100);
    Shifted(year - 1, 100, 4);
    Shifted(year - 1, 400, 1);
  }

  predicate Valid(d: Date) {
    1 <= d.month <= 12 && 1 <= d.day <= DaysIn(d.year, d.month)
  }

  /** Months since year 0. */
  function MonthOf(d: Date): int {
    d.year * 12 + d.month - 1
  }

  function LengthOf(month: int): int {
    DaysIn(month / 12, month % 12 + 1)
  }

  predicate OnOrBefore(a: Date, b: Date) {
    MonthOf(a) < MonthOf(b) || (MonthOf(a) == MonthOf(b) && a.day <= b.day)
  }

  /** Dates compare by year, then month, then day. */
  lemma DateOrder(a: Date, b: Date)
    requires Valid(a) && Valid(b)
    ensures OnOrBefore(a, b) <==>
      a.year < b.year || (a.year == b.year && (a.month < b.month || (a.month == b.month && a.day <= b.day)))
  {
  }

  /** _add_months. */
  function AddMonths(d: Date, months: int): Date {
    var index := d.month - 1 + months;
    var year := d.year + index / 12;
    var month := index % 12 + 1;
    Date(year, month, Min(d.day, DaysIn(year, month)))
  }

  /** The month moves by exactly `months`; the day is kept unless the month is too short for it. */
  lemma AddMonthsMoves(d: Date, months: int)
    requires Valid(d)
    ensures Valid(AddMonths(d, months))
    ensures MonthOf(AddMonths(d, months)) == MonthOf(d) + months
    ensures AddMonths(d, months).day == Min(d.day, LengthOf(MonthOf(d) + months))
  {
    var index := d.month - 1 + months;
    assert index == 12 * (index / 12) + index % 12;
    var m := MonthOf(d) + months;
    assert m == 12 * (d.year + index / 12) + index % 12;
    assert m / 12 == d.year + index / 12 && m % 12 == index % 12;
  }

  /******* Chains of dates *******/

  /** Stepping `k` times by `interval` months, each step from the date the last one reached. */
  function Chain(start: Date, interval: int, k: nat): Date {
    if k == 0 then start else AddMonths(Chain(start, interval, k - 1), interval)
  }

  /** The month `j` steps after the start's. */
  function MonthAt(start: Date, interval: int, j: int): int {
    MonthOf(start) + j * interval
  }

  /** The least of the start day and the lengths of the months visited up to step `k`. */
  ghost predicate IsLeastDay(day: int, start: Date, interval: int, k: nat) {
    && day <= start.day
    && (forall j {:trigger LengthOf(MonthAt(start, interval, j))} :: 0 <= j <= k ==>
          day <= LengthOf(MonthAt(start, interval, j)))
    && (day == start.day || exists j {:trigger LengthOf(MonthAt(start, interval, j))} ::
          0 <= j <= k && day == LengthOf(MonthAt(start, interval, j)))
  }

  lemma {:induction false} ChainMonth(start: Date, interval: int, k: nat)
    requires Valid(start)
    ensures Valid(Chain(start, interval, k))
    ensures MonthOf(Chain(start, interval, k)) == MonthAt(start, interval, k)
  {
    if k > 0 {
      ChainMonth(start, interval, k - 1);
      AddMonthsMoves(Chain(start, interval, k - 1), interval);
      assert k * interval == (k - 1) * interval + interval;
    }
  }

  lemma LeastDayStep(day: int, start: Date, interval: int, k: nat)
    requires k > 0 && IsLeastDay(day, start, interval, k - 1)
    ensures IsLeastDay(Min(day, LengthOf(MonthAt(start, interval, k))), start, interval, k)
  {
    var next := LengthOf(MonthAt(start, interval, k));
    if day <= next && day != start.day {
      var j :| 0 <= j <= k - 1 && day == LengthOf(MonthAt(start, interval, j));
    }
  }

  /**
   The k-th date lies k * interval months on. Clamping carries forward: its day is the least of the
   start day and the lengths of all the months visited so far.
   */
  lemma ChainDate(start: Date, interval: int, k: nat)
    requires Valid(start)
    ensures Valid(Chain(start, interval, k))
    ensures MonthOf(Chain(start, interval, k)) == MonthAt(start, interval, k)
    ensures IsLeastDay(Chain(start, interval, k).day, start, interval, k)
  {
    ChainMonth(start, interval, k);
    ChainDay(start, interval, k);
  }

  lemma {:induction false} ChainDay(start: Date, interval: int, k: nat)
    requires Valid(start)
    ensures IsLeastDay(Chain(start, interval, k).day, start, interval, k)
  {
    if k == 0 {
      AddMonthsMoves(start, 0);
      assert MonthAt(start, interval, 0) == MonthOf(start);
    } else {
      ChainDay(start, interval, k - 1);
      ChainDayStep(start, interval, k);
      LeastDayStep(Chain(start, interval, k - 1).day, start, interval, k);
    }
  }

  lemma ChainDayStep(start: Date, interval: int, k: nat)
    requires Valid(start) && k > 0
    ensures Chain(start, interval, k).day ==
            Min(Chain(start, interval, k - 1).day, LengthOf(MonthAt(start, interval, k)))
  {
    ChainMonth(start, interval, k - 1);
    AddMonthsMoves(Chain(start, interval, k - 1), interval);
    assert k * interval == (k - 1) * interval + interval;
  }

  lemma ChainRises(start: Date, interval: int, i: nat, j: nat)
    requires Valid(start) && interval > 0 && i < j
    ensures MonthOf(Chain(start, interval, i)) < MonthOf(Chain(start, interval, j))
  {
    ChainMonth(start, interval, i);
    ChainMonth(start, interval, j);
    assert j * interval == i * interval + (j - i) * interval;
    assert (j - i) * interval > 0;
  }

  lemma {:induction false} ChainSplit(start: Date, interval: int, i: nat, j: nat)
    ensures Chain(Chain(start, interval, i), interval, j) == Chain(start, interval, i + j)
  {
    if j > 0 {
      ChainSplit(start, interval, i, j - 1);
    }
  }

  /** The loop of _compute_due_dates. */
  function DatesFrom(current: Date, end: Date, interval: int): seq<Date>
    requires interval > 0 && Valid(current)
    decreases MonthOf(end) - MonthOf(current) + 1
  {
    if !OnOrBefore(current, end) then []
    else
      AddMonthsMoves(current, interval);
      [current] + DatesFrom(AddMonths(current, interval), end, interval)
  }

  method ComputeDates(start: Date, end: Date, interval: int) returns (dates: seq<Date>)
    requires interval > 0 && Valid(start)
    ensures dates == DatesFrom(start, end, interval)
  {
    dates := [];
    var current := start;
    while OnOrBefore(current, end)
      invariant Valid(current)
      invariant dates + DatesFrom(current, end, interval) == DatesFrom(start, end, interval)
      decreases MonthOf(end) - MonthOf(current) + 1
    {
      AddMonthsMoves(current, interval);
      dates := dates + [current];
      current := AddMonths(current, interval);
    }
  }

  /** The loop yields a chain, exactly up to the end date. */
  lemma {:induction false} DatesAreChain(start: Date, end: Date, interval: int)
    requires interval > 0 && Valid(start)
    ensures var dates := DatesFrom(start, end, interval);
      && (forall k :: 0 <= k < |dates| ==> dates[k] == Chain(start, interval, k) && OnOrBefore(dates[k], end))
      && !OnOrBefore(Chain(start, interval, |dates|), end)
    decreases MonthOf(end) - MonthOf(start) + 1
  {
    if OnOrBefore(start, end) {
      var next := AddMonths(start, interval);
      AddMonthsMoves(start, interval);
      DatesAreChain(next, end, interval);
      ChainTail(start, end, interval, next, DatesFrom(next, end, interval));
    }
  }

  /** Putting the start before the chain that begins one step later. */
  lemma ChainTail(start: Date, end: Date, interval: int, next: Date, rest: seq<Date>)
    requires OnOrBefore(start, end) && next == AddMonths(start, interval)
    requires forall k :: 0 <= k < |rest| ==> rest[k] == Chain(next, interval, k) && OnOrBefore(rest[k], end)
    requires !OnOrBefore(Chain(next, interval, |rest|), end)
    ensures var dates := [start] + rest;
      && (forall k :: 0 <= k < |dates| ==> dates[k] == Chain(start, interval, k) && OnOrBefore(dates[k], end))
      && !OnOrBefore(Chain(start, interval, |dates|), end)
  {
    var dates := [start] + rest;
    forall k | 0 <= k < |dates| ensures dates[k] == Chain(start, interval, k) && OnOrBefore(dates[k], end) {
      if k > 0 {
        ChainShift(start, interval, k - 1);
        assert dates[k] == rest[k - 1];
      }
    }
    ChainShift(start, interval, |rest|);
  }

  lemma ChainShift(start: Date, interval: int, k: nat)
    ensures Chain(AddMonths(start, interval), interval, k) == Chain(start, interval, k + 1)
  {
    assert Chain(start, interval, 1) == AddMonths(Chain(start, interval, 0), interval);
    ChainSplit(start, interval, 1, k);
  }

  /** The date is on the chain from the start, and not past the end. */
  ghost predicate Reaches(start: Date, end: Date, interval: int, d: Date)
    requires interval > 0 && Valid(start)
  {
    exists k: nat :: d == Chain(start, interval, k) && OnOrBefore(d, end)
  }

  /** A date is produced exactly if it is on the chain and not past the end. */
  lemma DatesMembers(start: Date, end: Date, interval: int, d: Date)
    requires interval > 0 && Valid(start)
    ensures d in DatesFrom(start, end, interval) <==> Reaches(start, end, interval, d)
  {
    var dates := DatesFrom(start, end, interval);
    DatesAreChain(start, end, interval);
    if k: nat :| d == Chain(start, interval, k) && OnOrBefore(d, end) {
      if k > |dates| {
        ChainRises(start, interval, |dates|, k);
      }
      assert k < |dates|;
      assert dates[k] == d;
    }
  }

  /******* Rolling generation *******/

  ghost predicate IsLatest(dues: set<Date>, d: Date) {
    d in dues && forall e :: e in dues ==> OnOrBefore(e, d)
  }

  lemma {:induction false} LatestExists(dues: set<Date>) returns (latest: Date)
    requires dues != {}
    ensures IsLatest(dues, latest)
    decreases |dues|
  {
    var d :| d in dues;
    var rest := dues - {d};
    if rest == {} {
      latest := d;
      assert dues == {d};
    } else {
      var e := LatestExists(rest);
      latest := if OnOrBefore(d, e) then e else d;
      forall f | f in dues ensures OnOrBefore(f, latest) {
        assert f == d || f in rest;
      }
    }
  }

  /** func.max(due_at): the latest due date of the period-less occurrences. */
  ghost function Latest(dues: set<Date>): (d: Date)
    requires dues != {}
    ensures IsLatest(dues, d)
  {
    assert exists d :: IsLatest(dues, d) by {
      var d := LatestExists(dues);
    }
    var d :| IsLatest(dues, d);
    d
  }

  ghost predicate AllValid(dues: set<Date>) {
    forall d :: d in dues ==> Valid(d)
  }

  /** Where the period-less path of _compute_due_dates starts. */
  ghost function RollingStart(dues: set<Date>, today: Date, interval: int): (d: Date)
    requires AllValid(dues) && Valid(today)
    ensures Valid(d)
  {
    if dues == {} then today
    else
      AddMonthsMoves(Latest(dues), interval);
      AddMonths(Latest(dues), interval)
  }

  /** The due dates after one rolling call. */
  ghost function Roll(dues: set<Date>, today: Date, horizon: int, interval: int): set<Date>
    requires AllValid(dues) && Valid(today) && interval > 0
  {
    dues + set d | d in DatesFrom(RollingStart(dues, today, interval), AddMonths(today, horizon), interval)
  }

  lemma NotBeforeStart(start: Date, end: Date, interval: int, d: Date)
    requires interval > 0 && Valid(start) && d in DatesFrom(start, end, interval)
    ensures MonthOf(start) <= MonthOf(d)
  {
    var dates := DatesFrom(start, end, interval);
    DatesAreChain(start, end, interval);
    var k :| 0 <= k < |dates| && dates[k] == d;
    if k > 0 {
      ChainRises(start, interval, 0, k);
    }
  }

  /** The dates of a rolling call lie after every date on record. */
  lemma RollingDateIsNew(dues: set<Date>, today: Date, horizon: int, interval: int, d: Date)
    requires AllValid(dues) && Valid(today) && interval > 0
    requires d in DatesFrom(RollingStart(dues, today, interval), AddMonths(today, horizon), interval)
    ensures d !in dues
  {
    NotBeforeStart(RollingStart(dues, today, interval), AddMonths(today, horizon), interval, d);
    if dues != {} {
      AddMonthsMoves(Latest(dues), interval);
    }
  }

  /** Calls of generate_occurrences without a period, and manual recordings without a period. */
  datatype Op = Generate(today: Date, horizon: int) | Manual(due: Date)

  ghost predicate ValidOps(ops: seq<Op>) {
    forall i :: 0 <= i < |ops| ==> Valid(if ops[i].Generate? then ops[i].today else ops[i].due)
  }

  lemma RollValid(dues: set<Date>, today: Date, horizon: int, interval: int)
    requires AllValid(dues) && Valid(today) && interval > 0
    ensures AllValid(Roll(dues, today, horizon, interval))
  {
    var start := RollingStart(dues, today, interval);
    forall d | d in DatesFrom(start, AddMonths(today, horizon), interval) ensures Valid(d) {
      DatesMembers(start, AddMonths(today, horizon), interval, d);
      var k: nat :| d == Chain(start, interval, k);
      ChainMonth(start, interval, k);
    }
  }

  /** The due dates after a series of operations, for one control with a fixed interval. */
  ghost function DuesAfter(ops: seq<Op>, interval: int): (dues: set<Date>)
    requires ValidOps(ops) && interval > 0
    ensures AllValid(dues)
  {
    if ops == [] then {}
    else
      var before, op := DuesAfter(ops[..|ops| - 1], interval), ops[|ops| - 1];
      if op.Manual? then before + {op.due}
      else
        RollValid(before, op.today, op.horizon, interval);
        Roll(before, op.today, op.horizon, interval)
  }

  /** The first and the last date that a chain has to reach. */
  datatype Span = Span(start: Date, end: Date)

  /**
   The span of the chain that the operations lay down. It starts with the first date on record: the
   day of the first call, unless its horizon is negative, or a manual date. It ends with the largest
   horizon asked for since.
   */
  ghost function SpanOf(ops: seq<Op>): Option<Span> {
    if ops == [] then None
    else
      var before, op := SpanOf(ops[..|ops| - 1]), ops[|ops| - 1];
      match op
      case Manual(due) => if before.None? then Some(Span(due, due)) else before
      case Generate(today, horizon) =>
        var end := AddMonths(today, horizon);
        if before.Some? then
          Some(Span(before.value.start, if OnOrBefore(before.value.end, end) then end else before.value.end))
        else if horizon >= 0 then Some(Span(today, end))
        else None
  }

  ghost function ManualDates(ops: seq<Op>): set<Date> {
    set i | 0 <= i < |ops| && ops[i].Manual? :: ops[i].due
  }

  /** Each manual date is the first date on record, or not later than the latest one. */
  ghost predicate NoLaterManual(ops: seq<Op>, interval: int)
    requires ValidOps(ops) && interval > 0
  {
    forall i {:trigger ManualNotLater(ops, i, interval)} :: 0 <= i < |ops| ==> ManualNotLater(ops, i, interval)
  }

  ghost predicate ManualNotLater(ops: seq<Op>, i: int, interval: int)
    requires ValidOps(ops) && interval > 0 && 0 <= i < |ops|
  {
    ops[i].Manual? ==>
      var before := DuesAfter(ops[..i], interval);
      before == {} || OnOrBefore(ops[i].due, Latest(before))
  }

  ghost function ChainUpTo(start: Date, end: Date, interval: int): set<Date>
    requires interval > 0 && Valid(start)
  {
    set d | d in DatesFrom(start, end, interval)
  }

  /** Continuing a chain after its last date up to a new end extends it, if the new end is later. */
  lemma ChainContinues(start: Date, end: Date, end': Date, interval: int)
    requires interval > 0 && Valid(start) && OnOrBefore(start, end)
    ensures var n := |DatesFrom(start, end, interval)|;
      && n > 0 && Valid(Chain(start, interval, n))
      && ChainUpTo(start, end, interval) + ChainUpTo(Chain(start, interval, n), end', interval) ==
         ChainUpTo(start, if OnOrBefore(end, end') then end' else end, interval)
  {
    var n := |DatesFrom(start, end, interval)|;
    DatesAreChain(start, end, interval);
    ChainMonth(start, interval, n);
    forall d {
      ContinuedMember(start, end, end', interval, d);
    }
  }

  lemma ContinuedMember(start: Date, end: Date, end': Date, interval: int, d: Date)
    requires interval > 0 && Valid(start)
    ensures var next := Chain(start, interval, |DatesFrom(start, end, interval)|);
      Valid(next) &&
      (d in ChainUpTo(start, if OnOrBefore(end, end') then end' else end, interval) <==>
       d in ChainUpTo(start, end, interval) || d in ChainUpTo(next, end', interval))
  {
    var n := |DatesFrom(start, end, interval)|;
    ChainMonth(start, interval, n);
    var next := Chain(start, interval, n);
    var last := if OnOrBefore(end, end') then end' else end;
    DatesMembers(start, end, interval, d);
    DatesMembers(next, end', interval, d);
    DatesMembers(start, last, interval, d);
    ContinuationMember(start, end, end', interval, n, d);
  }

  /** On the chain from the n-th date on and up to the new end: on the chain, past the old end, up to the new end. */
  lemma ContinuationMember(start: Date, end: Date, end': Date, interval: int, n: nat, d: Date)
    requires interval > 0 && Valid(start) && n == |DatesFrom(start, end, interval)|
    ensures Valid(Chain(start, interval, n))
    ensures Reaches(Chain(start, interval, n), end', interval, d) <==>
            !OnOrBefore(d, end) && Reaches(start, end', interval, d)
  {
    ChainMonth(start, interval, n);
    if k: nat :| d == Chain(Chain(start, interval, n), interval, k) && OnOrBefore(d, end') {
      ChainSplit(start, interval, n, k);
      ContinuedIsLater(start, end, interval, n, n + k);
    }
    if k: nat :| d == Chain(start, interval, k) && OnOrBefore(d, end') {
      if !OnOrBefore(d, end) {
        ContinuedReached(start, end, interval, n, k);
        ChainSplit(start, interval, n, k - n);
      }
    }
  }

  lemma ContinuedIsLater(start: Date, end: Date, interval: int, n: nat, k: nat)
    requires interval > 0 && Valid(start) && n == |DatesFrom(start, end, interval)| && n <= k
    ensures !OnOrBefore(Chain(start, interval, k), end)
  {
    DatesAreChain(start, end, interval);
    if n < k {
      ChainRises(start, interval, n, k);
    }
  }

  lemma ContinuedReached(start: Date, end: Date, interval: int, n: nat, k: nat)
    requires interval > 0 && Valid(start) && n == |DatesFrom(start, end, interval)|
    requires !OnOrBefore(Chain(start, interval, k), end)
    ensures n <= k
  {
    DatesAreChain(start, end, interval);
    assert forall i :: 0 <= i < n ==> DatesFrom(start, end, interval)[i] == Chain(start, interval, i);
  }

  /** The last date of the chain up to `end`. */
  function LastOf(start: Date, end: Date, interval: int): Date
    requires interval > 0 && Valid(start) && OnOrBefore(start, end)
  {
    Chain(start, interval, |DatesFrom(start, end, interval)| - 1)
  }

  lemma ChainLatest(start: Date, end: Date, interval: int)
    requires interval > 0 && Valid(start) && OnOrBefore(start, end)
    ensures IsLatest(ChainUpTo(start, end, interval), LastOf(start, end, interval))
    ensures Valid(LastOf(start, end, interval))
  {
    var dates := DatesFrom(start, end, interval);
    DatesAreChain(start, end, interval);
    var n := |dates| - 1;
    assert dates[n] in ChainUpTo(start, end, interval);
    ChainMonth(start, interval, n);
    forall e | e in dates ensures OnOrBefore(e, dates[n]) {
      var k :| 0 <= k < |dates| && dates[k] == e;
      if k < n {
        ChainRises(start, interval, k, n);
      }
    }
  }

  lemma LatestIs(dues: set<Date>, d: Date)
    requires AllValid(dues) && IsLatest(dues, d)
    ensures dues != {} && Latest(dues) == d
  {
    var e := Latest(dues);
    assert OnOrBefore(d, e) && OnOrBefore(e, d);
    SameDate(d, e);
  }

  lemma SameDate(a: Date, b: Date)
    requires Valid(a) && Valid(b) && OnOrBefore(a, b) && OnOrBefore(b, a)
    ensures a == b
  {
    assert a.year * 12 + a.month == b.year * 12 + b.month;
  }

  lemma LatestGrows(dues: set<Date>, latest: Date, d: Date)
    requires IsLatest(dues, latest)
    ensures IsLatest(dues + {d}, if OnOrBefore(latest, d) then d else latest)
  {
    var m := if OnOrBefore(latest, d) then d else latest;
    forall e | e in dues + {d} ensures OnOrBefore(e, m) {
      assert e in dues ==> OnOrBefore(e, latest);
    }
  }

  method FindLatest(dues: set<Date>) returns (latest: Option<Date>)
    requires AllValid(dues)
    ensures if dues == {} then latest == None else latest == Some(Latest(dues))
  {
    if dues == {} {
      return None;
    }
    var m :| m in dues;
    var rest := dues - {m};
    assert dues - rest == {m};
    while rest != {}
      invariant rest <= dues && IsLatest(dues - rest, m)
      decreases |rest|
    {
      var d :| d in rest;
      LatestGrows(dues - rest, m, d);
      assert dues - (rest - {d}) == (dues - rest) + {d};
      m := if OnOrBefore(m, d) then d else m;
      rest := rest - {d};
    }
    assert dues - rest == dues;
    LatestIs(dues, m);
    latest := Some(m);
  }

  /** The dates on record are one chain and the manual dates, none of them after the chain's last. */
  ghost predicate OneChain(dues: set<Date>, manual: set<Date>, span: Span, interval: int)
    requires interval > 0
  {
    && Valid(span.start) && OnOrBefore(span.start, span.end)
    && dues == ChainUpTo(span.start, span.end, interval) + manual
    && IsLatest(dues, LastOf(span.start, span.end, interval))
  }

  ghost predicate Laid(ops: seq<Op>, interval: int)
    requires ValidOps(ops) && interval > 0
  {
    match SpanOf(ops)
    case None => DuesAfter(ops, interval) == {} == ManualDates(ops)
    case Some(span) => OneChain(DuesAfter(ops, interval), ManualDates(ops), span, interval)
  }

  /**
   Rolling generation does not depend on how it is split. For a fixed interval and no later-dated
   manual occurrence, any series of operations leaves exactly the dates of one chain, from the first
   date on record to the largest horizon asked for since, and the manual dates.
   */
  lemma {:induction false} RollingIsOneChain(ops: seq<Op>, interval: int)
    requires ValidOps(ops) && interval > 0 && NoLaterManual(ops, interval)
    ensures Laid(ops, interval)
  {
    if ops != [] {
      var n := |ops| - 1;
      var front, op := ops[..n], ops[n];
      assert ValidOps(front) && ops == front + [op];
      forall i | 0 <= i < n ensures ManualNotLater(front, i, interval) {
        assert ManualNotLater(ops, i, interval);
        assert front[..i] == ops[..i];
      }
      RollingIsOneChain(front, interval);
      ManualDatesAppend(ops);
      assert ManualNotLater(ops, n, interval);
      if SpanOf(front).None? {
        FirstStep(front, op, interval);
      } else if op.Manual? {
        ManualStep(DuesAfter(front, interval), ManualDates(front), SpanOf(front).value, op.due, interval);
      } else {
        GenerateStep(DuesAfter(front, interval), ManualDates(front), SpanOf(front).value, op, interval);
      }
    }
  }

  /** With nothing on record, a negative horizon generates nothing, and everything else starts the chain. */
  lemma FirstStep(front: seq<Op>, op: Op, interval: int)
    requires ValidOps(front) && ValidOps(front + [op]) && interval > 0
    requires SpanOf(front).None? && Laid(front, interval)
    ensures Laid(front + [op], interval)
  {
    var ops := front + [op];
    assert ops[..|front|] == front && ops[|front|] == op;
    ManualDatesAppend(ops);
    if op.Generate? {
      FirstRoll(op.today, op.horizon, interval);
    } else {
      SingleDate(op.due, interval);
    }
  }

  lemma FirstRoll(today: Date, horizon: int, interval: int)
    requires Valid(today) && interval > 0
    ensures var dues := Roll({}, today, horizon, interval);
      if horizon < 0 then dues == {} else OneChain(dues, {}, Span(today, AddMonths(today, horizon)), interval)
  {
    AddMonthsMoves(today, horizon);
    if horizon >= 0 {
      ChainLatest(today, AddMonths(today, horizon), interval);
    }
  }

  lemma SingleDate(due: Date, interval: int)
    requires Valid(due) && interval > 0
    ensures ChainUpTo(due, due, interval) == {due} && LastOf(due, due, interval) == due
  {
    AddMonthsMoves(due, interval);
    assert DatesFrom(due, due, interval) == [due] + DatesFrom(AddMonths(due, interval), due, interval) == [due];
  }

  lemma ManualDatesAppend(ops: seq<Op>)
    requires ops != []
    ensures var n := |ops| - 1;
      ManualDates(ops) == ManualDates(ops[..n]) + if ops[n].Manual? then {ops[n].due} else {}
  {
    var n := |ops| - 1;
    forall d | d in ManualDates(ops[..n]) ensures d in ManualDates(ops) {
      var i :| 0 <= i < n && ops[..n][i].Manual? && ops[..n][i].due == d;
      assert ops[i].Manual? && ops[i].due == d;
    }
    forall d | d in ManualDates(ops) ensures d in ManualDates(ops[..n]) || (ops[n].Manual? && d == ops[n].due) {
      var i :| 0 <= i < |ops| && ops[i].Manual? && ops[i].due == d;
      assert i < n ==> ops[..n][i].Manual? && ops[..n][i].due == d;
    }
  }

  lemma ManualStep(dues: set<Date>, manual: set<Date>, span: Span, due: Date, interval: int)
    requires interval > 0 && AllValid(dues) && OneChain(dues, manual, span, interval)
    requires dues == {} || OnOrBefore(due, Latest(dues))
    ensures OneChain(dues + {due}, manual + {due}, span, interval)
  {
    LatestIs(dues, LastOf(span.start, span.end, interval));
  }

  lemma GenerateStep(dues: set<Date>, manual: set<Date>, span: Span, op: Op, interval: int)
    requires interval > 0 && op.Generate? && Valid(op.today)
    requires AllValid(dues) && OneChain(dues, manual, span, interval)
    ensures var end := AddMonths(op.today, op.horizon);
      OneChain(Roll(dues, op.today, op.horizon, interval), manual,
               Span(span.start, if OnOrBefore(span.end, end) then end else span.end), interval)
  {
    var start, end := span.start, AddMonths(op.today, op.horizon);
    var last := if OnOrBefore(span.end, end) then end else span.end;
    LatestIs(dues, LastOf(start, span.end, interval));
    ChainContinues(start, span.end, end, interval);
    RollContinues(dues, start, span.end, op, interval);
    assert Roll(dues, op.today, op.horizon, interval) == ChainUpTo(start, last, interval) + manual;
    Extended(dues, start, span.end, last, interval, manual);
  }

  lemma RollContinues(dues: set<Date>, start: Date, end: Date, op: Op, interval: int)
    requires AllValid(dues) && op.Generate? && Valid(op.today) && interval > 0 && Valid(start) && OnOrBefore(start, end)
    requires dues != {} && Latest(dues) == LastOf(start, end, interval)
    ensures var next := Chain(start, interval, |DatesFrom(start, end, interval)|);
      Valid(next) &&
      Roll(dues, op.today, op.horizon, interval) ==
        dues + ChainUpTo(next, AddMonths(op.today, op.horizon), interval)
  {
    DatesAreChain(start, end, interval);
    ChainMonth(start, interval, |DatesFrom(start, end, interval)|);
  }

  lemma Extended(dues: set<Date>, start: Date, end: Date, last: Date, interval: int, manual: set<Date>)
    requires interval > 0 && Valid(start) && OnOrBefore(start, end) && OnOrBefore(end, last)
    requires IsLatest(dues, LastOf(start, end, interval)) && manual <= dues
    ensures OnOrBefore(start, last)
    ensures IsLatest(ChainUpTo(start, last, interval) + manual, LastOf(start, last, interval))
  {
    ChainLatest(start, end, interval);
    ChainLatest(start, last, interval);
    var a, b := LastOf(start, end, interval), LastOf(start, last, interval);
    DatesMembers(start, end, interval, a);
    DatesMembers(start, last, interval, a);
    assert OnOrBefore(a, b);
  }
}
