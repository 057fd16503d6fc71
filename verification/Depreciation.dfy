/** Depreciation schedules: the periods of a life, and each period's share of what remains above salvage. */
module Depreciation {
  import opened Options
  import opened Rounding

  // ---------------------------------------------------------------- periods

  /** A period of whole months; first counts months from the in-service month. */
  datatype Period = Period(number: nat, first: nat, months: nat)

  function Min(a: int, b: int): int { if a < b then a else b }

  function PeriodsFrom(used: nat, number: nat, life: nat, step: nat): seq<Period>
    requires step >= 1
    decreases life - used
  {
    if used >= life then []
    else
      var months := Min(step, life - used);
      [Period(number, used, months)] + PeriodsFrom(used + months, number + 1, life, step)
  }

  /** A life cut into months, or into years of which the last may have fewer than twelve months. */
  method Periods(life: nat, monthly: bool) returns (out: seq<Period>)
    ensures out == PeriodsFrom(0, 1, life, if monthly then 1 else 12)
  {
    var step := if monthly then 1 else 12;
    out := [];
    var used, number := 0, 1;
    while used < life
      invariant out + PeriodsFrom(used, number, life, step) == PeriodsFrom(0, 1, life, step)
      decreases life - used
    {
      var months := Min(step, life - used);
      out := out + [Period(number, used, months)];
      used, number := used + months, number + 1;
    }
  }

  function Months(periods: seq<Period>): nat {
    if periods == [] then 0 else periods[0].months + Months(periods[1..])
  }

  predicate Covers(p: Period, month: nat) { p.first <= month < p.first + p.months }

  ghost predicate Covered(periods: seq<Period>, month: nat) {
    exists i :: 0 <= i < |periods| && Covers(periods[i], month)
  }

  /** Periods numbered from number, each starting where the one before it ends; only the last may be short. */
  ghost predicate Consecutive(periods: seq<Period>, used: nat, number: nat, step: nat) {
    && (periods != [] ==> periods[0].first == used)
    && (forall i | 0 <= i < |periods| :: periods[i].number == number + i && 1 <= periods[i].months <= step)
    && (forall i | 0 <= i < |periods| - 1 ::
      periods[i].months == step && periods[i + 1].first == periods[i].first + step)
  }

  /** The periods share out the months of the life: their months add up to it and each month is in one. */
  lemma {:induction false} PeriodsPartition(used: nat, number: nat, life: nat, step: nat)
    requires step >= 1 && used <= life
    ensures var ps := PeriodsFrom(used, number, life, step);
      && Consecutive(ps, used, number, step)
      && Months(ps) == life - used
      && forall month: nat :: Covered(ps, month) <==> used <= month < life
    decreases life - used
  {
    if used < life {
      var months := Min(step, life - used);
      PeriodsPartition(used + months, number + 1, life, step);
      var ps, rest := PeriodsFrom(used, number, life, step), PeriodsFrom(used + months, number + 1, life, step);
      assert ps[1..] == rest;
      forall month: nat ensures Covered(ps, month) <==> Covers(ps[0], month) || Covered(rest, month) {
        if Covered(rest, month) {
          var i :| 0 <= i < |rest| && Covers(rest[i], month);
          assert Covers(ps[i + 1], month);
        }
        if Covered(ps, month) {
          var i :| 0 <= i < |ps| && Covers(ps[i], month);
          assert i > 0 ==> Covers(ps[1..][i - 1], month);
        }
      }
    }
  }

  // ---------------------------------------------------------------- amounts

  datatype Method = StraightLine | DecliningBalance(percent: nat)

  datatype Asset = Asset(cost: nat, salvage: nat, plan: Method, life: nat)

  datatype Row = Row(number: nat, amount: nat, straight: bool, posted: bool, book: int)

  function Room(a: Asset, book: int): nat { if book > a.salvage then book - a.salvage else 0 }

  /** This period's share of what remains above salvage; the last period's is all of it. */
  function Line(a: Asset, book: int, periods: seq<Period>): nat
    requires periods != [] && Months(periods) > 0
  {
    if |periods| == 1 then Room(a, book) else Nearest(Room(a, book) * periods[0].months, Months(periods))
  }

  function Declining(a: Asset, book: int, months: nat): int
    requires a.life > 0
  {
    if a.plan.StraightLine? then 0 else RoundRatio(book * a.plan.percent * months, 100 * a.life)
  }

  function Switches(a: Asset, book: int, switched: bool, periods: seq<Period>): bool
    requires periods != [] && Months(periods) > 0 && a.life > 0
  {
    switched || Line(a, book, periods) >= Declining(a, book, periods[0].months) || |periods| == 1
  }

  function Computed(a: Asset, book: int, switched: bool, periods: seq<Period>): nat
    requires periods != [] && Months(periods) > 0 && a.life > 0
  {
    if Switches(a, book, switched, periods) then Line(a, book, periods)
    else Min(Declining(a, book, periods[0].months), Room(a, book))
  }

  predicate WholeMonths(periods: seq<Period>) {
    forall i | 0 <= i < |periods| :: periods[i].months >= 1
  }

  lemma SomeMonths(periods: seq<Period>)
    requires WholeMonths(periods) && periods != []
    ensures Months(periods) >= periods[0].months >= 1
  {
  }

  /** The row of the first of the periods left. */
  function First(a: Asset, book: int, switched: bool, periods: seq<Period>, posted: map<nat, nat>): Row
    requires a.life > 0 && WholeMonths(periods) && periods != []
  {
    SomeMonths(periods);
    var p := periods[0];
    var amount := if p.number in posted then posted[p.number] else Computed(a, book, switched, periods);
    Row(p.number, amount, Switches(a, book, switched, periods), p.number in posted, book - amount)
  }

  /** The schedule from a book value on; a posted period keeps the amount it was posted at. */
  function Schedule(a: Asset, book: int, switched: bool, periods: seq<Period>, posted: map<nat, nat>): (rows: seq<Row>)
    requires a.life > 0 && WholeMonths(periods)
    ensures |rows| == |periods|
    decreases |periods|
  {
    if periods == [] then []
    else
      var row := First(a, book, switched, periods, posted);
      [row] + Schedule(a, row.book, row.straight, periods[1..], posted)
  }

  function Depreciated(a: Asset, periods: seq<Period>, posted: map<nat, nat>): seq<Row>
    requires a.life > 0 && WholeMonths(periods)
  {
    Schedule(a, a.cost, a.plan.StraightLine?, periods, posted)
  }

  function Total(rows: seq<Row>): nat { if rows == [] then 0 else rows[0].amount + Total(rows[1..]) }

  /** The book value the schedule ends at. */
  function Final(book: int, rows: seq<Row>): int { if rows == [] then book else rows[|rows| - 1].book }

  /** One turn of the loop: the line share, the declining share while it lasts, and the posted amount over both. */
  method Next(a: Asset, book: int, remaining: int, switched: bool, ghost left: seq<Period>, p: Period, last: bool,
              posted: map<nat, nat>)
    returns (row: Row)
    requires a.life > 0 && WholeMonths(left) && left != [] && p == left[0] && last == (|left| == 1)
        && remaining == Months(left)
    ensures row == First(a, book, switched, left, posted)
  {
    hide RoundRatio, Nearest;
    SomeMonths(left);
    var room := Room(a, book);
    var line := if last then room else Nearest(room * p.months, remaining);
    var now := switched;
    var amount := line;
    if !switched {
      var declining := Declining(a, book, p.months);
      now := line >= declining || last;
      if !now { amount := Min(declining, room); }
    }
    if p.number in posted { amount := posted[p.number]; }
    return Row(p.number, amount, now, p.number in posted, book - amount);
  }

  lemma ScheduleFrom(a: Asset, book: int, switched: bool, periods: seq<Period>, i: nat, posted: map<nat, nat>)
    requires a.life > 0 && WholeMonths(periods) && i < |periods|
    ensures WholeMonths(periods[i..]) && WholeMonths(periods[i + 1..])
    ensures Months(periods[i..]) == periods[i].months + Months(periods[i + 1..])
    ensures var row := First(a, book, switched, periods[i..], posted);
      Schedule(a, book, switched, periods[i..], posted)
        == [row] + Schedule(a, row.book, row.straight, periods[i + 1..], posted)
  {
    hide First;
    assert periods[i..][1..] == periods[i + 1..];
  }

  lemma NoPeriods(a: Asset, book: int, switched: bool, posted: map<nat, nat>)
    requires a.life > 0
    ensures WholeMonths([]) && Schedule(a, book, switched, [], posted) == []
  {
  }

  /** The loop over the periods: book value, months left and the switch are carried from one to the next. */
  method Depreciate(a: Asset, periods: seq<Period>, posted: map<nat, nat>) returns (out: seq<Row>)
    requires a.life > 0 && WholeMonths(periods) && Months(periods) == a.life
    ensures out == Depreciated(a, periods, posted)
  {
    hide First, Nearest, RoundRatio, WholeMonths;
    var book: int, remaining: int, switched := a.cost, a.life, a.plan.StraightLine?;
    out := [];
    assert periods[0..] == periods;
    ghost var rest := Depreciated(a, periods, posted);
    for i := 0 to |periods|
      invariant WholeMonths(periods[i..]) && remaining == Months(periods[i..])
      invariant rest == Schedule(a, book, switched, periods[i..], posted)
      invariant out + rest == Depreciated(a, periods, posted)
    {
      ScheduleFrom(a, book, switched, periods, i, posted);
      var row := Next(a, book, remaining, switched, periods[i..], periods[i], i == |periods| - 1, posted);
      book, remaining, switched := row.book, remaining - periods[i].months, row.straight;
      rest := Schedule(a, book, switched, periods[i + 1..], posted);
      assert out + ([row] + rest) == (out + [row]) + rest;
      out := out + [row];
    }
    assert periods[|periods|..] == [];
    NoPeriods(a, book, switched, posted);
  }

  // ---------------------------------------------------------------- what a schedule comes to

  lemma ShareWithin(room: nat, months: nat, left: nat)
    requires left > 0 && months <= left
    ensures Nearest(room * months, left) <= room
  {
    hide Nearest;
    assert room * months <= room * left;
    assert 0 * left <= room * months;
    NearestBetween(room * months, left, 0, room);
  }

  /** A computed amount never takes more than what is above salvage, and the last period takes all of it. */
  lemma ComputedWithinRoom(a: Asset, book: int, switched: bool, periods: seq<Period>)
    requires a.life > 0 && WholeMonths(periods) && periods != [] && Months(periods) > 0
    ensures Computed(a, book, switched, periods) <= Room(a, book)
    ensures |periods| == 1 ==> Computed(a, book, switched, periods) == Room(a, book)
  {
    hide Nearest, RoundRatio, Room;
    SomeMonths(periods);
    ShareWithin(Room(a, book), periods[0].months, Months(periods));
  }

  /** The amounts add up to exactly what the book value fell by. */
  lemma {:induction false} AmountsAddUp(a: Asset, book: int, switched: bool, periods: seq<Period>,
                                        posted: map<nat, nat>)
    requires a.life > 0 && WholeMonths(periods)
    ensures var rows := Schedule(a, book, switched, periods, posted);
      Total(rows) == book - Final(book, rows)
    decreases |periods|
  {
    hide First;
    if periods != [] {
      var row := First(a, book, switched, periods, posted);
      BookFalls(a, book, switched, periods, posted);
      AmountsAddUp(a, row.book, row.straight, periods[1..], posted);
    }
  }

  lemma BookFalls(a: Asset, book: int, switched: bool, periods: seq<Period>, posted: map<nat, nat>)
    requires a.life > 0 && WholeMonths(periods) && periods != []
    ensures var row := First(a, book, switched, periods, posted);
      && row.book == book - row.amount && row.number == periods[0].number
      && (row.posted <==> periods[0].number in posted)
      && (row.posted ==> row.amount == posted[periods[0].number])
      && (!row.posted ==> row.amount <= Room(a, book) && (|periods| == 1 ==> row.amount == Room(a, book)))
  {
    hide Computed, Switches;
    SomeMonths(periods);
    ComputedWithinRoom(a, book, switched, periods);
  }

  /**
   A schedule ends at salvage, so that its amounts add up to the book value less salvage, exactly when its
   last period is unposted and starts at or above salvage, or is posted at exactly what was left.
   */
  lemma {:induction false} SumsExactly(a: Asset, book: int, switched: bool, periods: seq<Period>, posted: map<nat, nat>)
    requires a.life > 0 && WholeMonths(periods) && periods != []
    ensures var rows := Schedule(a, book, switched, periods, posted);
      var last := rows[|rows| - 1];
      var before := last.book + last.amount;
      (Total(rows) == book - a.salvage)
        <==> (if last.posted then last.amount == before - a.salvage else before >= a.salvage)
    decreases |periods|
  {
    hide First;
    var rows := Schedule(a, book, switched, periods, posted);
    var row := First(a, book, switched, periods, posted);
    BookFalls(a, book, switched, periods, posted);
    if |periods| > 1 {
      var rest := Schedule(a, row.book, row.straight, periods[1..], posted);
      SumsExactly(a, row.book, row.straight, periods[1..], posted);
      assert rows[|rows| - 1] == rest[|rest| - 1];
    } else {
      assert rows == [row];
    }
  }

  /**
   With nothing posted the schedule sums exactly unless it starts below salvage, when it takes nothing; it never
   ends below.
   */
  lemma {:induction false} UnpostedExactly(a: Asset, book: int, switched: bool, periods: seq<Period>,
                                           posted: map<nat, nat>)
    requires a.life > 0 && WholeMonths(periods) && periods != []
    requires forall i | 0 <= i < |periods| :: periods[i].number !in posted
    ensures var rows := Schedule(a, book, switched, periods, posted);
      && Total(rows) == Room(a, book)
      && forall i | 0 <= i < |rows| :: Min(book, a.salvage) <= rows[i].book <= book
    decreases |periods|
  {
    hide First;
    var rows := Schedule(a, book, switched, periods, posted);
    var row := First(a, book, switched, periods, posted);
    BookFalls(a, book, switched, periods, posted);
    if |periods| > 1 {
      UnpostedExactly(a, row.book, row.straight, periods[1..], posted);
      assert rows[1..] == Schedule(a, row.book, row.straight, periods[1..], posted);
      forall i | 0 <= i < |rows| ensures Min(book, a.salvage) <= rows[i].book <= book {
        if i > 0 { assert rows[i] == rows[1..][i - 1]; }
      }
    } else {
      assert rows == [row];
    }
  }

  /** The amounts the first k periods stand posted at, and no others. */
  ghost predicate PostedFirst(periods: seq<Period>, posted: map<nat, nat>, k: nat) {
    k <= |periods| && forall i | 0 <= i < |periods| :: periods[i].number in posted <==> i < k
  }

  function PostedTotal(periods: seq<Period>, posted: map<nat, nat>): nat {
    if periods == [] then 0
    else (if periods[0].number in posted then posted[periods[0].number] else 0) + PostedTotal(periods[1..], posted)
  }

  /**
   After the first periods have been posted, whatever salvage or life has become since, the whole schedule
   sums exactly to cost less salvage if and only if no more than that was posted, and all of it when every
   period is posted.
   */
  lemma {:induction false} PostedExactly(a: Asset, book: int, switched: bool, periods: seq<Period>,
                                         posted: map<nat, nat>, k: nat)
    requires a.life > 0 && WholeMonths(periods) && periods != [] && PostedFirst(periods, posted, k)
    ensures var sum := PostedTotal(periods, posted);
      (Total(Schedule(a, book, switched, periods, posted)) == book - a.salvage)
        <==> (if k < |periods| then sum <= book - a.salvage else sum == book - a.salvage)
    decreases |periods|
  {
    hide First;
    if k == 0 {
      UnpostedExactly(a, book, switched, periods, posted);
      NothingPosted(periods, posted);
    } else {
      var row := First(a, book, switched, periods, posted);
      BookFalls(a, book, switched, periods, posted);
      assert periods[0].number in posted;
      if |periods| > 1 {
        assert PostedFirst(periods[1..], posted, k - 1);
        PostedExactly(a, row.book, row.straight, periods[1..], posted, k - 1);
      } else {
        assert Schedule(a, book, switched, periods, posted) == [row];
      }
    }
  }

  lemma {:induction false} NothingPosted(periods: seq<Period>, posted: map<nat, nat>)
    requires forall i | 0 <= i < |periods| :: periods[i].number !in posted
    ensures PostedTotal(periods, posted) == 0
  {
    if periods != [] { NothingPosted(periods[1..], posted); }
  }

  /**
   Raising salvage above the book value left by posted periods breaks the sum: 500 was posted of 1000, and
   salvage is now 600.
   */
  lemma RaisedSalvageBreaksSum()
    ensures var a, periods := Asset(1000, 600, StraightLine, 2), [Period(1, 0, 1), Period(2, 1, 1)];
      Total(Depreciated(a, periods, map[1 := 500])) == 500 && a.cost - a.salvage == 400
  {
    var a, periods := Asset(1000, 600, StraightLine, 2), [Period(1, 0, 1), Period(2, 1, 1)];
    var posted := map[1 := 500];
    PostedExactly(a, a.cost, true, periods, posted, 1);
    AmountsAddUp(a, a.cost, true, periods, posted);
    var row := First(a, a.cost, true, periods, posted);
    BookFalls(a, a.cost, true, periods, posted);
    BookFalls(a, row.book, row.straight, periods[1..], posted);
    assert Schedule(a, row.book, row.straight, periods[1..], posted)
      == [First(a, row.book, row.straight, periods[1..], posted)];
  }

  // ---------------------------------------------------------------- level amounts

  ghost predicate Monthly(periods: seq<Period>) { forall i | 0 <= i < |periods| :: periods[i].months == 1 }

  lemma {:induction false} MonthsMonthly(periods: seq<Period>)
    requires Monthly(periods)
    ensures Months(periods) == |periods|
  {
    if periods != [] { MonthsMonthly(periods[1..]); }
  }

  /** A share of a room between r times q and r times q + 1 is q or q + 1, and leaves a room between the same bounds. */
  lemma LevelShare(room: nat, left: nat, q: nat)
    requires left >= 1 && q * left <= room <= (q + 1) * left
    ensures var share := Nearest(room, left);
      && q <= share <= q + 1 && share <= room
      && q * (left - 1) <= room - share <= (q + 1) * (left - 1)
  {
    hide Nearest;
    NearestBetween(room, left, q, q + 1);
    NearestWhole(q, left);
    NearestWhole(q + 1, left);
    var share := Nearest(room, left);
    assert q * (left - 1) == q * left - q;
    assert (q + 1) * (left - 1) == (q + 1) * left - (q + 1);
    assert q * left >= q;
  }

  lemma NearestOne(n: nat)
    ensures Nearest(n, 1) == n
  {
  }

  /**
   Straight-line amounts over unposted months, from any room: each is q or q + 1 where q months' worth of q fits
   in it.
   */
  lemma {:induction false} LevelAmounts(a: Asset, book: int, periods: seq<Period>, posted: map<nat, nat>, q: nat)
    requires a.life > 0 && Monthly(periods) && book >= a.salvage
    requires forall i | 0 <= i < |periods| :: periods[i].number !in posted
    requires q * |periods| <= book - a.salvage <= (q + 1) * |periods|
    ensures var rows := Schedule(a, book, true, periods, posted);
      forall i | 0 <= i < |rows| :: q <= rows[i].amount <= q + 1
    decreases |periods|
  {
    hide Nearest;
    if periods != [] {
      var rows := Schedule(a, book, true, periods, posted);
      MonthsMonthly(periods);
      var room := book - a.salvage;
      LevelShare(room, |periods|, q);
      NearestOne(room);
      assert First(a, book, true, periods, posted).amount == Nearest(room, |periods|);
      LevelAmounts(a, rows[0].book, periods[1..], posted, q);
      assert rows[1..] == Schedule(a, rows[0].book, true, periods[1..], posted);
      forall i | 0 <= i < |rows| ensures q <= rows[i].amount <= q + 1 {
        if i > 0 { assert rows[i] == rows[1..][i - 1]; }
      }
    }
  }

  /**
   Any two months of a straight-line schedule differ by at most one cent: each takes the even share rounded down
   or up.
   */
  lemma WithinOneCent(a: Asset, periods: seq<Period>)
    requires a.plan == StraightLine && a.life > 0 && a.salvage <= a.cost && Monthly(periods) && |periods| > 0
    ensures var rows := Depreciated(a, periods, map[]);
      var even := (a.cost - a.salvage) / |periods|;
      && (forall i | 0 <= i < |rows| :: even <= rows[i].amount <= even + 1)
      && Total(rows) == a.cost - a.salvage
  {
    var room, n := a.cost - a.salvage, |periods|;
    assert room == room / n * n + room % n;
    assert (room / n + 1) * n == room / n * n + n;
    LevelAmounts(a, a.cost, periods, map[], room / n);
    UnpostedExactly(a, a.cost, true, periods, map[]);
  }

  /** Once a schedule has switched to straight line it stays there, and its last period always has. */
  lemma {:induction false} SwitchesOnce(a: Asset, book: int, switched: bool, periods: seq<Period>,
                                        posted: map<nat, nat>)
    requires a.life > 0 && WholeMonths(periods)
    ensures var rows := Schedule(a, book, switched, periods, posted);
      && (switched ==> forall i | 0 <= i < |rows| :: rows[i].straight)
      && (forall i, j | 0 <= i < j < |rows| :: rows[i].straight ==> rows[j].straight)
      && (rows != [] ==> rows[|rows| - 1].straight)
    decreases |periods|
  {
    if periods != [] {
      SomeMonths(periods);
      var rows, row := Schedule(a, book, switched, periods, posted), First(a, book, switched, periods, posted);
      SwitchesOnce(a, row.book, row.straight, periods[1..], posted);
      assert rows[1..] == Schedule(a, row.book, row.straight, periods[1..], posted);
      assert forall i | 1 <= i < |rows| :: rows[i] == rows[1..][i - 1];
    }
  }

  /**
   A straight-line period takes, whatever came before, its months' share to the nearest cent; the last takes the
   rest.
   */
  lemma StraightShares(a: Asset, book: int, switched: bool, periods: seq<Period>)
    requires a.plan.StraightLine? && a.life > 0 && WholeMonths(periods) && periods != [] && Months(periods) > 0
    ensures Switches(a, book, switched, periods)
    ensures |periods| == 1 ==> Computed(a, book, switched, periods) == Room(a, book)
    ensures |periods| > 1 ==>
      HalfEven(Room(a, book) * periods[0].months, Months(periods), Computed(a, book, switched, periods))
  {
    hide Nearest;
    if |periods| > 1 { NearestHalfEven(Room(a, book) * periods[0].months, Months(periods)); }
  }

  function Max(a: int, b: int): int { if a < b then b else a }

  /** Until it has switched, a period's computed amount is the larger of its two shares, kept above salvage. */
  lemma LargerShare(a: Asset, book: int, periods: seq<Period>)
    requires a.plan.DecliningBalance? && a.life > 0 && WholeMonths(periods) && |periods| > 1 && Months(periods) > 0
    ensures var line, declining := Line(a, book, periods), Declining(a, book, periods[0].months);
      && Computed(a, book, false, periods) == Max(line, Min(declining, Room(a, book)))
      && HalfEven(Room(a, book) * periods[0].months, Months(periods), line)
      && HalfEven(book * a.plan.percent * periods[0].months, 100 * a.life, declining)
  {
    hide Nearest, RoundRatio;
    SomeMonths(periods);
    ShareWithin(Room(a, book), periods[0].months, Months(periods));
    NearestHalfEven(Room(a, book) * periods[0].months, Months(periods));
    RoundRatioExactly(book * a.plan.percent * periods[0].months, 100 * a.life, Declining(a, book, periods[0].months));
  }
}
