/**
 When the documented reason for keeping the switch to straight line holds of the rounded shares: after the switch
 the straight-line share is a level q or q + 1, and the declining share falls, so the first q decides.
 */
module DepreciationSwitch {
  import opened Rounding
  import opened Depreciation

  // ---------------------------------------------------------------- how a level share is rounded

  /** Does the next share round up to q + 1?  The lead is twice what is above q shares, less what is left. */
  predicate Up(lead: int, q: nat) { lead > 0 || (lead == 0 && q % 2 == 1) }

  function NextLead(lead: int, q: nat, m: nat): int { if Up(lead, q) then lead - m else lead + m }

  /** How many steps of m cover a distance, one more at the distance itself when the tie there goes on. */
  function Steps(distance: nat, m: nat, turns: bool): nat
    requires m >= 1
  {
    if distance % m == 0 && turns then distance / m else distance / m + 1
  }

  function Distance(lead: int): nat { if lead < 0 then -lead else lead }

  /** Does a tie break the run?  It rounds up to an even share, so that depends on the parity of q. */
  predicate TieTurns(lead: int, q: nat) { Up(lead, q) <==> q % 2 == 0 }

  /** How many shares in a row round as the first does. */
  function RunLength(lead: int, q: nat, m: nat): nat
    requires m >= 1
  {
    Steps(Distance(lead), m, TieTurns(lead, q))
  }

  /** How many of the first k shares are q + 1: a run, and after it every other one. */
  function Ups(lead: int, q: nat, m: nat, k: nat): nat
    requires m >= 1
  {
    var run := RunLength(lead, q, m);
    if Up(lead, q) then if k <= run then k else run + (k - run) / 2
    else if k <= run then 0 else (k - run + 1) / 2
  }

  /** The first share that is only q. */
  function FirstLow(lead: int, q: nat, m: nat): nat
    requires m >= 1
  {
    if Up(lead, q) then RunLength(lead, q, m) else 0
  }

  lemma Quotient(x: nat, m: nat, k: nat, r: nat)
    requires m >= 1 && x == k * m + r && r < m
    ensures x / m == k && x % m == r
  {
    var gap := x / m - k;
    assert gap * m == r - x % m;
    if gap != 0 { Apart(gap, m); }
  }

  lemma Apart(gap: int, m: nat)
    requires m >= 1
    ensures gap >= 1 ==> gap * m >= m
    ensures gap <= -1 ==> gap * m + m <= 0
  {
    if gap >= 1 { assert (gap - 1) * m >= 0; }
    if gap <= -1 { assert (-gap - 1) * m >= 0; }
  }

  /** Leading by one share less than p the shares round as the first does, and leading by p they do not. */
  predicate TurnsAt(lead: int, q: nat, m: nat, p: int) {
    if Up(lead, q) then Up(lead - p + m, q) && !Up(lead - p, q) else !Up(lead + p - m, q) && Up(lead + p, q)
  }

  /** The first t shares round as the first does, and the next one does not. */
  predicate Turns(lead: int, q: nat, m: nat, t: nat) { TurnsAt(lead, q, m, t * m) }

  lemma TurnFound(lead: int, q: nat, m: nat, p: nat, r: nat)
    requires m >= 1 && r < m && Distance(lead) == p + r
    ensures TurnsAt(lead, q, m, if r == 0 && TieTurns(lead, q) then p else p + m)
    ensures r == 0 && TieTurns(lead, q) ==> p > 0
  {
  }

  lemma StepsAre(distance: nat, m: nat, turns: bool) returns (k: nat, r: nat)
    requires m >= 1
    ensures distance == k * m + r && r < m
    ensures Steps(distance, m, turns) == if r == 0 && turns then k else k + 1
  {
    k, r := distance / m, distance % m;
  }

  lemma OneMoreTime(k: nat, m: nat)
    ensures (k + 1) * m == k * m + m && 0 * m == 0
  {
  }

  lemma RunTurns(lead: int, q: nat, m: nat)
    requires m >= 1
    ensures RunLength(lead, q, m) >= 1 && Turns(lead, q, m, RunLength(lead, q, m))
  {
    hide TurnsAt, Distance, TieTurns, Steps;
    var k, r := StepsAre(Distance(lead), m, TieTurns(lead, q));
    OneMoreTime(k, m);
    TurnFound(lead, q, m, k * m, r);
  }

  lemma TurnsWithin(lead: int, q: nat, m: nat, p: int)
    requires m >= 1 && TurnsAt(lead, q, m, p)
    ensures p - m <= Distance(lead) <= p
    ensures Distance(lead) == p ==> TieTurns(lead, q)
    ensures Distance(lead) == p - m ==> !TieTurns(lead, q)
  {
  }

  lemma StepsFrom(distance: nat, m: nat, turns: bool, t: nat)
    requires m >= 1 && t >= 1 && t * m - m <= distance <= t * m
    requires (distance == t * m ==> turns) && (distance == t * m - m ==> !turns)
    ensures Steps(distance, m, turns) == t
  {
    OneMoreTime(t - 1, m);
    if distance == t * m { Quotient(distance, m, t, 0); }
    else { Quotient(distance, m, t - 1, distance - (t * m - m)); }
  }

  lemma TurnsOnce(lead: int, q: nat, m: nat, t: nat)
    requires m >= 1 && t >= 1 && Turns(lead, q, m, t)
    ensures RunLength(lead, q, m) == t
  {
    hide TurnsAt, Distance, TieTurns, Steps;
    TurnsWithin(lead, q, m, t * m);
    StepsFrom(Distance(lead), m, TieTurns(lead, q), t);
  }

  /** A run is counted down to one, and then the direction turns at every share. */
  lemma RunStep(lead: int, q: nat, m: nat)
    requires m >= 1
    ensures var run, next := RunLength(lead, q, m), NextLead(lead, q, m);
      && run >= 1
      && (run > 1 ==> Up(next, q) == Up(lead, q) && RunLength(next, q, m) == run - 1)
      && (run == 1 ==> Up(next, q) != Up(lead, q) && RunLength(next, q, m) == 1)
  {
    hide RunLength;
    var run, next := RunLength(lead, q, m), NextLead(lead, q, m);
    RunTurns(lead, q, m);
    if run > 1 {
      assert (run - 1) * m == run * m - m;
      Apart(run - 1, m);
      TurnsOnce(next, q, m, run - 1);
    } else {
      assert 1 * m == m;
      TurnsOnce(next, q, m, 1);
    }
  }

  /** Counting from the first share on, or from the second. */
  lemma UpsStep(lead: int, q: nat, m: nat, k: nat)
    requires m >= 1 && k >= 1
    ensures Ups(lead, q, m, k) == (if Up(lead, q) then 1 else 0) + Ups(NextLead(lead, q, m), q, m, k - 1)
  {
    hide RunLength, Up, NextLead;
    RunStep(lead, q, m);
  }

  /** Each share adds at most one; the first low one adds none, and all before it do. */
  lemma UpsGrow(lead: int, q: nat, m: nat, k: nat)
    requires m >= 1
    ensures Ups(lead, q, m, 0) == 0
    ensures Ups(lead, q, m, k) <= Ups(lead, q, m, k + 1) <= Ups(lead, q, m, k) + 1
    ensures k < FirstLow(lead, q, m) ==> Ups(lead, q, m, k) == k && Ups(lead, q, m, k + 1) == k + 1
    ensures var i := FirstLow(lead, q, m); Ups(lead, q, m, i) == i && Ups(lead, q, m, i + 1) == i
  {
    hide RunLength, Up;
    RunStep(lead, q, m);
  }

  // ---------------------------------------------------------------- the shares of what is left

  /** Periods of m months, of which only the last may be shorter. */
  ghost predicate Even(periods: seq<Period>, m: nat) {
    && m >= 1 && periods != []
    && (forall i | 0 <= i < |periods| :: 1 <= periods[i].months <= m)
    && (forall i | 0 <= i < |periods| - 1 :: periods[i].months == m)
  }

  ghost predicate Unposted(periods: seq<Period>, posted: map<nat, nat>) {
    forall i | 0 <= i < |periods| :: periods[i].number !in posted
  }

  /** The periods that are not a short last one. */
  function Whole(periods: seq<Period>, m: nat): nat
    requires periods != []
  {
    if periods[|periods| - 1].months == m then |periods| else |periods| - 1
  }

  function BookBefore(book: int, rows: seq<Row>, k: nat): int
    requires k <= |rows|
  {
    if k == 0 then book else rows[k - 1].book
  }

  /** The level share, what is above it, and how far that leads. */
  function Level(a: Asset, book: int, periods: seq<Period>, m: nat): nat
    requires Months(periods) > 0
  {
    Room(a, book) * m / Months(periods)
  }

  function Lead(a: Asset, book: int, periods: seq<Period>, m: nat): int
    requires Months(periods) > 0
  {
    2 * (Room(a, book) * m % Months(periods)) - Months(periods)
  }

  lemma EvenRest(periods: seq<Period>, m: nat)
    requires Even(periods, m)
    ensures WholeMonths(periods) && periods[0].months <= m
    ensures |periods| >= 2 ==> Even(periods[1..], m) && Whole(periods[1..], m) == Whole(periods, m) - 1
    ensures |periods| >= 2 ==> periods[0].months == m
    ensures |periods| >= 2 && Whole(periods, m) >= 2 ==> periods[1].months == m
  {
    if |periods| >= 2 { assert periods[1..][|periods| - 2] == periods[|periods| - 1]; }
  }

  lemma EvenMonths(periods: seq<Period>, m: nat)
    requires Even(periods, m)
    ensures WholeMonths(periods) && Months(periods) >= 1
    ensures |periods| >= 2 ==> Even(periods[1..], m) && Months(periods) == m + Months(periods[1..])
    ensures |periods| >= 2 && Whole(periods, m) >= 2 ==> Months(periods) >= 2 * m
    ensures |periods| >= 2 ==> Whole(periods[1..], m) == Whole(periods, m) - 1
    ensures |periods| == 1 ==> Months(periods) == periods[0].months
  {
    EvenRest(periods, m);
    EvenNonempty(periods, m);
    hide Months, Even, Whole;
    SomeMonths(periods);
    MonthsSplit(periods);
    if |periods| >= 2 {
      EvenRest(periods[1..], m);
      SomeMonths(periods[1..]);
    }
  }

  lemma EvenNonempty(periods: seq<Period>, m: nat)
    requires Even(periods, m)
    ensures periods != []
  {
  }

  lemma MonthsSplit(periods: seq<Period>)
    requires periods != []
    ensures Months(periods) == periods[0].months + Months(periods[1..])
    ensures |periods| == 1 ==> Months(periods) == periods[0].months
  {
  }

  /** A whole period's straight-line share is the level one or one more, as the lead says. */
  lemma ShareIs(room: nat, left: nat, m: nat, q: nat, above: nat)
    requires m >= 1 && left >= 1 && room * m == q * left + above && above <= left
    ensures Nearest(room * m, left) == q + if Up(2 * above - left, q) then 1 else 0
  {
    hide Nearest;
    var share := q + if Up(2 * above - left, q) then 1 else 0;
    assert (q + 1) * left == q * left + left;
    NearestHalfEven(room * m, left);
    HalfEvenUnique(room * m, left, Nearest(room * m, left), share);
  }

  lemma Product(x: int, y: nat, m: int)
    ensures (x - y) * m == x * m - y * m
  {
  }

  /** What a whole period leaves: the same level share of what is left, with the lead moved by m. */
  lemma ShareLeaves(room: nat, left: nat, m: nat, q: nat, above: nat) returns (share: nat, next: nat)
    requires m >= 1 && left >= 2 * m && room * m == q * left + above && above <= left
    ensures share == q + (if Up(2 * above - left, q) then 1 else 0) && share <= room
    ensures next <= left - m && (room - share) * m == q * (left - m) + next
    ensures 2 * next - (left - m) == NextLead(2 * above - left, q, m)
  {
    share := q + if Up(2 * above - left, q) then 1 else 0;
    next := if Up(2 * above - left, q) then above - m else above;
    Product(room, share, m);
    Product(left, m, q);
    assert (q + 1) * m == q * m + m;
    assert q * (left - m) == q * left - q * m;
    assert (room - share) * m == q * (left - m) + next;
    NotBelow(room, share, m, q * (left - m) + next, q, left - m);
  }

  lemma NotBelow(room: int, share: int, m: nat, rest: int, q: nat, left: nat)
    requires m >= 1 && (room - share) * m == rest && rest >= q * left
    ensures share <= room
  {
    assert q * left >= 0;
    if room - share < 0 { Apart(room - share, m); }
  }

  /** The straight-line share of the first period left, when that is a whole one. */
  lemma LineIs(a: Asset, book: int, periods: seq<Period>, m: nat, q: nat, above: nat)
    requires Even(periods, m) && Whole(periods, m) >= 1
    requires Months(periods) >= 1 && Room(a, book) * m == q * Months(periods) + above && above <= Months(periods)
    ensures Line(a, book, periods) == q + if Up(2 * above - Months(periods), q) then 1 else 0
  {
    hide Nearest, Up;
    EvenMonths(periods, m);
    ShareIs(Room(a, book), Months(periods), m, q, above);
    if |periods| == 1 { NearestWhole(Room(a, book), m); }
  }

  /** A switched schedule takes the straight-line share of what is left, period by period. */
  lemma StraightStep(a: Asset, book: int, periods: seq<Period>, posted: map<nat, nat>)
    requires a.life > 0 && WholeMonths(periods) && Months(periods) >= 1 && periods != [] && Unposted(periods, posted)
    ensures var rows, line := Schedule(a, book, true, periods, posted), Line(a, book, periods);
      rows[0].book == book - line && rows[1..] == Schedule(a, book - line, true, periods[1..], posted)
    ensures Line(a, book, periods) <= Room(a, book)
    ensures Room(a, book - Line(a, book, periods)) == Room(a, book) - Line(a, book, periods)
  {
    hide Nearest, RoundRatio;
    ComputedWithinRoom(a, book, true, periods);
  }

  /** The book value before each whole period, and before a short last one, in closed form. */
  lemma {:induction false} BooksAre(a: Asset, book: int, periods: seq<Period>, posted: map<nat, nat>,
                                    m: nat, q: nat, above: nat, k: nat)
    requires a.life > 0 && Even(periods, m) && Unposted(periods, posted) && WholeMonths(periods)
    requires Room(a, book) * m == q * Months(periods) + above && above <= Months(periods)
    requires k <= Whole(periods, m)
    ensures BookBefore(book, Schedule(a, book, true, periods, posted), k)
         == book - k * q - Ups(2 * above - Months(periods), q, m, k)
    decreases |periods|
  {
    hide Ups, Up, Line, Schedule, Room;
    var lead := 2 * above - Months(periods);
    EvenMonths(periods, m);
    if k == 0 {
      UpsGrow(lead, q, m, 0);
    } else {
      var rows, line := Schedule(a, book, true, periods, posted), Line(a, book, periods);
      LineIs(a, book, periods, m, q, above);
      StraightStep(a, book, periods, posted);
      UpsStep(lead, q, m, k);
      if k == 1 {
        UpsGrow(NextLead(lead, q, m), q, m, 0);
      } else {
        var share, next := ShareLeaves(Room(a, book), Months(periods), m, q, above);
        BooksAre(a, book - line, periods[1..], posted, m, q, next, k - 1);
        assert rows[k - 1] == rows[1..][k - 2];
        assert k * q == (k - 1) * q + q;
      }
    }
  }

  /** The straight-line share of each whole period, in closed form. */
  lemma LinesAre(a: Asset, book: int, periods: seq<Period>, posted: map<nat, nat>, m: nat, q: nat, above: nat, k: nat)
    requires a.life > 0 && Even(periods, m) && Unposted(periods, posted) && WholeMonths(periods)
    requires Room(a, book) * m == q * Months(periods) + above && above <= Months(periods)
    requires k < Whole(periods, m)
    ensures WholeMonths(periods[k..]) && Months(periods[k..]) >= 1
    ensures var rows, lead := Schedule(a, book, true, periods, posted), 2 * above - Months(periods);
      var before := BookBefore(book, rows, k);
      && Line(a, before, periods[k..]) == q + Ups(lead, q, m, k + 1) - Ups(lead, q, m, k)
      && BookBefore(book, rows, k + 1) == before - Line(a, before, periods[k..])
  {
    hide Ups, Line, Schedule, Room;
    var rows := Schedule(a, book, true, periods, posted);
    BooksAre(a, book, periods, posted, m, q, above, k);
    BooksAre(a, book, periods, posted, m, q, above, k + 1);
    assert (k + 1) * q == k * q + q;
    SomeMonths(periods[k..]);
    RowFrom(a, book, periods, posted, k);
  }

  /** The rest of a switched schedule is the schedule of the rest. */
  lemma {:induction false} RowFrom(a: Asset, book: int, periods: seq<Period>, posted: map<nat, nat>, k: nat)
    requires a.life > 0 && WholeMonths(periods) && Unposted(periods, posted) && k < |periods| && Months(periods) >= 1
    ensures WholeMonths(periods[k..]) && Months(periods[k..]) >= 1
    ensures var rows := Schedule(a, book, true, periods, posted);
      var before := BookBefore(book, rows, k);
      rows[k].book == before - Line(a, before, periods[k..])
    decreases k
  {
    hide Line, Schedule, Room;
    SomeMonths(periods[k..]);
    StraightStep(a, book, periods, posted);
    var rows, line := Schedule(a, book, true, periods, posted), Line(a, book, periods);
    if k == 0 {
      assert periods[0..] == periods;
    } else {
      SomeMonths(periods[1..]);
      RowFrom(a, book - line, periods[1..], posted, k - 1);
      assert periods[1..][k - 1..] == periods[k..];
      assert rows[k] == rows[1..][k - 1];
      if k > 1 { assert rows[k - 1] == rows[1..][k - 2]; }
    }
  }

  // ---------------------------------------------------------------- when the straight-line share stays the larger

  /** Is the straight-line share of the k-th period at least its declining one? */
  ghost predicate Ahead(a: Asset, book: int, periods: seq<Period>, rows: seq<Row>, k: nat)
    requires a.life > 0 && WholeMonths(periods) && k < |periods| == |rows|
  {
    SomeMonthsFrom(periods, k);
    Line(a, BookBefore(book, rows, k), periods[k..]) >= Declining(a, BookBefore(book, rows, k), periods[k].months)
  }

  ghost predicate AllAhead(a: Asset, book: int, periods: seq<Period>, rows: seq<Row>)
    requires a.life > 0 && WholeMonths(periods) && |periods| == |rows|
  {
    forall k | 0 <= k < |periods| :: Ahead(a, book, periods, rows, k)
  }

  lemma SomeMonthsFrom(periods: seq<Period>, k: nat)
    requires WholeMonths(periods) && k < |periods|
    ensures periods[k..] != [] && Months(periods[k..]) >= 1
  {
    SomeMonths(periods[k..]);
  }

  /** The book value at which the share is first only the level one. */
  function FirstLowBook(a: Asset, book: int, periods: seq<Period>, m: nat): int
    requires m >= 1 && Months(periods) > 0
  {
    var q := Level(a, book, periods, m);
    book - FirstLow(Lead(a, book, periods, m), q, m) * (q + 1)
  }

  /** The book value before a short last period. */
  function LastBook(a: Asset, book: int, periods: seq<Period>, m: nat): int
    requires m >= 1 && periods != [] && Months(periods) > 0
  {
    var q, whole := Level(a, book, periods, m), Whole(periods, m);
    book - whole * q - Ups(Lead(a, book, periods, m), q, m, whole)
  }

  /**
   What the state at the switch says of every later period: the first share is ahead; at the book value where
   the share first drops to the level one, the declining share is no more than that; and before a short last
   period it is no more than all that is left.
   */
  ghost predicate Keeps(a: Asset, book: int, periods: seq<Period>, m: nat)
    requires a.life > 0 && Even(periods, m) && Months(periods) > 0
  {
    var q, whole := Level(a, book, periods, m), Whole(periods, m);
    && Line(a, book, periods) >= Declining(a, book, periods[0].months)
    && (FirstLow(Lead(a, book, periods, m), q, m) < whole ==> Declining(a, FirstLowBook(a, book, periods, m), m) <= q)
    && (whole < |periods| ==>
         var left := LastBook(a, book, periods, m);
         Declining(a, left, periods[whole].months) <= Room(a, left))
  }

  lemma DecliningFalls(a: Asset, low: int, high: int, months: nat)
    requires a.life > 0 && low <= high
    ensures Declining(a, low, months) <= Declining(a, high, months)
  {
    hide RoundRatio, HalfEven;
    if a.plan.DecliningBalance? {
      var d, rate := 100 * a.life, a.plan.percent * months;
      RoundRatioExactly(low * a.plan.percent * months, d, Declining(a, low, months));
      RoundRatioExactly(high * a.plan.percent * months, d, Declining(a, high, months));
      assert low * a.plan.percent * months == low * rate && high * a.plan.percent * months == high * rate;
      assert low * rate <= high * rate;
      HalfEvenMonotone(low * rate, high * rate, d, Declining(a, low, months), Declining(a, high, months));
    }
  }

  /** Level and lead are those the closed forms are about. */
  lemma LevelIs(a: Asset, book: int, periods: seq<Period>, m: nat)
    requires Months(periods) > 0
    ensures var q, above := Level(a, book, periods, m), Room(a, book) * m % Months(periods);
      && Room(a, book) * m == q * Months(periods) + above && above <= Months(periods)
      && Lead(a, book, periods, m) == 2 * above - Months(periods)
  {
  }

  /** A whole period's share and book value, and that of the first low one. */
  lemma WholeShare(a: Asset, book: int, periods: seq<Period>, posted: map<nat, nat>, m: nat, k: nat)
    requires a.life > 0 && Even(periods, m) && Unposted(periods, posted) && WholeMonths(periods) && Months(periods) > 0
    requires k < Whole(periods, m)
    ensures WholeMonths(periods[k..]) && Months(periods[k..]) >= 1
    ensures var rows, q := Schedule(a, book, true, periods, posted), Level(a, book, periods, m);
      var i, before := FirstLow(Lead(a, book, periods, m), q, m), BookBefore(book, rows, k);
      var line := Line(a, before, periods[k..]);
      && q <= line <= q + 1 && (k < i ==> line == q + 1) && (k == i ==> line == q)
      && (k == i ==> before == FirstLowBook(a, book, periods, m))
      && BookBefore(book, rows, k + 1) <= before
  {
    hide Ups, Line, Schedule, Room, FirstLow, Level, Lead;
    var q, above := Level(a, book, periods, m), Room(a, book) * m % Months(periods);
    LevelIs(a, book, periods, m);
    LinesAre(a, book, periods, posted, m, q, above, k);
    BooksAre(a, book, periods, posted, m, q, above, k);
    UpsGrow(Lead(a, book, periods, m), q, m, k);
    assert k * (q + 1) == k * q + k;
  }

  lemma {:induction false} BooksFall(a: Asset, book: int, periods: seq<Period>, posted: map<nat, nat>, m: nat, j: nat,
                                     k: nat)
    requires a.life > 0 && Even(periods, m) && Unposted(periods, posted) && WholeMonths(periods) && Months(periods) > 0
    requires j <= k <= Whole(periods, m)
    ensures var rows := Schedule(a, book, true, periods, posted); BookBefore(book, rows, k) <= BookBefore(book, rows, j)
    decreases k - j
  {
    hide Line, Schedule, Room, FirstLow, Level, Lead;
    if j < k {
      WholeShare(a, book, periods, posted, m, k - 1);
      BooksFall(a, book, periods, posted, m, j, k - 1);
    }
  }

  /** Before the first low share every one is the level one and more; from it on the declining share only falls. */
  lemma WholeAhead(a: Asset, book: int, periods: seq<Period>, posted: map<nat, nat>, m: nat, k: nat)
    requires a.life > 0 && Even(periods, m) && Unposted(periods, posted) && WholeMonths(periods) && Months(periods) > 0
    requires k < Whole(periods, m)
    requires Line(a, book, periods) >= Declining(a, book, periods[0].months)
    ensures var rows, q := Schedule(a, book, true, periods, posted), Level(a, book, periods, m);
      var i := FirstLow(Lead(a, book, periods, m), q, m);
      && (k < i ==> Ahead(a, book, periods, rows, k))
      && (k == i ==> (Ahead(a, book, periods, rows, k) <==> Declining(a, FirstLowBook(a, book, periods, m), m) <= q))
      && (i < k && Declining(a, FirstLowBook(a, book, periods, m), m) <= q ==> Ahead(a, book, periods, rows, k))
      && Declining(a, BookBefore(book, rows, k), m) <= Line(a, BookBefore(book, rows, k), periods[k..]) + 1
  {
    hide Line, Schedule, Room, FirstLow, Level, Lead, Declining, FirstLowBook;
    var rows := Schedule(a, book, true, periods, posted);
    var i := FirstLow(Lead(a, book, periods, m), Level(a, book, periods, m), m);
    assert periods[0..] == periods && periods[0].months == m && periods[k].months == m;
    WholeShare(a, book, periods, posted, m, 0);
    WholeShare(a, book, periods, posted, m, k);
    BooksFall(a, book, periods, posted, m, 0, k);
    DecliningFalls(a, BookBefore(book, rows, k), book, m);
    if i < k {
      WholeShare(a, book, periods, posted, m, i);
      BooksFall(a, book, periods, posted, m, i, k);
      DecliningFalls(a, BookBefore(book, rows, k), BookBefore(book, rows, i), m);
    }
  }

  lemma LastAhead(a: Asset, book: int, periods: seq<Period>, posted: map<nat, nat>, m: nat)
    requires a.life > 0 && Even(periods, m) && Unposted(periods, posted) && WholeMonths(periods) && Months(periods) > 0
    requires Whole(periods, m) < |periods|
    ensures var rows, left := Schedule(a, book, true, periods, posted), LastBook(a, book, periods, m);
      var whole := Whole(periods, m);
      Ahead(a, book, periods, rows, whole) <==> Declining(a, left, periods[whole].months) <= Room(a, left)
  {
    hide Ups, Schedule, Room, Declining;
    var whole := Whole(periods, m);
    LevelIs(a, book, periods, m);
    BooksAre(a, book, periods, posted, m, Level(a, book, periods, m), Room(a, book) * m % Months(periods), whole);
    assert |periods[whole..]| == 1;
  }

  /**
   After a switch with nothing posted, the straight-line share stays the larger in every period left exactly when
   the state at the switch keeps it so; and while its periods are whole it is never behind by more than a cent.
   */
  lemma StaysLargerExactly(a: Asset, book: int, switched: bool, periods: seq<Period>, posted: map<nat, nat>, m: nat)
    requires a.life > 0 && Even(periods, m) && Unposted(periods, posted)
    requires WholeMonths(periods) && Months(periods) > 0 && Switches(a, book, switched, periods)
    ensures var rows := Schedule(a, book, switched, periods, posted);
      && (AllAhead(a, book, periods, rows) <==> Keeps(a, book, periods, m))
      && (Line(a, book, periods) >= Declining(a, book, periods[0].months) ==>
           forall k | 0 <= k < Whole(periods, m) ::
             Declining(a, BookBefore(book, rows, k), m) <= Line(a, BookBefore(book, rows, k), periods[k..]) + 1)
  {
    hide Line, Schedule, Room, FirstLow, Level, Lead, Declining, FirstLowBook, LastBook;
    StraightFrom(a, book, switched, periods, posted);
    var rows, whole := Schedule(a, book, true, periods, posted), Whole(periods, m);
    assert periods[0..] == periods;
    if AllAhead(a, book, periods, rows) {
      AheadKeeps(a, book, periods, posted, m);
    }
    if Line(a, book, periods) >= Declining(a, book, periods[0].months) {
      forall k | 0 <= k < whole
        ensures Declining(a, BookBefore(book, rows, k), m) <= Line(a, BookBefore(book, rows, k), periods[k..]) + 1
      {
        WholeAhead(a, book, periods, posted, m, k);
      }
    }
    if Keeps(a, book, periods, m) {
      forall k | 0 <= k < |periods| ensures Ahead(a, book, periods, rows, k) {
        KeepsAhead(a, book, periods, posted, m, k);
      }
    }
  }

  lemma AheadFirst(a: Asset, book: int, periods: seq<Period>, rows: seq<Row>)
    requires a.life > 0 && WholeMonths(periods) && periods != [] && |rows| == |periods| && Months(periods) > 0
    requires Ahead(a, book, periods, rows, 0)
    ensures Line(a, book, periods) >= Declining(a, book, periods[0].months)
  {
    assert periods[0..] == periods;
  }

  lemma AheadKeeps(a: Asset, book: int, periods: seq<Period>, posted: map<nat, nat>, m: nat)
    requires a.life > 0 && Even(periods, m) && Unposted(periods, posted) && WholeMonths(periods) && Months(periods) > 0
    requires AllAhead(a, book, periods, Schedule(a, book, true, periods, posted))
    ensures Keeps(a, book, periods, m)
  {
    hide Line, Schedule, Room, FirstLow, Level, Lead, Declining, FirstLowBook, LastBook, Ahead;
    var rows, whole := Schedule(a, book, true, periods, posted), Whole(periods, m);
    var i := FirstLow(Lead(a, book, periods, m), Level(a, book, periods, m), m);
    assert |rows| == |periods| >= 1;
    assert Ahead(a, book, periods, rows, 0);
    AheadFirst(a, book, periods, rows);
    if i < whole {
      WholeAhead(a, book, periods, posted, m, i);
      assert Ahead(a, book, periods, rows, i);
    }
    if whole < |periods| {
      LastAhead(a, book, periods, posted, m);
      assert Ahead(a, book, periods, rows, whole);
    }
  }

  lemma KeepsAhead(a: Asset, book: int, periods: seq<Period>, posted: map<nat, nat>, m: nat, k: nat)
    requires a.life > 0 && Even(periods, m) && Unposted(periods, posted) && WholeMonths(periods) && Months(periods) > 0
    requires Keeps(a, book, periods, m) && k < |periods|
    ensures Ahead(a, book, periods, Schedule(a, book, true, periods, posted), k)
  {
    hide Line, Schedule, Room, FirstLow, Level, Lead, Declining, FirstLowBook, LastBook, Ahead;
    if k < Whole(periods, m) {
      WholeAhead(a, book, periods, posted, m, k);
    } else {
      LastAhead(a, book, periods, posted, m);
    }
  }

  /** A schedule that switches at once is a switched one. */
  lemma StraightFrom(a: Asset, book: int, switched: bool, periods: seq<Period>, posted: map<nat, nat>)
    requires a.life > 0 && WholeMonths(periods) && periods != [] && Months(periods) > 0
        && Switches(a, book, switched, periods)
    ensures Schedule(a, book, switched, periods, posted) == Schedule(a, book, true, periods, posted)
  {
    hide Line, Declining;
    assert First(a, book, switched, periods, posted) == First(a, book, true, periods, posted);
  }

  // ---------------------------------------------------------------- in a whole schedule

  /** What is left of a life's periods is whole but for the last. */
  lemma EvenFrom(life: nat, step: nat, j: nat)
    requires step >= 1 && j < |PeriodsFrom(0, 1, life, step)|
    ensures var periods := PeriodsFrom(0, 1, life, step); WholeMonths(periods) && Even(periods[j..], step)
  {
    hide PeriodsFrom;
    PeriodsPartition(0, 1, life, step);
  }

  /** Had the schedule switched before the k-th period? */
  function SwitchedBefore(switched: bool, rows: seq<Row>, k: nat): bool
    requires k <= |rows|
  {
    if k == 0 then switched else rows[k - 1].straight
  }

  /** The rest of a schedule is the schedule of the rest. */
  lemma {:induction false} ScheduleRest(a: Asset, book: int, switched: bool, periods: seq<Period>, posted: map<nat,
                                        nat>, j: nat)
    requires a.life > 0 && WholeMonths(periods) && j < |periods|
    ensures WholeMonths(periods[j..]) && Months(periods[j..]) >= 1
    ensures var rows := Schedule(a, book, switched, periods, posted);
      var before, already := BookBefore(book, rows, j), SwitchedBefore(switched, rows, j);
      && rows[j..] == Schedule(a, before, already, periods[j..], posted)
      && (rows[j].straight <==> Switches(a, before, already, periods[j..]))
    decreases j
  {
    hide Line, Declining, Switches, Computed;
    SomeMonths(periods[j..]);
    var rows, row := Schedule(a, book, switched, periods, posted), First(a, book, switched, periods, posted);
    if j == 0 {
      assert periods[0..] == periods && rows[0..] == rows;
    } else {
      ScheduleRest(a, row.book, row.straight, periods[1..], posted, j - 1);
      assert periods[1..][j - 1..] == periods[j..] && rows[1..][j - 1..] == rows[j..];
      assert rows[j] == rows[1..][j - 1];
      if j > 1 { assert rows[j - 1] == rows[1..][j - 2]; }
    }
  }

  lemma AheadRest(a: Asset, book: int, periods: seq<Period>, rows: seq<Row>, j: nat, k: nat)
    requires a.life > 0 && WholeMonths(periods) && j <= k < |periods| == |rows|
    ensures WholeMonths(periods[j..])
    ensures Ahead(a, BookBefore(book, rows, j), periods[j..], rows[j..], k - j) <==> Ahead(a, book, periods, rows, k)
  {
    hide Line, Declining;
    assert periods[j..][k - j..] == periods[k..];
    assert BookBefore(BookBefore(book, rows, j), rows[j..], k - j) == BookBefore(book, rows, k);
  }

  /**
   In any schedule of monthly or yearly periods, from any period on that is already straight line and with
   nothing posted from there: the straight-line share stays the larger exactly when the state there keeps it so.
   */
  lemma SwitchKeptExactly(a: Asset, step: nat, posted: map<nat, nat>, j: nat)
    requires a.life > 0 && step >= 1 && j < |PeriodsFrom(0, 1, a.life, step)|
    ensures WholeMonths(PeriodsFrom(0, 1, a.life, step))
    ensures var periods := PeriodsFrom(0, 1, a.life, step);
      var rows := Depreciated(a, periods, posted);
      rows[j].straight && Unposted(periods[j..], posted) ==>
        Even(periods[j..], step) && Months(periods[j..]) > 0
        && ((forall k | j <= k < |rows| :: Ahead(a, a.cost, periods, rows, k))
            <==> Keeps(a, BookBefore(a.cost, rows, j), periods[j..], step))
  {
    hide Line, Declining, Switches, Schedule, PeriodsFrom, Keeps, Ahead;
    EvenFrom(a.life, step, j);
    var periods := PeriodsFrom(0, 1, a.life, step);
    var rows := Depreciated(a, periods, posted);
    var before, already := BookBefore(a.cost, rows, j), SwitchedBefore(a.plan.StraightLine?, rows, j);
    ScheduleRest(a, a.cost, a.plan.StraightLine?, periods, posted, j);
    if rows[j].straight && Unposted(periods[j..], posted) {
      StaysLargerExactly(a, before, already, periods[j..], posted, step);
      forall k | j <= k < |rows|
        ensures Ahead(a, before, periods[j..], rows[j..], k - j) <==> Ahead(a, a.cost, periods, rows, k)
      {
        AheadRest(a, a.cost, periods, rows, j, k);
      }
      if AllAhead(a, before, periods[j..], rows[j..]) {
        forall k | j <= k < |rows| ensures Ahead(a, a.cost, periods, rows, k) {
          assert Ahead(a, before, periods[j..], rows[j..], k - j);
        }
      }
      if forall k | j <= k < |rows| :: Ahead(a, a.cost, periods, rows, k) {
        forall k | 0 <= k < |periods[j..]| ensures Ahead(a, before, periods[j..], rows[j..], k) {
          assert Ahead(a, a.cost, periods, rows, j + k);
        }
      }
    }
  }

  /** The first month whose share is only the level one: shares of a room over n months are rounded half to even. */
  function FirstLowMonth(room: nat, n: nat): nat
    requires n >= 1
  {
    var q, r := room / n, room % n;
    if 2 * r < n then 0 else if q % 2 == 0 then 2 * r - n else 2 * r - n + 1
  }

  /** For months the condition is one comparison beside the first: the declining share in that month is at most q. */
  lemma MonthlyCondition(a: Asset, book: int, periods: seq<Period>)
    requires a.life > 0 && Monthly(periods) && periods != []
    ensures Even(periods, 1) && Months(periods) == |periods| && FirstLowMonth(Room(a, book), |periods|) < |periods|
    ensures var n, room := |periods|, Room(a, book);
      var q, i := room / n, FirstLowMonth(room, n);
      Keeps(a, book, periods, 1) <==>
        Line(a, book, periods) >= Declining(a, book, 1) && Declining(a, book - i * (q + 1), 1) <= q
  {
    hide Declining, Line, Room, FirstLow, FirstLowMonth, Level, Lead;
    MonthsMonthly(periods);
    MonthlyLevel(a, book, periods);
    assert Whole(periods, 1) == |periods|;
  }

  lemma MonthlyLevel(a: Asset, book: int, periods: seq<Period>)
    requires Months(periods) == |periods| >= 1
    ensures var n, room := |periods|, Room(a, book);
      && Level(a, book, periods, 1) == room / n
      && FirstLow(Lead(a, book, periods, 1), room / n, 1) == FirstLowMonth(room, n) < n
  {
    hide Room, FirstLow;
    var n, room := |periods|, Room(a, book);
    assert room * 1 == room;
    assert room % n < n;
    MonthlyLow(2 * (room % n) - n, room / n);
  }

  lemma MonthlyLow(lead: int, q: nat)
    ensures FirstLow(lead, q, 1) == if lead < 0 then 0 else if q % 2 == 0 then lead else lead + 1
  {
    hide RunLength;
    var t: int := if q % 2 == 0 then lead else lead + 1;
    if Up(lead, q) { TurnsOnce(lead, q, 1, t); }
  }

  /**
   It need not: two cents over three months at 200 percent switch in the first month, and in the second the
   straight-line share rounds to nothing while the declining one would round to a cent.
   */
  lemma RoundedShareFallsBehind()
    ensures var a := Asset(2, 0, DecliningBalance(200), 3);
      var periods := [Period(1, 0, 1), Period(2, 1, 1), Period(3, 2, 1)];
      && Months(periods) == 3 && Months(periods[1..]) == 2
      && Switches(a, 2, false, periods) && Computed(a, 2, false, periods) == 1
      && Line(a, 1, periods[1..]) == 0 && Declining(a, 1, 1) == 1
  {
    var periods := [Period(1, 0, 1), Period(2, 1, 1), Period(3, 2, 1)];
    assert periods[1..] == [Period(2, 1, 1), Period(3, 2, 1)];
    assert periods[1..][1..] == [Period(3, 2, 1)];
    assert Months([Period(3, 2, 1)]) == 1;
  }

  /** The condition says so from the state at the switch: the first low month is the second, with one cent left. */
  lemma FallsBehindForeseen()
    ensures var a := Asset(2, 0, DecliningBalance(200), 3);
      var periods := [Period(1, 0, 1), Period(2, 1, 1), Period(3, 2, 1)];
      && Even(periods, 1) && Months(periods) == 3 && FirstLowMonth(Room(a, 2), 3) == 1 && !Keeps(a, 2, periods, 1)
  {
    hide Keeps, Line, Even, FirstLowMonth, Declining;
    var a := Asset(2, 0, DecliningBalance(200), 3);
    var periods := [Period(1, 0, 1), Period(2, 1, 1), Period(3, 2, 1)];
    RoundedShareFallsBehind();
    assert FirstLowMonth(2, 3) == 1 by { LowMonthOfTwo(); }
    MonthlyCondition(a, 2, periods);
  }

  lemma LowMonthOfTwo()
    ensures FirstLowMonth(2, 3) == 1
  {
  }
}
