/** Loan amortization: the remaining schedule, payments with extra principal, and the exact level payment. */
module Loans {
  import opened Options
  import opened Rounding
  import opened LevelPayments

  const GUARD := 12 * 400

  datatype Terms = Terms(payment: nat, rate: nat, perYear: nat, term: nat, balloon: nat)

  datatype Row = Row(number: nat, principal: nat, interest: nat, balance: nat)

  datatype Trouble = Uncovered | Endless

  predicate Proper(t: Terms) { t.perYear > 0 }

  function Interest(t: Terms, balance: nat): nat
    requires Proper(t)
  {
    Nearest(balance * t.rate, Scale(t.perYear))
  }

  /**
   The principal a scheduled payment carries: the rest of the payment, or all that is left when it would
   overshoot or is the last.
   */
  function Principal(t: Terms, balance: nat, number: nat): int
    requires Proper(t)
  {
    var principal := t.payment - Interest(t, balance);
    if number >= t.term || principal >= balance then balance else principal
  }

  /** Scheduled payments from a number on until the balance is paid. */
  function Remaining(t: Terms, balance: nat, number: nat): Result<seq<Row>, Trouble>
    requires Proper(t)
    decreases balance
  {
    if balance == 0 then Ok([])
    else
      var principal := Principal(t, balance, number);
      if principal <= 0 then Err(Uncovered)
      else if number + 1 > t.term + GUARD then Err(Endless)
      else
        Prefixed([Row(number, principal, Interest(t, balance), balance - principal)],
                 Remaining(t, balance - principal, number + 1))
  }

  /** The loop that draws the schedule up. */
  method RemainingRows(t: Terms, start: nat, first: nat) returns (r: Result<seq<Row>, Trouble>)
    requires Proper(t)
    ensures r == Remaining(t, start, first)
  {
    hide Interest;
    var balance: nat, number: nat := start, first;
    var out: seq<Row> := [];
    ghost var rest := Remaining(t, start, first);
    if rest.Ok? { assert out + rest.value == rest.value; }
    while balance > 0
      invariant rest == Remaining(t, balance, number)
      invariant Remaining(t, start, first) == Prefixed(out, rest)
      decreases balance
    {
      var owed := Interest(t, balance);
      var principal: int := t.payment - owed;
      if number >= t.term || principal >= balance {
        principal := balance;
      } else if principal <= 0 {
        return Err(Uncovered);
      }
      var row := Row(number, principal, owed, balance - principal);
      rest := Remaining(t, balance - principal, number + 1);
      PrefixedTwice(out, [row], rest);
      balance := balance - principal;
      number := number + 1;
      if number > t.term + GUARD { return Err(Endless); }
      out := out + [row];
    }
    assert out + [] == out;
    return Ok(out);
  }

  lemma PrefixedTwice(a: seq<Row>, b: seq<Row>, rest: Result<seq<Row>, Trouble>)
    ensures Prefixed(a, Prefixed(b, rest)) == Prefixed(a + b, rest)
  {
    if rest.Ok? { assert a + (b + rest.value) == (a + b) + rest.value; }
  }

  /** Rows put in front of a schedule. */
  function Prefixed(rows: seq<Row>, rest: Result<seq<Row>, Trouble>): Result<seq<Row>, Trouble> {
    if rest.Err? then rest else Ok(rows + rest.value)
  }

  // ---------------------------------------------------------------- what a schedule comes to

  function Total(rows: seq<Row>): nat { if rows == [] then 0 else rows[0].principal + Total(rows[1..]) }

  lemma InterestMonotone(t: Terms, low: nat, high: nat)
    requires Proper(t) && low <= high
    ensures Interest(t, low) <= Interest(t, high)
  {
    hide Nearest;
    assert low * t.rate <= high * t.rate;
    NearestMonotone(low * t.rate, high * t.rate, Scale(t.perYear));
  }

  /** A row's interest is the balance before it times the periodic rate, to the nearest minor unit, ties to even. */
  lemma InterestHalfEven(t: Terms, balance: nat)
    requires Proper(t)
    ensures HalfEven(balance * t.rate, Scale(t.perYear), Interest(t, balance))
  {
    hide Nearest;
    NearestHalfEven(balance * t.rate, Scale(t.perYear));
  }

  /** The balance before a row. */
  function Before(balance: nat, rows: seq<Row>, i: nat): nat
    requires i < |rows|
  {
    if i == 0 then balance else rows[i - 1].balance
  }

  /**
   A row pays part of the balance before it, its interest is on that balance, and every row but the last is one
   level payment.
   */
  ghost predicate RowFits(t: Terms, balance: nat, number: nat, rows: seq<Row>, i: nat)
    requires Proper(t) && i < |rows|
  {
    && rows[i].number == number + i
    && rows[i].balance + rows[i].principal == Before(balance, rows, i) && rows[i].principal > 0
    && rows[i].interest == Interest(t, Before(balance, rows, i))
    && (i < |rows| - 1 ==> rows[i].principal + rows[i].interest == t.payment && rows[i].number < t.term)
  }

  /**
   A schedule pays the balance off exactly: principal parts add up to it, the balance falls strictly to zero,
   each row's interest is on the balance before it, every row but the last is one level payment, and the last
   is the one that pays all that is left.
   */
  lemma {:induction false} PaysOff(t: Terms, balance: nat, number: nat)
    requires Proper(t) && Remaining(t, balance, number).Ok?
    ensures var rows := Remaining(t, balance, number).value;
      && Total(rows) == balance
      && (rows == [] <==> balance == 0)
      && (rows != [] ==> rows[|rows| - 1].balance == 0)
      && forall i | 0 <= i < |rows| :: RowFits(t, balance, number, rows, i)
    decreases balance
  {
    hide Interest;
    if balance > 0 {
      var principal := Principal(t, balance, number);
      PaysOff(t, balance - principal, number + 1);
      var rows, rest := Remaining(t, balance, number).value, Remaining(t, balance - principal, number + 1).value;
      assert rows[1..] == rest;
      forall i | 1 <= i < |rows| ensures RowFits(t, balance, number, rows, i) {
        RowsOn(t, balance, number, rows, rest, i);
      }
      assert RowFits(t, balance, number, rows, 0);
    }
  }

  lemma RowsOn(t: Terms, balance: nat, number: nat, rows: seq<Row>, rest: seq<Row>, i: nat)
    requires Proper(t) && 1 <= i < |rows| && rows[1..] == rest
    requires RowFits(t, rows[0].balance, number + 1, rest, i - 1)
    ensures RowFits(t, balance, number, rows, i)
  {
    hide Interest;
    assert rows[i] == rest[i - 1] && Before(balance, rows, i) == Before(rows[0].balance, rest, i - 1);
  }

  /** The schedule ends by the last scheduled payment, or at once when that has passed. */
  lemma {:induction false} EndsByTerm(t: Terms, balance: nat, number: nat)
    requires Proper(t) && Remaining(t, balance, number).Ok?
    ensures |Remaining(t, balance, number).value| <= if number < t.term then t.term - number + 1 else 1
    decreases balance
  {
    hide Interest;
    if balance > 0 { EndsByTerm(t, balance - Principal(t, balance, number), number + 1); }
  }

  /**
   Exactly which schedules are refused: a payment that does not cover the first row's interest, unless that
   row is the last; and, past the guard, any balance at all.
   */
  lemma {:induction false} RefusedExactly(t: Terms, balance: nat, number: nat)
    requires Proper(t)
    ensures Remaining(t, balance, number) == Err(Uncovered)
        <==> balance > 0 && number < t.term && t.payment <= Interest(t, balance)
    ensures Remaining(t, balance, number) == Err(Endless) <==> balance > 0 && number >= t.term + GUARD
    decreases balance
  {
    hide Interest;
    if balance > 0 {
      var principal := Principal(t, balance, number);
      if principal > 0 {
        RefusedExactly(t, balance - principal, number + 1);
        InterestMonotone(t, balance - principal, balance);
      }
    }
  }

  // ---------------------------------------------------------------- extra principal

  lemma PrincipalStep(t: Terms, low: nat, high: nat, number: nat)
    requires Proper(t) && low <= high
    requires Principal(t, high, number) > 0
    ensures 0 <= Principal(t, low, number) <= low && (low > 0 ==> Principal(t, low, number) > 0)
    ensures low - Principal(t, low, number) <= high - Principal(t, high, number)
  {
    hide Interest;
    InterestMonotone(t, low, high);
  }

  /** From a lower balance the same payment gives a schedule that is nowhere higher and no longer. */
  lemma {:induction false} LowerBalance(t: Terms, low: nat, high: nat, number: nat)
    requires Proper(t) && low <= high && Remaining(t, high, number).Ok?
    ensures Remaining(t, low, number).Ok?
    ensures var a, b := Remaining(t, low, number).value, Remaining(t, high, number).value;
      |a| <= |b| && forall i | 0 <= i < |a| :: a[i].balance <= b[i].balance
    decreases high
  {
    hide Principal;
    if low > 0 {
      PrincipalStep(t, low, high, number);
      WithinBalance(t, high, number);
      var p, q := Principal(t, low, number), Principal(t, high, number);
      LowerBalance(t, low - p, high - q, number + 1);
      var a, b := Remaining(t, low, number).value, Remaining(t, high, number).value;
      assert a[1..] == Remaining(t, low - p, number + 1).value && b[1..] == Remaining(t, high - q, number + 1).value;
      forall i | 1 <= i < |a| ensures a[i].balance <= b[i].balance {
        assert a[i] == a[1..][i - 1] && b[i] == b[1..][i - 1];
      }
    }
  }

  lemma WithinBalance(t: Terms, balance: nat, number: nat)
    requires Proper(t)
    ensures Principal(t, balance, number) <= balance
  {
    hide Interest;
  }

  // ---------------------------------------------------------------- the loan's payments

  /** A standing payment; extra principal paid alone carries no number. */
  datatype Payment = Payment(number: Option<nat>, principal: nat, interest: nat)

  datatype Refusal = PaidOff | NotCovered | TooMuch | NothingExtra | NothingPaid | NoSuchPayment

  function Paid(payments: seq<Payment>): nat {
    if payments == [] then 0 else Paid(payments[..|payments| - 1]) + payments[|payments| - 1].principal
  }

  /** The highest payment number standing, or zero. */
  function Highest(payments: seq<Payment>): nat {
    if payments == [] then 0
    else
      var before, last := Highest(payments[..|payments| - 1]), payments[|payments| - 1].number;
      if last.Some? && last.value > before then last.value else before
  }

  /** A loan: what it runs on now, what was borrowed, and the payments standing. */
  datatype Account = Account(terms: Terms, borrowed: nat, payments: seq<Payment>)

  datatype Event =
    | PayScheduled(extra: nat)
    | PayExtra(extra: nat)
    | Void(index: nat)
    | Revise(rate: Option<nat>, payment: Option<nat>)

  function Owed(a: Account): int { a.borrowed - Paid(a.payments) }

  /** The payments left, drawn up for these terms. */
  function Left(a: Account, t: Terms): Result<seq<Row>, Trouble>
    requires Proper(t)
  {
    Remaining(t, if Owed(a) > 0 then Owed(a) else 0, Highest(a.payments) + 1)
  }

  /** The scheduled payments left. */
  function PaymentsLeft(a: Account): int { a.terms.term - Highest(a.payments) }

  /**
   The level payment that would bring what is owed to the balloon, or to itself when less is owed, over the
   payments left.
   */
  function WorkedOut(a: Account, rate: nat): (payment: nat)
    requires Proper(a.terms)
  {
    if Owed(a) > 0 && PaymentsLeft(a) > 0 then
      var balloon := if a.terms.balloon < Owed(a) then a.terms.balloon else Owed(a);
      AtLeastInterest(Owed(a), rate, a.terms.perYear, PaymentsLeft(a), balloon);
      LevelMinor(Owed(a), rate, a.terms.perYear, PaymentsLeft(a), balloon)
    else a.terms.payment
  }

  /**
   A new rate without a payment has the payment worked out, once the payments left have been drawn up as they
   were.
   */
  function Revised(a: Account, rate: Option<nat>, payment: Option<nat>): Result<Terms, Refusal>
    requires Proper(a.terms)
  {
    var next := rate.UnwrapOr(a.terms.rate);
    if payment.Some? then
      if payment.value == 0 then Err(NothingPaid) else Ok(a.terms.(rate := next, payment := payment.value))
    else if next == a.terms.rate then Ok(a.terms)
    else if Left(a, a.terms).Err? then Err(NotCovered)
    else Ok(a.terms.(rate := next, payment := WorkedOut(a, next)))
  }

  /** One payment, voiding or revision; a refused one changes nothing. */
  function Attempt(a: Account, e: Event): Result<Account, Refusal>
    requires Proper(a.terms)
  {
    if e.Void? then
      if e.index < |a.payments| then Ok(a.(payments := a.payments[..e.index] + a.payments[e.index + 1..]))
        else Err(NoSuchPayment)
    else if e.Revise? then
      var revised := Revised(a, e.rate, e.payment);
      if revised.Err? then Err(revised.error)
      else if Left(a, revised.value).Err? then Err(NotCovered)
      else Ok(a.(terms := revised.value))
    else
      var rows := Left(a, a.terms);
      if rows.Err? then Err(NotCovered)
      else if Owed(a) <= 0 then Err(PaidOff)
      else if e.PayExtra? then
        if e.extra == 0 then Err(NothingExtra)
        else if e.extra > Owed(a) then Err(TooMuch)
        else Ok(a.(payments := a.payments + [Payment(None, e.extra, 0)]))
      else
        PaysOff(a.terms, Owed(a), Highest(a.payments) + 1);
        var due := rows.value[0];
        if due.principal + e.extra > Owed(a) then Err(TooMuch)
        else Ok(a.(payments := a.payments + [Payment(Some(due.number), due.principal + e.extra, due.interest)]))
  }

  function Step(a: Account, e: Event): (r: Account)
    requires Proper(a.terms)
    ensures Proper(r.terms) && r.borrowed == a.borrowed
  {
    var r := Attempt(a, e);
    if r.Ok? then r.value else a
  }

  function Run(a: Account, events: seq<Event>): (r: Account)
    requires Proper(a.terms)
    ensures Proper(r.terms) && r.borrowed == a.borrowed
    decreases |events|
  {
    if events == [] then a else Run(Step(a, events[0]), events[1..])
  }

  /** No more was paid than was borrowed, and no two standing payments share a number. */
  ghost predicate Sound(a: Account) {
    && Proper(a.terms) && Paid(a.payments) <= a.borrowed
    && forall i, j | 0 <= i < j < |a.payments| ::
         a.payments[i].number.Some? ==> a.payments[i].number != a.payments[j].number
  }

  lemma {:induction false} PaidSplit(a: seq<Payment>, b: seq<Payment>)
    ensures Paid(a + b) == Paid(a) + Paid(b)
  {
    if b == [] {
      assert a + b == a;
    } else {
      PaidSplit(a, b[..|b| - 1]);
      assert (a + b)[..|a + b| - 1] == a + b[..|b| - 1];
    }
  }

  lemma {:induction false} HighestIs(payments: seq<Payment>)
    ensures forall i | 0 <= i < |payments| && payments[i].number.Some? :: payments[i].number.value <= Highest(payments)
  {
    if payments != [] { HighestIs(payments[..|payments| - 1]); }
  }

  lemma OneMore(payments: seq<Payment>, p: Payment)
    ensures Paid(payments + [p]) == Paid(payments) + p.principal
    ensures Highest(payments + [p]) ==
      if p.number.Some? && p.number.value > Highest(payments) then p.number.value else Highest(payments)
  {
    assert (payments + [p])[..|payments|] == payments;
  }

  lemma VoidPaid(payments: seq<Payment>, index: nat)
    requires index < |payments|
    ensures Paid(payments[..index] + payments[index + 1..]) == Paid(payments) - payments[index].principal
  {
    hide Paid, Highest;
    var a, b := payments[..index], payments[index + 1..];
    PaidSplit(a, b);
    PaidSplit(a + [payments[index]], b);
    OneMore(a, payments[index]);
    assert payments == a + [payments[index]] + b;
  }

  /** What an accepted payment appends: no more than is owed, under a number no standing payment has. */
  lemma PayParts(a: Account, e: Event) returns (p: Payment)
    requires Proper(a.terms) && (e.PayScheduled? || e.PayExtra?) && Attempt(a, e).Ok?
    ensures Step(a, e) == a.(payments := a.payments + [p]) && p.principal <= Owed(a)
    ensures p.number.Some? ==> p.number.value == Highest(a.payments) + 1
    ensures e.PayExtra? ==> p == Payment(None, e.extra, 0)
    ensures e.PayScheduled? ==>
      var balance, next := Owed(a), Highest(a.payments) + 1;
      && balance > 0 && Remaining(a.terms, balance, next).Ok?
      && p == Payment(Some(next), Principal(a.terms, balance, next) + e.extra, Interest(a.terms, balance))
      && 0 < Principal(a.terms, balance, next) <= balance
  {
    hide Interest, Principal, Paid, Highest;
    WithinBalance(a.terms, if Owed(a) > 0 then Owed(a) else 0, Highest(a.payments) + 1);
    p := Step(a, e).payments[|a.payments|];
  }

  lemma {:induction false} StepSound(a: Account, e: Event)
    requires Sound(a)
    ensures Sound(Step(a, e))
  {
    hide Left, Paid, Highest;
    if Attempt(a, e).Ok? {
      if e.Void? {
        VoidPaid(a.payments, e.index);
      } else if !e.Revise? {
        PaidSound(a, e);
      }
    }
  }

  lemma PaidSound(a: Account, e: Event)
    requires Sound(a) && (e.PayScheduled? || e.PayExtra?) && Attempt(a, e).Ok?
    ensures Sound(Step(a, e))
  {
    hide Attempt, Step, Paid, Highest;
    var p := PayParts(a, e);
    OneMore(a.payments, p);
    HighestIs(a.payments);
  }

  /**
   Over any run of payments, extra payments, voidings and revisions, what was paid and what is owed add up to
   what was borrowed.
   */
  lemma {:induction false} RunSound(a: Account, events: seq<Event>)
    requires Sound(a)
    ensures Sound(Run(a, events)) && Paid(Run(a, events).payments) + Owed(Run(a, events)) == a.borrowed
    decreases |events|
  {
    hide Sound, Step, Paid;
    if events != [] {
      SoundProper(a);
      StepSound(a, events[0]);
      RunSound(Step(a, events[0]), events[1..]);
    }
  }

  lemma SoundProper(a: Account)
    requires Sound(a)
    ensures Proper(a.terms)
  {
  }

  lemma AfterFirst(t: Terms, balance: nat, number: nat)
    requires Proper(t) && balance > 0 && Remaining(t, balance, number).Ok?
    ensures 0 < Principal(t, balance, number) <= balance
    ensures Remaining(t, balance - Principal(t, balance, number), number + 1).Ok?
  {
    hide Interest;
  }

  /** Whenever a payment with extra principal is accepted, so is the same payment without. */
  lemma ScheduledAlone(a: Account, extra: nat)
    requires Proper(a.terms) && Attempt(a, PayScheduled(extra)).Ok?
    ensures Attempt(a, PayScheduled(0)).Ok?
  {
    hide Interest, Principal, Remaining, Paid, Highest;
  }

  /** A schedule nowhere higher and no longer. */
  ghost predicate Shorter(x: Result<seq<Row>, Trouble>, y: Result<seq<Row>, Trouble>) {
    && x.Ok? && y.Ok? && |x.value| <= |y.value|
    && forall i | 0 <= i < |x.value| :: x.value[i].balance <= y.value[i].balance
  }

  /**
   A payment with extra principal leaves a schedule of the same payment that is nowhere higher and no longer
   than without.
   */
  lemma ExtraShortens(a: Account, extra: nat)
    requires Sound(a) && Attempt(a, PayScheduled(extra)).Ok?
    ensures Attempt(a, PayScheduled(0)).Ok?
    ensures var with, without := Step(a, PayScheduled(extra)), Step(a, PayScheduled(0));
      Owed(with) == Owed(without) - extra >= 0 && Shorter(Left(with, a.terms), Left(without, a.terms))
  {
    hide Interest, Principal, Remaining, Paid, Highest, Attempt, Step;
    var balance, next := Owed(a), Highest(a.payments) + 1;
    ScheduledAlone(a, extra);
    var p := PayParts(a, PayScheduled(extra));
    var q := PayParts(a, PayScheduled(0));
    OneMore(a.payments, p);
    OneMore(a.payments, q);
    AfterFirst(a.terms, balance, next);
    LowerBalance(a.terms, balance - p.principal, balance - q.principal, next + 1);
  }

  /** Scheduled payments with these extras, one after the other, each of them accepted. */
  function PayAll(a: Account, extras: seq<nat>): Result<Account, Refusal>
    requires Proper(a.terms)
    decreases |extras|
  {
    if extras == [] then Ok(a)
    else
      var r := Attempt(a, PayScheduled(extras[0]));
      if r.Err? then r else PayAll(r.value, extras[1..])
  }

  /** After the same number of payments, each with at least as much extra, no more is owed. */
  lemma {:induction false} MoreExtraLower(a: Account, b: Account, more: seq<nat>, less: seq<nat>)
    requires Sound(a) && Sound(b) && a.terms == b.terms && Owed(a) <= Owed(b)
        && Highest(a.payments) == Highest(b.payments)
    requires |more| == |less| && forall i | 0 <= i < |more| :: more[i] >= less[i]
    requires PayAll(a, more).Ok? && PayAll(b, less).Ok?
    ensures 0 <= Owed(PayAll(a, more).value) <= Owed(PayAll(b, less).value)
    decreases |more|
  {
    hide Principal, Interest, Remaining, Attempt, Paid, Highest, Left;
    if more == [] {
      OwedNothingLess(a);
    } else {
      var c, d := Step(a, PayScheduled(more[0])), Step(b, PayScheduled(less[0]));
      PayOnce(a, more[0]);
      PayOnce(b, less[0]);
      PrincipalStep(a.terms, Owed(a), Owed(b), Highest(a.payments) + 1);
      MoreExtraLower(c, d, more[1..], less[1..]);
    }
  }

  lemma OwedNothingLess(a: Account)
    requires Sound(a)
    ensures Owed(a) >= 0
  {
  }

  lemma PayOnce(a: Account, extra: nat)
    requires Sound(a) && Attempt(a, PayScheduled(extra)).Ok?
    ensures var c, next := Step(a, PayScheduled(extra)), Highest(a.payments) + 1;
      && Attempt(a, PayScheduled(extra)).value == c && Sound(c) && c.terms == a.terms && Highest(c.payments) == next
      && Owed(a) > 0 && Principal(a.terms, Owed(a), next) > 0
      && Owed(c) == Owed(a) - Principal(a.terms, Owed(a), next) - extra
  {
    hide Principal, Interest, Remaining, Sound, Paid, Highest, Attempt;
    SoundProper(a);
    StepSound(a, PayScheduled(extra));
    var p := PayParts(a, PayScheduled(extra));
    OneMore(a.payments, p);
  }

  // ---------------------------------------------------------------- what an accepted command leaves

  /** The highest number is that of some standing payment, and none is above it. */
  lemma {:induction false} HighestExactly(payments: seq<Payment>)
    ensures forall i | 0 <= i < |payments| && payments[i].number.Some? :: payments[i].number.value <= Highest(payments)
    ensures Highest(payments) == 0
         || exists i | 0 <= i < |payments| :: payments[i].number == Some(Highest(payments))
  {
    HighestIs(payments);
    if payments != [] && Highest(payments) != 0 {
      var front := payments[..|payments| - 1];
      HighestExactly(front);
      if Highest(payments) == Highest(front) {
        var i :| 0 <= i < |front| && front[i].number == Some(Highest(front));
        assert payments[i].number == Some(Highest(payments));
      } else {
        assert payments[|payments| - 1].number == Some(Highest(payments));
      }
    }
  }

  /**
   A scheduled payment is accepted exactly when the payments left can be drawn up, something is owed and the extra is no
   more than the scheduled principal leaves; it appends one payment under the next number: its interest that on what is
   owed, its principal the rest of the payment, or all that is owed when that is less or it is the last, and the extra.
   */
  lemma PayExactly(a: Account, extra: nat)
    requires Proper(a.terms)
    ensures var r, owed, next := Attempt(a, PayScheduled(extra)), Owed(a), Highest(a.payments) + 1;
      && (r.Ok? ==> owed > 0 && Remaining(a.terms, owed, next).Ok?)
      && (owed > 0 && Remaining(a.terms, owed, next).Ok? ==>
            var interest := Nearest(owed * a.terms.rate, Scale(a.terms.perYear));
            var rest := a.terms.payment - interest;
            var principal: int := if next >= a.terms.term || rest >= owed then owed else rest;
            && (r.Ok? <==> principal + extra <= owed)
            && principal >= 0
            && (r.Ok? ==> r.value == a.(payments := a.payments + [Payment(Some(next), principal + extra, interest)])))
  {
    hide Remaining, Paid, Highest, Nearest;
    if Owed(a) > 0 && Remaining(a.terms, Owed(a), Highest(a.payments) + 1).Ok? {
      FirstRow(a.terms, Owed(a), Highest(a.payments) + 1);
      AfterFirst(a.terms, Owed(a), Highest(a.payments) + 1);
      PaysOff(a.terms, Owed(a), Highest(a.payments) + 1);
    }
  }

  /**
   Extra principal alone is accepted exactly above nothing and up to what is owed, and is one payment without a
   number.
   */
  lemma PayExtraExactly(a: Account, extra: nat)
    requires Proper(a.terms)
    ensures var r, owed := Attempt(a, PayExtra(extra)), Owed(a);
      && (r.Ok? <==> 0 < extra <= owed && Remaining(a.terms, owed, Highest(a.payments) + 1).Ok?)
      && (r.Ok? ==> r.value == a.(payments := a.payments + [Payment(None, extra, 0)]))
  {
    hide Remaining, Paid, Highest;
  }

  /** A voiding takes exactly the payment named. */
  lemma VoidExactly(a: Account, index: nat)
    requires Proper(a.terms)
    ensures var r := Attempt(a, Void(index));
      && (r.Ok? <==> index < |a.payments|)
      && (r.Ok? ==>
            var left := r.value.payments;
            && r.value == a.(payments := left) && |left| == |a.payments| - 1
            && forall i | 0 <= i < |left| :: left[i] == a.payments[if i < index then i else i + 1])
  {
  }

  /**
   An accepted revision leaves the rate asked for, or the one there was; the payment given, or for another rate the
   level payment over the payments left, or the one there was; and every other term and every payment as they were.
   */
  lemma ReviseTerms(a: Account, rate: Option<nat>, payment: Option<nat>)
    requires Proper(a.terms) && Attempt(a, Revise(rate, payment)).Ok?
    ensures var r, owed, left := Attempt(a, Revise(rate, payment)).value, Owed(a), PaymentsLeft(a);
      && r == a.(terms := a.terms.(rate := r.terms.rate, payment := r.terms.payment))
      && (rate.Some? ==> r.terms.rate == rate.value) && (rate.None? ==> r.terms.rate == a.terms.rate)
      && (payment.Some? ==> payment.value > 0 && r.terms.payment == payment.value)
      && (payment.None? && r.terms.rate == a.terms.rate ==> r.terms.payment == a.terms.payment)
      && (payment.None? && r.terms.rate != a.terms.rate && !(owed > 0 && left > 0) ==>
        r.terms.payment == a.terms.payment)
      && (payment.None? && r.terms.rate != a.terms.rate && owed > 0 && left > 0 ==>
            r.terms.payment == LevelMinor(owed, r.terms.rate, a.terms.perYear, left,
                                          if a.terms.balloon < owed then a.terms.balloon else owed))
  {
    hide Remaining, Paid, Highest, LevelMinor;
  }

  /** A payment given is refused exactly as nothing, or where the payments left cannot be drawn up with it. */
  lemma GivenRefusedExactly(a: Account, rate: Option<nat>, payment: nat)
    requires Sound(a)
    ensures var t := a.terms.(rate := if rate.Some? then rate.value else a.terms.rate, payment := payment);
      Attempt(a, Revise(rate, Some(payment))).Err? <==>
        || payment == 0
        || (Owed(a) > 0 && Highest(a.payments) + 1 < t.term && payment <= Nearest(Owed(a) * t.rate, Scale(t.perYear)))
        || (Owed(a) > 0 && Highest(a.payments) + 1 >= t.term + GUARD)
  {
    hide Remaining, Paid, Highest, Nearest;
    OwedNothingLess(a);
    var t := a.terms.(rate := if rate.Some? then rate.value else a.terms.rate, payment := payment);
    Drawable(t, Owed(a), Highest(a.payments) + 1);
  }

  // ---------------------------------------------------------------- loans that can no longer be drawn up

  /**
   The payments left can be drawn up, without which a loan can be neither shown, paid nor revised without new
   terms.
   */
  ghost predicate Covered(a: Account)
    requires Proper(a.terms)
  {
    Left(a, a.terms).Ok?
  }

  lemma PayCovered(a: Account, e: Event)
    requires Sound(a) && (e.PayScheduled? || e.PayExtra?) && Attempt(a, e).Ok?
    ensures Covered(Step(a, e))
  {
    hide Interest, Principal, Remaining, Paid, Highest, Attempt, Step;
    var next := Highest(a.payments) + 1;
    var p := PayParts(a, e);
    OneMore(a.payments, p);
    PayFits(a, e);
    if e.PayScheduled? {
      AfterFirst(a.terms, Owed(a), next);
      LowerBalance(a.terms, Owed(a) - p.principal, Owed(a) - Principal(a.terms, Owed(a), next), next + 1);
    } else {
      LowerBalance(a.terms, Owed(a) - p.principal, Owed(a), next);
    }
  }

  lemma PayFits(a: Account, e: Event)
    requires Proper(a.terms) && (e.PayScheduled? || e.PayExtra?) && Attempt(a, e).Ok?
    ensures Owed(a) > 0 && Remaining(a.terms, Owed(a), Highest(a.payments) + 1).Ok?
  {
    hide Interest, Principal, Remaining, Paid, Highest;
  }

  /** Payments and revisions keep a loan drawable. */
  lemma StepCovered(a: Account, e: Event)
    requires Sound(a) && Covered(a) && !e.Void?
    ensures Covered(Step(a, e))
  {
    hide Left, Sound;
    SoundProper(a);
    if (e.PayScheduled? || e.PayExtra?) && Attempt(a, e).Ok? { PayCovered(a, e); }
    if e.Revise? && Attempt(a, e).Ok? { RevisedCovered(a, e); }
  }

  lemma RevisedCovered(a: Account, e: Event)
    requires Proper(a.terms) && e.Revise? && Attempt(a, e).Ok?
    ensures Covered(Step(a, e))
  {
    hide Remaining, Paid, Highest;
  }

  ghost predicate NoVoid(events: seq<Event>) { forall i | 0 <= i < |events| :: !events[i].Void? }

  lemma {:induction false} RunCovered(a: Account, events: seq<Event>)
    requires Sound(a) && Covered(a) && NoVoid(events)
    ensures Covered(Run(a, events))
    decreases |events|
  {
    hide Sound, Step, Covered;
    if events != [] {
      SoundProper(a);
      StepSound(a, events[0]);
      StepCovered(a, events[0]);
      RunCovered(Step(a, events[0]), events[1..]);
    }
  }

  /**
   A voiding keeps it drawable exactly when the payment covers the interest on the balance owed again, or is the
   last.
   */
  lemma VoidCovered(a: Account, index: nat)
    requires Sound(a) && index < |a.payments|
    ensures var b := Step(a, Void(index));
      var next := Highest(b.payments) + 1;
      Covered(b) <==>
        || Owed(b) <= 0
        || (if next < b.terms.term then b.terms.payment > Interest(b.terms, Owed(b)) else next < b.terms.term + GUARD)
  {
    hide Interest, Remaining, Paid, Highest;
    SoundProper(a);
    StepSound(a, Void(index));
    var b := Step(a, Void(index));
    OwedNothingLess(b);
    Drawable(b.terms, Owed(b), Highest(b.payments) + 1);
  }

  /** 1000 at ten percent a year, ten yearly payments of 200. */
  const LENT := Account(Terms(200, 10000000, 1, 10, 0), 1000, [])

  /** The first with 800 extra, the payment then lowered to 20, and that first payment voided. */
  const LOWERED := [PayScheduled(800), Revise(None, Some(20)), Void(0)]

  const PAID := Account(Terms(200, 10000000, 1, 10, 0), 1000, [Payment(Some(1), 900, 100)])

  const REVISED := Account(Terms(20, 10000000, 1, 10, 0), 1000, [Payment(Some(1), 900, 100)])

  const OWING := Account(Terms(20, 10000000, 1, 10, 0), 1000, [])

  /** Each of the three is accepted, and the loan that could be drawn up can be no longer. */
  lemma VoidUncovers()
    ensures Sound(LENT) && Covered(LENT)
    ensures Attempt(LENT, LOWERED[0]) == Ok(PAID) && Attempt(PAID, LOWERED[1]) == Ok(REVISED)
        && Attempt(REVISED, LOWERED[2]) == Ok(OWING)
    ensures Run(LENT, LOWERED) == OWING && !Covered(OWING)
  {
    hide Run, Attempt, Covered;
    FirstPayment();
    Lowered();
    Voided();
    RunThree(LENT, LOWERED);
  }

  lemma TenPercent(payment: nat)
    ensures Interest(Terms(payment, 10000000, 1, 10, 0), 1000) == 100
    ensures Interest(Terms(payment, 10000000, 1, 10, 0), 100) == 10
  {
  }

  /** Which schedules can be drawn up, the refusals taken together. */
  lemma Drawable(t: Terms, balance: nat, number: nat)
    requires Proper(t)
    ensures Remaining(t, balance, number).Ok?
        <==> balance == 0 || (if number < t.term then t.payment > Interest(t, balance) else number < t.term + GUARD)
  {
    hide Interest, Remaining;
    RefusedExactly(t, balance, number);
    var r := Remaining(t, balance, number);
    assert r.Err? ==> r.error == Uncovered || r.error == Endless;
  }

  lemma FirstPayment()
    ensures Covered(LENT) && Attempt(LENT, PayScheduled(800)) == Ok(PAID)
  {
    hide Remaining, Interest;
    TenPercent(200);
    Drawable(LENT.terms, 1000, 1);
    PaysOff(LENT.terms, 1000, 1);
    FirstRow(LENT.terms, 1000, 1);
    assert LENT.payments + [Payment(Some(1), 900, 100)] == PAID.payments;
  }

  lemma Lowered()
    ensures Attempt(PAID, Revise(None, Some(20))) == Ok(REVISED)
  {
    hide Remaining, Interest;
    TenPercent(20);
    OneMore([], Payment(Some(1), 900, 100));
    assert [] + [Payment(Some(1), 900, 100)] == PAID.payments;
    Drawable(REVISED.terms, 100, 2);
  }

  lemma Voided()
    ensures Attempt(REVISED, Void(0)) == Ok(OWING) && !Covered(OWING)
  {
    hide Remaining, Interest;
    TenPercent(20);
    assert REVISED.payments[..0] + REVISED.payments[1..] == OWING.payments;
    Drawable(OWING.terms, 1000, 1);
  }

  lemma FirstRow(t: Terms, balance: nat, number: nat)
    requires Proper(t) && balance > 0 && Remaining(t, balance, number).Ok?
    ensures Remaining(t, balance, number).value != []
    ensures Remaining(t, balance, number).value[0].number == number
    ensures Remaining(t, balance, number).value[0].principal == Principal(t, balance, number)
    ensures Remaining(t, balance, number).value[0].interest == Interest(t, balance)
  {
    hide Interest, Principal;
  }

  lemma RunThree(a: Account, events: seq<Event>)
    requires Proper(a.terms) && |events| == 3
    ensures Run(a, events[..1]) == Step(a, events[0])
    ensures Run(a, events) == Step(Step(Step(a, events[0]), events[1]), events[2])
  {
    hide Step;
    var b := Step(a, events[0]);
    assert Run(a, events) == Run(b, events[1..]);
    assert Run(b, events[1..]) == Run(Step(b, events[1..][0]), events[1..][1..]);
    assert events[..1][1..] == [];
    assert Run(b, []) == b;
    var c := Step(b, events[1]);
    assert Run(c, events[2..]) == Run(Step(c, events[2]), events[2..][1..]);
    assert events[1..][1..] == events[2..];
    assert events[2..][1..] == [];
  }

  // ---------------------------------------------------------------- payments worked out

  /** Is a loan created with the payment worked out for it: above zero, and drawn up from its first payment on? */
  ghost predicate Created(principal: nat, rate: nat, perYear: nat, count: nat, balloon: nat)
    requires perYear > 0 && count >= 1
  {
    var payment := LevelMinor(principal, rate, perYear, count, balloon);
    payment > 0 && Remaining(Terms(payment, rate, perYear, count, balloon), principal, 1).Ok?
  }

  /**
   A loan is refused the payment worked out for it exactly when there are several payments and it rounds to the
   first one's interest.
   */
  lemma LevelRefusedExactly(principal: nat, rate: nat, perYear: nat, count: nat, balloon: nat)
    requires perYear > 0 && count >= 1 && balloon < principal
    ensures (!Created(principal, rate, perYear, count, balloon))
        <==> count > 1
             && LevelMinor(principal, rate, perYear, count, balloon) == Nearest(principal * rate, Scale(perYear))
  {
    hide LevelMinor, Nearest, Remaining;
    AtLeastInterest(principal, rate, perYear, count, balloon);
    if count == 1 { OnePaymentPositive(principal, rate, perYear, balloon); }
    Drawable(Terms(LevelMinor(principal, rate, perYear, count, balloon), rate, perYear, count, balloon), principal, 1);
  }

  /**
   One minor unit at a hundred percent a year in two yearly payments: worked out as one unit, the first year's
   interest.
   */
  lemma SmallLoanRefused()
    ensures LevelMinor(1, RATE_SCALE, 1, 2, 0) == 1 && !Created(1, RATE_SCALE, 1, 2, 0)
  {
    hide LevelMinor, Nearest, HalfEven;
    var d := Scale(1);
    LevelMinorRounds(1, d, 1, 2, 0);
    PowerOfTwo(d);
    PowerOfTwo(d + d);
    ThirdOver(d, Over(1, d, d, 2, 0), Under(d, d, 2));
    HalfEvenUnique(Over(1, d, d, 2, 0), Under(d, d, 2), LevelMinor(1, d, 1, 2, 0), 1);
    NearestWhole(1, d);
    LevelRefusedExactly(1, d, 1, 2, 0);
  }

  lemma PowerOfTwo(b: nat)
    ensures Power(b, 2) == b * b
  {
    assert Power(b, 2) == Power(b, 1) * b && Power(b, 1) == Power(b, 0) * b;
  }

  lemma ThirdOver(d: nat, n: int, e: int)
    requires d > 0 && n == (d + d) * (d + d) * d && e == d * ((d + d) * (d + d) - d * d)
    ensures HalfEven(n, e, 1)
  {
    var cube := d * d * d;
    assert n == 4 * cube && e == 3 * cube;
    Positive(d, d);
    Positive(d * d, d);
  }

  /**
   A new rate without a payment is refused exactly when the loan could not be drawn up before, or something is owed
   over several payments and the payment worked out rounds to the interest on it.
   */
  lemma ReviseRefusedExactly(a: Account, rate: nat)
    requires Sound(a) && rate != a.terms.rate
    ensures Attempt(a, Revise(Some(rate), None)).Err? <==>
      || !Covered(a)
      || (Owed(a) > 0 && PaymentsLeft(a) > 1 && WorkedOut(a, rate) == Nearest(Owed(a) * rate, Scale(a.terms.perYear)))
  {
    hide Remaining, LevelMinor, Nearest, Paid, Highest;
    OwedNothingLess(a);
    var t := a.terms.(rate := rate, payment := WorkedOut(a, rate));
    Drawable(t, Owed(a), Highest(a.payments) + 1);
    Drawable(a.terms, Owed(a), Highest(a.payments) + 1);
    if Owed(a) > 0 && PaymentsLeft(a) > 0 {
      var balloon := if a.terms.balloon < Owed(a) then a.terms.balloon else Owed(a);
      AtLeastInterest(Owed(a), rate, a.terms.perYear, PaymentsLeft(a), balloon);
    }
  }

  /** So it always is once no more than the balloon is owed over several payments: all of that is then balloon. */
  lemma NothingButBalloon(a: Account, rate: nat)
    requires Sound(a) && rate != a.terms.rate && 0 < Owed(a) <= a.terms.balloon && PaymentsLeft(a) > 1
    ensures Attempt(a, Revise(Some(rate), None)).Err?
  {
    hide Remaining, LevelMinor, Nearest, Paid, Highest, Attempt;
    AtLeastInterest(Owed(a), rate, a.terms.perYear, PaymentsLeft(a), Owed(a));
    ReviseRefusedExactly(a, rate);
  }

  /** A loan and its standing payments. */
  class Loan {
    const borrowed: nat
    var terms: Terms
    var payments: seq<Payment>

    function State(): Account
      reads this
    {
      Account(terms, borrowed, payments)
    }

    constructor (terms: Terms, borrowed: nat)
      requires Proper(terms)
      ensures State() == Account(terms, borrowed, []) && Sound(State())
    {
      this.terms, this.borrowed, payments := terms, borrowed, [];
    }

    /** What the standing payments leave owed, and the number after the highest of theirs. */
    method Standing() returns (balance: int, next: nat)
      ensures balance == Owed(State()) && next == Highest(payments) + 1
    {
      var highest := 0;
      balance := borrowed;
      for i := 0 to |payments|
        invariant balance == borrowed - Paid(payments[..i]) && highest == Highest(payments[..i])
      {
        assert payments[..i + 1][..i] == payments[..i];
        balance := balance - payments[i].principal;
        if payments[i].number.Some? && payments[i].number.value > highest { highest := payments[i].number.value; }
      }
      assert payments[..|payments|] == payments;
      next := highest + 1;
    }

    /** Pays the next scheduled payment with extra principal, or extra principal alone. */
    method Pay(extra: nat, extraOnly: bool) returns (refused: Option<Refusal>)
      requires Proper(terms)
      modifies this`payments
      ensures var e := if extraOnly then PayExtra(extra) else PayScheduled(extra);
        var r := Attempt(old(State()), e);
        State() == Step(old(State()), e) && refused == if r.Err? then Some(r.error) else None
    {
      hide Interest, Principal, Paid, Highest, Remaining;
      var balance, next := Standing();
      var rows := RemainingRows(terms, if balance > 0 then balance else 0, next);
      if rows.Err? { return Some(NotCovered); }
      if balance <= 0 { return Some(PaidOff); }
      if extraOnly {
        if extra == 0 { return Some(NothingExtra); }
        if extra > balance { return Some(TooMuch); }
        payments := payments + [Payment(None, extra, 0)];
      } else {
        PaysOff(terms, balance, next);
        var due := rows.value[0];
        if due.principal + extra > balance { return Some(TooMuch); }
        payments := payments + [Payment(Some(due.number), due.principal + extra, due.interest)];
      }
      return None;
    }

    /** Changes the rate, the payment or both, if the payments left can then be drawn up. */
    method Update(rate: Option<nat>, payment: Option<nat>) returns (refused: Option<Refusal>)
      requires Proper(terms)
      modifies this`terms
      ensures var r := Attempt(old(State()), Revise(rate, payment));
        State() == Step(old(State()), Revise(rate, payment)) && refused == if r.Err? then Some(r.error) else None
    {
      hide Interest, Principal, Paid, Highest, Remaining, LevelMinor;
      var revised := terms;
      if rate.Some? { revised := revised.(rate := rate.value); }
      var balance, next := Standing();
      if payment.Some? {
        if payment.value == 0 { return Some(NothingPaid); }
        revised := revised.(payment := payment.value);
      } else if revised.rate != terms.rate {
        var before := RemainingRows(terms, if balance > 0 then balance else 0, next);
        if before.Err? { return Some(NotCovered); }
        var left := terms.term - (next - 1);
        if balance > 0 && left > 0 {
          var balloon := if terms.balloon < balance then terms.balloon else balance;
          AtLeastInterest(balance, revised.rate, terms.perYear, left, balloon);
          revised := revised.(payment := LevelMinor(balance, revised.rate, terms.perYear, left, balloon));
        }
      }
      var rows := RemainingRows(revised, if balance > 0 then balance else 0, next);
      if rows.Err? { return Some(NotCovered); }
      terms := revised;
      return None;
    }

    /** Voids one standing payment: its principal is owed again. */
    method VoidPayment(index: nat)
      requires Proper(terms) && index < |payments|
      modifies this`payments
      ensures State() == Step(old(State()), Void(index))
      ensures Owed(State()) == Owed(old(State())) + old(payments)[index].principal
    {
      VoidPaid(payments, index);
      payments := payments[..index] + payments[index + 1..];
    }
  }
}
