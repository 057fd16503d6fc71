/**
 Reading the audit log: `audit tail` forwards from a cursor, in its plain and its bounded-scan form, and
 `audit list` backwards from the newest event, while events go on being appended.
 */
module AuditFeed {
  import opened Options

  datatype Event = Event(no: nat, id: nat)

  /** Sequence numbers start at one and only grow. */
  ghost predicate Ordered(log: seq<Event>) {
    && (forall i | 0 <= i < |log| :: log[i].no >= 1)
    && (forall i, j | 0 <= i < j < |log| :: log[i].no < log[j].no)
  }

  function Top(log: seq<Event>): nat { if log == [] then 0 else log[|log| - 1].no }

  /** The events after lo, up to hi, that satisfy p, in order. */
  function Window(log: seq<Event>, p: Event -> bool, lo: int, hi: int): seq<Event> {
    if log == [] then []
    else
      Window(log[..|log| - 1], p, lo, hi) + Piece(log[|log| - 1], p, lo, hi)
  }

  function Piece(e: Event, p: Event -> bool, lo: int, hi: int): seq<Event> {
    if lo < e.no <= hi && p(e) then [e] else []
  }

  function Both(a: Event -> bool, b: Event -> bool): Event -> bool { e => a(e) && b(e) }

  function Matching(s: seq<Event>, p: Event -> bool): seq<Event> {
    if s == [] then [] else Matching(s[..|s| - 1], p) + if p(s[|s| - 1]) then [s[|s| - 1]] else []
  }

  function Take(s: seq<Event>, n: nat): seq<Event> { if |s| <= n then s else s[..n] }

  // ---------------------------------------------------------------- one request

  datatype Reader = Reader(sees: Event -> bool, matches: Event -> bool)

  /** A tail request: at most limit events; with a scan limit at most that many candidates are looked at. */
  datatype Request = Request(limit: nat, scan: Option<nat>)

  predicate Allowed(q: Request) { q.limit >= 1 && (q.scan.Some? ==> q.scan.value >= 1) }

  datatype Page = Page(items: seq<Event>, next: Option<nat>, scanned: nat, more: bool)

  function Last(s: seq<Event>): Option<nat> { if s == [] then None else Some(s[|s| - 1].no) }

  function Cap(q: Request): nat
    requires q.scan.Some?
  {
    if q.scan.value < q.limit then q.scan.value else q.limit
  }

  function TailPage(log: seq<Event>, r: Reader, q: Request, after: nat): Page {
    if q.scan.None? then
      var items := Take(Window(log, Both(r.sees, r.matches), after, Top(log)), q.limit);
      Page(items, Last(items), 0, false)
    else
      var candidates := Window(log, r.sees, after, Top(log));
      var scanned := Take(candidates, Cap(q));
      Page(Matching(scanned, r.matches), Last(scanned), |scanned|, |candidates| > Cap(q))
  }

  /**
   Where a request without a cursor starts: the newest visible event, or on the hub's plain tail the newest of
   all.
   */
  function DefaultAfter(log: seq<Event>, r: Reader, q: Request, hub: bool): nat {
    if hub && q.scan.None? then Top(log) else Top(Window(log, r.sees, 0, Top(log)))
  }

  // ---------------------------------------------------------------- windows of an ordered log

  lemma {:induction false} WindowWithin(log: seq<Event>, p: Event -> bool, lo: int, hi: int)
    ensures forall e :: e in Window(log, p, lo, hi) ==> lo < e.no <= hi && p(e) && e in log
  {
    if log != [] {
      WindowWithin(log[..|log| - 1], p, lo, hi);
      assert forall e :: e in log[..|log| - 1] ==> e in log;
    }
  }

  /** Every event of the log in range that satisfies p is in the window. */
  lemma {:induction false} WindowComplete(log: seq<Event>, p: Event -> bool, lo: int, hi: int, e: Event)
    requires e in log && lo < e.no <= hi && p(e)
    ensures e in Window(log, p, lo, hi)
  {
    if e != log[|log| - 1] {
      assert e in log[..|log| - 1];
      WindowComplete(log[..|log| - 1], p, lo, hi, e);
    }
  }

  lemma {:induction false} WindowOrdered(log: seq<Event>, p: Event -> bool, lo: int, hi: int)
    requires Ordered(log)
    ensures Ordered(Window(log, p, lo, hi))
  {
    if log != [] {
      var front := log[..|log| - 1];
      WindowOrdered(front, p, lo, hi);
      WindowWithin(front, p, lo, hi);
      BelowLast(log);
      Appended(Window(front, p, lo, hi), log[|log| - 1]);
    }
  }

  lemma BelowLast(log: seq<Event>)
    requires Ordered(log) && log != []
    ensures forall e :: e in log[..|log| - 1] ==> e.no < log[|log| - 1].no
  {
  }

  lemma Appended(s: seq<Event>, e: Event)
    requires Ordered(s) && e.no >= 1 && forall x :: x in s ==> x.no < e.no
    ensures Ordered(s + [e])
  {
  }

  lemma {:induction false} WindowSplit(log: seq<Event>, p: Event -> bool, lo: int, mid: int, hi: int)
    requires Ordered(log) && lo <= mid <= hi
    ensures Window(log, p, lo, hi) == Window(log, p, lo, mid) + Window(log, p, mid, hi)
  {
    hide Ordered, Piece;
    if log != [] {
      var front, e := log[..|log| - 1], log[|log| - 1];
      FrontOrdered(log);
      WindowSplit(front, p, lo, mid, hi);
      if e.no <= mid { NothingAbove(front, p, mid, hi); }
      PieceSplit(e, p, lo, mid, hi);
      Interleave(Window(front, p, lo, mid), Window(front, p, mid, hi), Piece(e, p, lo, mid), Piece(e, p, mid, hi));
    }
  }

  lemma FrontOrdered(log: seq<Event>)
    requires Ordered(log) && log != []
    ensures Ordered(log[..|log| - 1]) && Top(log[..|log| - 1]) <= log[|log| - 1].no
  {
  }

  lemma PieceSplit(e: Event, p: Event -> bool, lo: int, mid: int, hi: int)
    requires lo <= mid <= hi
    ensures Piece(e, p, lo, hi) == Piece(e, p, lo, mid) + Piece(e, p, mid, hi)
    ensures e.no > mid ==> Piece(e, p, lo, mid) == []
  {
  }

  lemma Interleave(a: seq<Event>, b: seq<Event>, x: seq<Event>, y: seq<Event>)
    requires b == [] || x == []
    ensures (a + b) + (x + y) == (a + x) + (b + y)
  {
  }

  lemma {:induction false} NothingAbove(log: seq<Event>, p: Event -> bool, lo: int, hi: int)
    requires Ordered(log) && Top(log) <= lo
    ensures Window(log, p, lo, hi) == []
  {
    if log != [] { NothingAbove(log[..|log| - 1], p, lo, hi); }
  }

  lemma {:induction false} EmptyWindow(log: seq<Event>, p: Event -> bool, lo: int)
    ensures Window(log, p, lo, lo) == []
  {
    if log != [] { EmptyWindow(log[..|log| - 1], p, lo); }
  }

  lemma InFirst(a: seq<Event>, b: seq<Event>, i: nat, cut: int)
    requires i < |a| + |b|
    requires (forall e :: e in a ==> e.no <= cut) && (forall e :: e in b ==> e.no > cut)
    ensures (a + b)[i].no <= cut <==> i < |a|
  {
    if i < |a| { assert (a + b)[i] in a; } else { assert (a + b)[i] in b; }
  }

  /** A page taken off the front of a window ends the window at its last event. */
  lemma TakeIsWindow(log: seq<Event>, p: Event -> bool, lo: int, hi: int, n: nat)
    requires Ordered(log) && lo <= hi && n >= 1 && Window(log, p, lo, hi) != []
    ensures var page := Take(Window(log, p, lo, hi), n);
      && page != [] && lo < page[|page| - 1].no <= hi
      && page == Window(log, p, lo, page[|page| - 1].no)
      && Window(log, p, page[|page| - 1].no, hi) == Window(log, p, lo, hi)[|page|..]
  {
    hide Window;
    var all := Window(log, p, lo, hi);
    var page := Take(all, n);
    var k := |page|;
    var cut := page[k - 1].no;
    WindowWithin(log, p, lo, hi);
    assert page[k - 1] in all;
    WindowOrdered(log, p, lo, hi);
    WindowSplit(log, p, lo, cut, hi);
    var a, b := Window(log, p, lo, cut), Window(log, p, cut, hi);
    WindowWithin(log, p, lo, cut);
    WindowWithin(log, p, cut, hi);
    InFirst(a, b, k - 1, cut);
    if k < |all| { InFirst(a, b, k, cut); }
  }

  /** Later events never change a window that ends before them. */
  lemma {:induction false} WindowStable(log: seq<Event>, grown: seq<Event>, p: Event -> bool, lo: int, hi: int)
    requires Ordered(grown) && log <= grown && hi <= Top(log)
    ensures Window(grown, p, lo, hi) == Window(log, p, lo, hi)
    decreases |grown|
  {
    if |grown| > |log| {
      var front := grown[..|grown| - 1];
      assert log <= front && Ordered(front);
      if log != [] { assert log[|log| - 1] == grown[|log| - 1]; }
      WindowStable(log, front, p, lo, hi);
    } else {
      assert grown == log;
    }
  }

  lemma {:induction false} MatchingWindow(log: seq<Event>, r: Reader, lo: int, hi: int)
    ensures Window(log, Both(r.sees, r.matches), lo, hi) == Matching(Window(log, r.sees, lo, hi), r.matches)
  {
    if log != [] {
      var front, e := log[..|log| - 1], log[|log| - 1];
      MatchingWindow(front, r, lo, hi);
      var w := Window(front, r.sees, lo, hi);
      if lo < e.no <= hi && r.sees(e) {
        assert (w + [e])[..|w|] == w;
        assert Window(log, r.sees, lo, hi) == w + [e];
      } else {
        assert Window(log, r.sees, lo, hi) == w;
      }
    }
  }

  // ---------------------------------------------------------------- following a tail

  /** The cursor the next request uses: a page without one leaves it where it was. */
  function Following(page: Page, after: nat): nat { page.next.UnwrapOr(after) }

  /** Whatever its mode and limits, a page holds exactly the wanted events between its two cursors. */
  lemma PageIsWindow(log: seq<Event>, r: Reader, q: Request, after: nat)
    requires Ordered(log) && Allowed(q)
    ensures var page := TailPage(log, r, q, after);
      var next := Following(page, after);
      && after <= next && (next == after || next <= Top(log))
      && page.items == Window(log, Both(r.sees, r.matches), after, next)
  {
    hide Window, Matching, Both;
    var p := if q.scan.None? then Both(r.sees, r.matches) else r.sees;
    var n := if q.scan.None? then q.limit else Cap(q);
    if Window(log, p, after, Top(log)) == [] {
      EmptyWindow(log, Both(r.sees, r.matches), after);
      EmptyWindow(log, r.sees, after);
      MatchingWindow(log, r, after, after);
    } else {
      NotBeyond(log, p, after);
      TakeIsWindow(log, p, after, Top(log), n);
      MatchingWindow(log, r, after, Following(TailPage(log, r, q, after), after));
    }
  }

  lemma NotBeyond(log: seq<Event>, p: Event -> bool, after: nat)
    requires Ordered(log)
    ensures Window(log, p, after, Top(log)) != [] ==> after <= Top(log)
  {
    if after > Top(log) { NothingAbove(log, p, after, Top(log)); }
  }

  datatype Call = Call(log: seq<Event>, request: Request)

  /** Requests made one after another on a log that only grows. */
  ghost predicate Growing(calls: seq<Call>) {
    && (forall i | 0 <= i < |calls| :: Ordered(calls[i].log) && Allowed(calls[i].request))
    && (forall i, j | 0 <= i < j < |calls| :: calls[i].log <= calls[j].log)
  }

  datatype Walked = Walked(delivered: seq<Event>, cursor: nat)

  function Walk(r: Reader, calls: seq<Call>, after: nat): Walked {
    if calls == [] then Walked([], after)
    else
      var before := Walk(r, calls[..|calls| - 1], after);
      var page := TailPage(calls[|calls| - 1].log, r, calls[|calls| - 1].request, before.cursor);
      Walked(before.delivered + page.items, Following(page, before.cursor))
  }

  /**
   For every mix of plain and bounded requests, all limits, and any events appended in between, the pages
   together are exactly the visible matching events after the start, up to the cursor reached, in order.
   */
  lemma {:induction false} WalkDelivers(r: Reader, calls: seq<Call>, after: nat)
    requires calls != [] && Growing(calls)
    ensures var log, end := calls[|calls| - 1].log, Walk(r, calls, after);
      && after <= end.cursor && (end.cursor == after || end.cursor <= Top(log))
      && end.delivered == Window(log, Both(r.sees, r.matches), after, end.cursor)
    decreases |calls|
  {
    hide Window, TailPage, Both, Following;
    var n := |calls|;
    var log, front := calls[n - 1].log, calls[..n - 1];
    var before := Walk(r, front, after);
    var p := Both(r.sees, r.matches);
    PageIsWindow(log, r, calls[n - 1].request, before.cursor);
    if n == 1 {
      EmptyWindow(log, p, after);
    } else {
      WalkDelivers(r, front, after);
      EarlierWindow(front[n - 2].log, log, p, after, before.cursor);
    }
    WindowSplit(log, p, after, before.cursor, Walk(r, calls, after).cursor);
  }

  lemma EarlierWindow(log: seq<Event>, grown: seq<Event>, p: Event -> bool, lo: nat, hi: nat)
    requires Ordered(grown) && log <= grown && (hi == lo || hi <= Top(log))
    ensures Window(grown, p, lo, hi) == Window(log, p, lo, hi)
  {
    if hi == lo {
      EmptyWindow(grown, p, lo);
      EmptyWindow(log, p, lo);
    } else {
      WindowStable(log, grown, p, lo, hi);
    }
  }

  // ---------------------------------------------------------------- what a page says about the rest

  /** A bounded page reports more exactly when visible candidates remain, and each one it scanned is gone from them. */
  lemma ScanMoreExactly(log: seq<Event>, r: Reader, q: Request, after: nat)
    requires Ordered(log) && Allowed(q) && q.scan.Some?
    ensures var page := TailPage(log, r, q, after);
      var rest := Window(log, r.sees, Following(page, after), Top(log));
      && (page.more <==> rest != [])
      && |rest| + page.scanned == |Window(log, r.sees, after, Top(log))|
      && (page.scanned == 0 <==> Window(log, r.sees, after, Top(log)) == [])
      && page.scanned <= q.limit && page.scanned <= q.scan.value
      && (page.more ==> page.scanned == q.limit || page.scanned == q.scan.value)
  {
    hide Window, Matching;
    if Window(log, r.sees, after, Top(log)) != [] {
      NotBeyond(log, r.sees, after);
      TakeIsWindow(log, r.sees, after, Top(log), Cap(q));
    }
  }

  /** A plain page leaves fewer matching events by as many as it returned, and is empty only when none are left. */
  lemma PlainProgress(log: seq<Event>, r: Reader, q: Request, after: nat)
    requires Ordered(log) && Allowed(q) && q.scan.None?
    ensures var page := TailPage(log, r, q, after);
      var p := Both(r.sees, r.matches);
      && |Window(log, p, Following(page, after), Top(log))| + |page.items| == |Window(log, p, after, Top(log))|
      && (page.items == [] <==> Window(log, p, after, Top(log)) == []) && page.scanned == 0 && !page.more
      && |page.items| <= q.limit
      && (|page.items| < q.limit ==> Window(log, p, Following(page, after), Top(log)) == [])
  {
    hide Window, Both;
    var p := Both(r.sees, r.matches);
    if Window(log, p, after, Top(log)) != [] {
      NotBeyond(log, p, after);
      TakeIsWindow(log, p, after, Top(log), q.limit);
    }
  }

  /** A page without a next cursor has nothing wanted after it. */
  lemma EndOfLog(log: seq<Event>, r: Reader, q: Request, after: nat)
    requires Ordered(log) && Allowed(q) && TailPage(log, r, q, after).next.None?
    ensures Window(log, Both(r.sees, r.matches), after, Top(log)) == []
  {
    hide Window, Both;
    MatchingWindow(log, r, after, Top(log));
    if q.scan.Some? { ScanMoreExactly(log, r, q, after); } else { PlainProgress(log, r, q, after); }
  }

  /** Following a tail on a log at rest, with each request in its own mode, until a page has no next cursor. */
  ghost function Drain(log: seq<Event>, r: Reader, requests: nat -> Request, turn: nat, after: nat): seq<Event>
    requires Ordered(log) && forall i: nat :: Allowed(requests(i))
    decreases |Window(log, r.sees, after, Top(log))|
  {
    var page := TailPage(log, r, requests(turn), after);
    if page.next.None? then []
    else
      Advances(log, r, requests(turn), after);
      page.items + Drain(log, r, requests, turn + 1, page.next.value)
  }

  /** Every page with a next cursor leaves fewer visible candidates, so following a tail ends. */
  lemma Advances(log: seq<Event>, r: Reader, q: Request, after: nat)
    requires Ordered(log) && Allowed(q) && TailPage(log, r, q, after).next.Some?
    ensures |Window(log, r.sees, TailPage(log, r, q, after).next.value, Top(log))|
          < |Window(log, r.sees, after, Top(log))|
  {
    hide Window, Both, Matching;
    var page := TailPage(log, r, q, after);
    if q.scan.Some? {
      ScanMoreExactly(log, r, q, after);
    } else {
      var p, next := Both(r.sees, r.matches), page.next.value;
      NotBeyond(log, p, after);
      TakeIsWindow(log, p, after, Top(log), q.limit);
      WindowSplit(log, r.sees, after, next, Top(log));
      MatchingWindow(log, r, after, next);
      assert Window(log, r.sees, after, next) != [] by { MatchingNone(r.matches); }
    }
  }

  lemma MatchingNone(p: Event -> bool)
    ensures Matching([], p) == []
  {
  }

  /** In any interleaving of modes, following a tail to its end delivers everything wanted after the start. */
  lemma {:induction false} DrainComplete(log: seq<Event>, r: Reader, requests: nat -> Request, turn: nat, after: nat)
    requires Ordered(log) && forall i: nat :: Allowed(requests(i))
    ensures Drain(log, r, requests, turn, after) == Window(log, Both(r.sees, r.matches), after, Top(log))
    decreases |Window(log, r.sees, after, Top(log))|
  {
    hide Window, Both, TailPage;
    var page := TailPage(log, r, requests(turn), after);
    if page.next.None? {
      EndOfLog(log, r, requests(turn), after);
    } else {
      Advances(log, r, requests(turn), after);
      PageIsWindow(log, r, requests(turn), after);
      DrainComplete(log, r, requests, turn + 1, page.next.value);
      NextWithin(log, r, requests(turn), after);
      WindowSplit(log, Both(r.sees, r.matches), after, page.next.value, Top(log));
    }
  }

  lemma NextWithin(log: seq<Event>, r: Reader, q: Request, after: nat)
    requires Ordered(log) && Allowed(q) && TailPage(log, r, q, after).next.Some?
    ensures TailPage(log, r, q, after).next.value <= Top(log)
  {
    hide Window, Both, Matching;
    var p := if q.scan.None? then Both(r.sees, r.matches) else r.sees;
    NotBeyond(log, p, after);
    TakeIsWindow(log, p, after, Top(log), if q.scan.None? then q.limit else Cap(q));
  }

  /**
   Started without a cursor, a tail delivers exactly the wanted events appended since, in either form of the
   default.
   */
  lemma DefaultStart(log: seq<Event>, grown: seq<Event>, r: Reader, q: Request, hub: bool)
    requires Ordered(grown) && log <= grown
    ensures DefaultAfter(log, r, q, hub) <= Top(log)
    ensures Window(grown, Both(r.sees, r.matches), DefaultAfter(log, r, q, hub), Top(grown))
         == Window(grown, Both(r.sees, r.matches), Top(log), Top(grown))
  {
    hide Window;
    var p, start := Both(r.sees, r.matches), DefaultAfter(log, r, q, hub);
    var seen := Window(log, r.sees, 0, Top(log));
    assert Ordered(log);
    WindowWithin(log, r.sees, 0, Top(log));
    WindowOrdered(log, r.sees, 0, Top(log));
    if seen != [] { assert seen[|seen| - 1] in seen; }
    var missed := Window(log, p, start, Top(log));
    WindowWithin(log, p, start, Top(log));
    if missed != [] {
      assert missed[0] in missed;
      WindowComplete(log, r.sees, 0, Top(log), missed[0]);
      LastIsTop(seen, missed[0]);
    }
    WindowStable(log, grown, p, start, Top(log));
    TopGrows(log, grown);
    WindowSplit(grown, p, start, Top(log), Top(grown));
  }

  /**
   Without a cursor a request starts at the newest event its reader may see; the hub's plain tail at the newest of all.
   */
  lemma DefaultStartIs(log: seq<Event>, r: Reader, q: Request, hub: bool)
    requires Ordered(log)
    ensures var start, any := DefaultAfter(log, r, q, hub), hub && q.scan.None?;
      && (start == 0 || exists e :: e in log && e.no == start && (any || r.sees(e)))
      && forall e :: e in log && (any || r.sees(e)) ==> 1 <= e.no <= start
  {
    hide Window;
    var seen := Window(log, r.sees, 0, Top(log));
    WindowWithin(log, r.sees, 0, Top(log));
    WindowOrdered(log, r.sees, 0, Top(log));
    if seen != [] { assert seen[|seen| - 1] in seen; }
    if log != [] { assert log[|log| - 1] in log; }
    forall e | e in log && r.sees(e) ensures 1 <= e.no <= Top(seen) {
      LastIsTop(log, e);
      WindowComplete(log, r.sees, 0, Top(log), e);
      LastIsTop(seen, e);
    }
  }

  lemma LastIsTop(s: seq<Event>, e: Event)
    requires Ordered(s) && e in s
    ensures e.no <= Top(s)
  {
  }

  lemma TopGrows(log: seq<Event>, grown: seq<Event>)
    requires Ordered(grown) && log <= grown
    ensures Top(log) <= Top(grown)
  {
    if log != [] { assert grown[|log| - 1] == log[|log| - 1]; }
  }

  // ---------------------------------------------------------------- listing backwards

  function Reverse(s: seq<Event>): (r: seq<Event>)
    ensures |r| == |s| && forall i | 0 <= i < |s| :: r[i] == s[|s| - 1 - i]
  {
    seq(|s|, i requires 0 <= i < |s| => s[|s| - 1 - i])
  }

  datatype Listed = Listed(items: seq<Event>, next: Option<nat>)

  /** The newest events at or below a sequence number; next holds the last one's number when more remain. */
  function ListPage(log: seq<Event>, r: Reader, limit: nat, upTo: int): Listed
    requires limit >= 1
  {
    var rows := Reverse(Window(log, Both(r.sees, r.matches), 0, upTo));
    if |rows| <= limit then Listed(rows, None) else Listed(rows[..limit], Some(rows[limit - 1].no))
  }

  /** Below an event of a window lies the window up to just before it. */
  lemma CutBelow(log: seq<Event>, p: Event -> bool, upTo: int, k: nat)
    requires Ordered(log) && k < |Window(log, p, 0, upTo)|
    ensures var e := Window(log, p, 0, upTo)[k];
      1 <= e.no <= upTo && Window(log, p, 0, e.no - 1) == Window(log, p, 0, upTo)[..k]
  {
    hide Window;
    var all := Window(log, p, 0, upTo);
    var cut := all[k].no - 1;
    WindowWithin(log, p, 0, upTo);
    assert all[k] in all;
    WindowOrdered(log, p, 0, upTo);
    WindowSplit(log, p, 0, cut, upTo);
    var a, b := Window(log, p, 0, cut), Window(log, p, cut, upTo);
    WindowWithin(log, p, 0, cut);
    WindowWithin(log, p, cut, upTo);
    InFirst(a, b, k, cut);
    if k > 0 { InFirst(a, b, k - 1, cut); }
  }

  lemma ReverseParts(s: seq<Event>, k: nat)
    requires k <= |s|
    ensures Reverse(s) == Reverse(s)[..|s| - k] + Reverse(s[..k])
  {
  }

  /** A page takes the newest of a window and leaves the window below its last event. */
  lemma ListPageIsWindow(log: seq<Event>, r: Reader, limit: nat, upTo: int)
    requires Ordered(log) && limit >= 1
    ensures var p, page := Both(r.sees, r.matches), ListPage(log, r, limit, upTo);
      var rest := if page.next.Some? then Window(log, p, 0, page.next.value - 1) else [];
      && page.items + Reverse(rest) == Reverse(Window(log, p, 0, upTo))
      && (page.next.Some? ==> 1 <= page.next.value <= upTo && rest != [] && |page.items| == limit)
  {
    hide Window, Both, Ordered;
    var p, page := Both(r.sees, r.matches), ListPage(log, r, limit, upTo);
    var all := Window(log, p, 0, upTo);
    if page.next.Some? {
      var k := |all| - limit;
      CutBelow(log, p, upTo, k);
      ReverseParts(all, k);
    }
  }

  /** Following next_before, each request on a log that may have grown, until a page has no next. */
  function ListWalk(r: Reader, logs: seq<seq<Event>>, limits: seq<nat>, upTo: int): seq<Event>
    requires |logs| == |limits| && forall i | 0 <= i < |limits| :: limits[i] >= 1
    decreases |logs|
  {
    if logs == [] then []
    else
      var page := ListPage(logs[0], r, limits[0], upTo);
      if page.next.None? then page.items
      else page.items + ListWalk(r, logs[1..], limits[1..], page.next.value - 1)
  }

  /** The page count that certainly reaches the oldest event: one for every event listed. */
  ghost predicate Enough(logs: seq<seq<Event>>, r: Reader, upTo: int)
    requires logs != []
  {
    |logs| > |Window(logs[0], Both(r.sees, r.matches), 0, upTo)|
  }

  ghost predicate GrowingLogs(logs: seq<seq<Event>>) {
    && (forall i | 0 <= i < |logs| :: Ordered(logs[i]))
    && (forall i, j | 0 <= i < j < |logs| :: logs[i] <= logs[j])
  }

  /**
   The pages from the newest event back are the whole filtered log as it stood at the first request, newest
   first and each event once, whatever the limits and whatever was appended meanwhile.
   */
  lemma {:induction false} ListComplete(r: Reader, logs: seq<seq<Event>>, limits: seq<nat>, upTo: int)
    requires |logs| == |limits| > 0 && GrowingLogs(logs) && upTo <= Top(logs[0])
    requires forall i | 0 <= i < |limits| :: limits[i] >= 1
    requires Enough(logs, r, upTo)
    ensures ListWalk(r, logs, limits, upTo) == Reverse(Window(logs[0], Both(r.sees, r.matches), 0, upTo))
    decreases |logs|
  {
    hide Window, Both, ListPage;
    var p, page := Both(r.sees, r.matches), ListPage(logs[0], r, limits[0], upTo);
    ListPageIsWindow(logs[0], r, limits[0], upTo);
    if page.next.Some? {
      var below := page.next.value - 1;
      PageNotEmpty(logs[0], r, limits[0], upTo);
      WindowStable(logs[0], logs[1], p, 0, below);
      TopGrows(logs[0], logs[1]);
      assert |Window(logs[0], p, 0, upTo)| == |page.items| + |Window(logs[0], p, 0, below)|;
      ListComplete(r, logs[1..], limits[1..], below);
    }
  }

  lemma PageNotEmpty(log: seq<Event>, r: Reader, limit: nat, upTo: int)
    requires limit >= 1 && ListPage(log, r, limit, upTo).next.Some?
    ensures ListPage(log, r, limit, upTo).items != []
  {
  }

  // ---------------------------------------------------------------- the queries

  /** Reads rows in order until one more than the limit is in hand. */
  method Select(log: seq<Event>, p: Event -> bool, after: nat, limit: nat) returns (rows: seq<Event>, more: bool)
    ensures rows == Take(Window(log, p, after, Top(log)), limit)
    ensures more <==> |Window(log, p, after, Top(log))| > limit
  {
    rows := [];
    var i := 0;
    while i < |log| && |rows| <= limit
      invariant 0 <= i <= |log|
      invariant rows == Window(log[..i], p, after, Top(log)) && |rows| <= limit + 1
    {
      assert log[..i + 1][..i] == log[..i];
      if after < log[i].no <= Top(log) && p(log[i]) { rows := rows + [log[i]]; }
      i := i + 1;
    }
    WindowPrefix(log, p, after, Top(log), i);
    assert i == |log| ==> log[..i] == log;
    more := |rows| > limit;
    if more { rows := rows[..limit]; }
  }

  lemma {:induction false} WindowPrefix(log: seq<Event>, p: Event -> bool, lo: int, hi: int, i: nat)
    requires i <= |log|
    ensures Window(log[..i], p, lo, hi) <= Window(log, p, lo, hi)
  {
    if i < |log| {
      WindowPrefix(log[..|log| - 1], p, lo, hi, i);
      assert log[..|log| - 1][..i] == log[..i];
    } else {
      assert log[..i] == log;
    }
  }

  /** Keeps the scanned rows that match. */
  method Filter(scanned: seq<Event>, p: Event -> bool) returns (items: seq<Event>)
    ensures items == Matching(scanned, p)
  {
    items := [];
    for i := 0 to |scanned|
      invariant items == Matching(scanned[..i], p)
    {
      assert scanned[..i + 1][..i] == scanned[..i];
      if p(scanned[i]) { items := items + [scanned[i]]; }
    }
    assert scanned[..|scanned|] == scanned;
  }

  /** One tail request: the query is rebuilt for its mode, then its rows and next cursor are read off. */
  method Tail(log: seq<Event>, r: Reader, q: Request, after: nat) returns (page: Page)
    ensures page == TailPage(log, r, q, after)
  {
    hide Window, Matching;
    if q.scan.Some? {
      var cap := Cap(q);
      var scanned, more := Select(log, r.sees, after, cap);
      var items := Filter(scanned, r.matches);
      return Page(items, Last(scanned), |scanned|, more);
    }
    var rows, _ := Select(log, Both(r.sees, r.matches), after, q.limit);
    return Page(rows, Last(rows), 0, false);
  }

  /** What one more row adds in front of the rows below it. */
  lemma WindowDown(log: seq<Event>, p: Event -> bool, upTo: int, i: nat)
    requires i < |log| && log[i].no >= 1
    ensures Reverse(Window(log[..i + 1], p, 0, upTo))
         == (if log[i].no <= upTo && p(log[i]) then [log[i]] else []) + Reverse(Window(log[..i], p, 0, upTo))
    decreases |log|
  {
    assert log[..i + 1][..i] == log[..i];
    var w := Window(log[..i], p, 0, upTo);
    assert Reverse(w + [log[i]]) == [log[i]] + Reverse(w);
    assert Reverse(w + []) == [] + Reverse(w);
  }

  /** Reads rows from the newest down until one more than the limit is in hand. */
  method SelectDown(log: seq<Event>, p: Event -> bool, upTo: int, limit: nat) returns (rows: seq<Event>, more: bool)
    requires Ordered(log)
    ensures rows == Take(Reverse(Window(log, p, 0, upTo)), limit)
    ensures more <==> |Window(log, p, 0, upTo)| > limit
  {
    hide Window, Ordered;
    NumbersFromOne(log);
    rows := [];
    ghost var all := Reverse(Window(log, p, 0, upTo));
    ghost var rest := all;
    var i := |log|;
    assert log[..i] == log;
    while i > 0 && |rows| <= limit
      invariant 0 <= i <= |log| && |rows| <= limit + 1
      invariant rest == Reverse(Window(log[..i], p, 0, upTo))
      invariant rows + rest == all
    {
      i := i - 1;
      WindowDown(log, p, upTo, i);
      rest := Reverse(Window(log[..i], p, 0, upTo));
      if log[i].no <= upTo && p(log[i]) { rows := rows + [log[i]]; }
    }
    WindowOfNothing(p, upTo);
    assert i == 0 ==> rows == all;
    more := |rows| > limit;
    if more {
      assert rows[..limit] == all[..limit];
      rows := rows[..limit];
    }
  }

  /** One list request, read from the newest event down. */
  method List(log: seq<Event>, r: Reader, limit: nat, before: Option<nat>) returns (page: Listed)
    requires limit >= 1 && Ordered(log)
    ensures page == ListPage(log, r, limit, if before.Some? then before.value - 1 else Top(log))
  {
    hide Window, Both, Ordered;
    var upTo := if before.Some? then before.value - 1 else Top(log);
    var rows, more := SelectDown(log, Both(r.sees, r.matches), upTo, limit);
    return Listed(rows, if more then Some(rows[|rows| - 1].no) else None);
  }

  lemma NumbersFromOne(log: seq<Event>)
    requires Ordered(log)
    ensures forall i | 0 <= i < |log| :: log[i].no >= 1
  {
  }

  lemma WindowOfNothing(p: Event -> bool, upTo: int)
    ensures Window([], p, 0, upTo) == []
  {
  }
}
