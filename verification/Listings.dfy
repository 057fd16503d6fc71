/**
 Keyset paging of the hub's listings: each page starts after the key its cursor carries, and a cursor
 longer than the input field admits is refused.
 */
module Listings {
  import opened Options
  import opened Json
  import C = Cursors
  import B64 = Base64Url
  import S = Sorting

  type Key = seq<Text>

  /** A listing: the noun in its cursors, the texts in a row's sort key, and the longest cursor a request may send. */
  datatype Kind = Kind(noun: Text, size: nat, length: nat)

  /** By scope name, username and membership id. */
  const MEMBERSHIPS := Kind([109, 101, 109, 98, 101, 114, 115, 104, 105, 112], 3, 1024)

  /** By username. */
  const USERS := Kind([117, 115, 101, 114], 1, 512)

  /** A key of this listing, as text out of the database: no surrogates to pair. */
  ghost predicate Stored(kind: Kind, k: Key) {
    |k| == kind.size && forall i | 0 <= i < |k| :: Unpaired(k[i])
  }

  function Above(rows: seq<Key>, below: (Key, Key) -> bool, after: Key): seq<Key> {
    if rows == [] then [] else (if below(after, rows[0]) then [rows[0]] else []) + Above(rows[1..], below, after)
  }

  datatype Page = Page(items: seq<Key>, next: Option<string>)

  /** One request: the rows after the cursor's key, cut at the limit, with the last one's key as the next cursor. */
  function ListPage(kind: Kind, rows: seq<Key>, below: (Key, Key) -> bool, limit: nat,
                    cursor: Option<string>): Result<Page, C.Refusal>
    requires limit >= 1
  {
    if cursor.Some? && |cursor.value| > kind.length then Err(C.InvalidCursor)
    else
      var after := if cursor.Some? then C.DecodeKey(kind.noun, cursor.value, kind.size) else Ok([]);
      if after.Err? then Err(C.InvalidCursor)
      else
        var items := if cursor.Some? then Above(rows, below, after.value) else rows;
        if |items| > limit then Ok(Page(items[..limit], Some(C.EncodeKey(kind.noun, items[limit - 1]))))
        else Ok(Page(items, None))
  }

  datatype Walked = Walked(items: seq<Key>, whole: bool)

  /** Following next cursors for up to a number of requests; whole when a page without one was reached. */
  function Walk(kind: Kind, rows: seq<Key>, below: (Key, Key) -> bool, limit: nat, cursor: Option<string>,
                requests: nat): Walked
    requires limit >= 1
    decreases requests
  {
    if requests == 0 then Walked([], false)
    else
      var page := ListPage(kind, rows, below, limit, cursor);
      if page.Err? then Walked([], false)
      else if page.value.next.None? then Walked(page.value.items, true)
      else
        var rest := Walk(kind, rows, below, limit, page.value.next, requests - 1);
        Walked(page.value.items + rest.items, rest.whole)
  }

  /** The cursor a page ending in this row hands out is longer than the next request may send. */
  predicate TooLong(kind: Kind, k: Key) { |C.EncodeKey(kind.noun, k)| > kind.length }

  /** How many rows can be reached from the k-th: all, unless a page ends in a row whose cursor is too long. */
  function Reached(kind: Kind, rows: seq<Key>, limit: nat, k: nat): (n: nat)
    requires limit >= 1 && k <= |rows|
    ensures k <= n <= |rows|
    decreases |rows| - k
  {
    if k + limit >= |rows| then |rows|
    else if TooLong(kind, rows[k + limit - 1]) then k + limit
    else Reached(kind, rows, limit, k + limit)
  }

  ghost predicate Listing(kind: Kind, rows: seq<Key>, below: (Key, Key) -> bool) {
    && Unpaired(kind.noun) && S.Ordered(rows, below) && S.Strict(below)
    && forall i | 0 <= i < |rows| :: Stored(kind, rows[i])
  }

  /** After a row's key come exactly the rows after it. */
  lemma {:induction false} AboveSuffix(rows: seq<Key>, below: (Key, Key) -> bool, k: nat)
    requires S.Ordered(rows, below) && S.Strict(below) && 0 < k <= |rows|
    ensures Above(rows, below, rows[k - 1]) == rows[k..]
  {
    AboveRest(rows, below, k, 0);
    assert rows[0..] == rows;
  }

  lemma {:induction false} AboveRest(rows: seq<Key>, below: (Key, Key) -> bool, k: nat, i: nat)
    requires S.Ordered(rows, below) && S.Strict(below) && 0 < k <= |rows| && i <= |rows|
    ensures Above(rows[i..], below, rows[k - 1]) == rows[if i < k then k else i..]
    decreases |rows| - i
  {
    if i < |rows| {
      AboveRest(rows, below, k, i + 1);
      assert rows[i..][1..] == rows[i + 1..];
      if i < k - 1 { assert below(rows[i], rows[k - 1]); }
      if k - 1 < i { assert below(rows[k - 1], rows[i]); }
    }
  }

  /** A listing takes back its own cursor as the key it was made from. */
  lemma OwnCursor(kind: Kind, k: Key)
    requires Stored(kind, k) && Unpaired(kind.noun)
    ensures C.DecodeKey(kind.noun, C.EncodeKey(kind.noun, k), kind.size) == Ok(k)
  {
    hide Unpaired;
    C.KeyReturned(kind.noun, k);
  }

  /** The cursor that leads to the rows from the k-th on. */
  function CursorAt(kind: Kind, rows: seq<Key>, k: nat): (cursor: Option<string>)
    requires k <= |rows|
    ensures cursor.None? <==> k == 0
  {
    if k == 0 then None else Some(C.EncodeKey(kind.noun, rows[k - 1]))
  }

  lemma PageAt(kind: Kind, rows: seq<Key>, below: (Key, Key) -> bool, limit: nat, k: nat)
    requires limit >= 1 && Listing(kind, rows, below) && k <= |rows| && (k > 0 ==> !TooLong(kind, rows[k - 1]))
    ensures ListPage(kind, rows, below, limit, CursorAt(kind, rows, k))
         == Ok(if k + limit < |rows| then Page(rows[k..k + limit], CursorAt(kind, rows, k + limit))
           else Page(rows[k..], None))
  {
    hide C.EncodeKey, C.DecodeKey, Stored, S.Ordered, S.Strict, Unpaired;
    if k > 0 {
      OwnCursor(kind, rows[k - 1]);
      AboveSuffix(rows, below, k);
    } else {
      assert rows[0..] == rows;
    }
    if k + limit < |rows| { Slice(rows, k, limit); }
  }

  lemma Slice(rows: seq<Key>, k: nat, limit: nat)
    requires k + limit <= |rows|
    ensures rows[k..][..limit] == rows[k..k + limit]
  {
  }

  lemma Join(rows: seq<Key>, i: nat, j: nat, n: nat)
    requires i <= j <= n <= |rows|
    ensures rows[i..j] + rows[j..n] == rows[i..n]
  {
  }

  /** One more request: refused, last, or followed by the rest. */
  lemma WalkStep(kind: Kind, rows: seq<Key>, below: (Key, Key) -> bool, limit: nat, cursor: Option<string>,
                 requests: nat)
    requires limit >= 1 && requests > 0
    ensures var page := ListPage(kind, rows, below, limit, cursor);
      && (page.Err? ==> Walk(kind, rows, below, limit, cursor, requests) == Walked([], false))
      && (page.Ok? && page.value.next.None? ==>
        Walk(kind, rows, below, limit, cursor, requests) == Walked(page.value.items, true))
      && (page.Ok? && page.value.next.Some? ==>
          var rest := Walk(kind, rows, below, limit, page.value.next, requests - 1);
          Walk(kind, rows, below, limit, cursor, requests) == Walked(page.value.items + rest.items, rest.whole))
  {
    hide ListPage;
  }

  lemma ReachedStep(kind: Kind, rows: seq<Key>, limit: nat, k: nat)
    requires limit >= 1 && k <= |rows|
    ensures k + limit >= |rows| ==> Reached(kind, rows, limit, k) == |rows|
    ensures k + limit < |rows| && TooLong(kind, rows[k + limit - 1]) ==> Reached(kind, rows, limit, k) == k + limit
    ensures k + limit < |rows| && !TooLong(kind, rows[k + limit - 1]) ==>
              Reached(kind, rows, limit, k) == Reached(kind, rows, limit, k + limit)
  {
    hide TooLong;
  }

  /**
   A walk delivers the rows from the k-th up to the first page whose cursor is too long, and is whole when there
   is none.
   */
  lemma {:induction false} WalkReaches(kind: Kind, rows: seq<Key>, below: (Key, Key) -> bool, limit: nat, k: nat,
                                       requests: nat)
    requires limit >= 1 && Listing(kind, rows, below) && k <= |rows| && (k > 0 ==> !TooLong(kind, rows[k - 1]))
    requires requests > |rows| - k
    ensures var n := Reached(kind, rows, limit, k);
      Walk(kind, rows, below, limit, CursorAt(kind, rows, k), requests) == Walked(rows[k..n], n == |rows|)
    decreases |rows| - k
  {
    hide Listing, ListPage, TooLong, CursorAt, Walk, Reached;
    PageAt(kind, rows, below, limit, k);
    WalkStep(kind, rows, below, limit, CursorAt(kind, rows, k), requests);
    ReachedStep(kind, rows, limit, k);
    if k + limit < |rows| {
      if TooLong(kind, rows[k + limit - 1]) {
        LongCursorRefused(kind, rows, below, limit, k + limit);
        WalkStep(kind, rows, below, limit, CursorAt(kind, rows, k + limit), requests - 1);
      } else {
        WalkReaches(kind, rows, below, limit, k + limit, requests - 1);
        Join(rows, k, k + limit, Reached(kind, rows, limit, k + limit));
      }
    }
  }

  lemma LongCursorRefused(kind: Kind, rows: seq<Key>, below: (Key, Key) -> bool, limit: nat, k: nat)
    requires limit >= 1 && 0 < k <= |rows| && TooLong(kind, rows[k - 1])
    ensures ListPage(kind, rows, below, limit, CursorAt(kind, rows, k)).Err?
  {
    hide C.EncodeKey;
  }

  /**
   Chained pages are the whole sorted listing exactly when no page on the way ends in a row whose cursor is too
   long.
   */
  lemma ListingExactly(kind: Kind, rows: seq<Key>, below: (Key, Key) -> bool, limit: nat)
    requires limit >= 1 && Listing(kind, rows, below)
    ensures var walked := Walk(kind, rows, below, limit, None, |rows| + 1);
      && walked.items == rows[..Reached(kind, rows, limit, 0)]
      && (walked.whole <==> Reached(kind, rows, limit, 0) == |rows|)
      && (walked.whole ==> walked.items == rows)
  {
    hide Walk, Reached, Listing;
    WalkReaches(kind, rows, below, limit, 0, |rows| + 1);
  }

  // ---------------------------------------------------------------- which cursors are too long

  /** What the texts of a key take up: each between quotes, with the comma or bracket after it. */
  function Width(k: Key): nat {
    if k == [] then 0 else |EscapeAll(k[0])| + 3 + Width(k[1..])
  }

  lemma {:induction false} ItemsWidth(k: Key)
    requires k != []
    ensures |PrintItems(C.Strings(k))| == Width(k)
  {
    hide EscapeAll;
    var texts := C.Strings(k);
    assert texts[0] == String(k[0]);
    if |k| > 1 {
      assert texts[1..] == C.Strings(k[1..]);
      ItemsWidth(k[1..]);
    }
  }

  lemma KeyWidth(noun: Text, k: Key)
    requires k != []
    ensures |Print(Array([String(noun), Array(C.Strings(k))]))| == |EscapeAll(noun)| + Width(k) + 6
  {
    hide EscapeAll;
    ItemsWidth(k);
    var pair := [String(noun), Array(C.Strings(k))];
    assert pair[1..] == [Array(C.Strings(k))];
    assert |PrintItems(pair[1..])| == |Print(Array(C.Strings(k)))| + 1;
    assert |PrintItems(pair)| == |PrintString(noun)| + 1 + |PrintItems(pair[1..])|;
  }

  /** A cursor is too long exactly when its JSON text has more than three bytes for every four characters admitted. */
  lemma TooLongExactly(kind: Kind, k: Key)
    requires k != [] && kind.length % 4 == 0
    ensures TooLong(kind, k) <==> |EscapeAll(kind.noun)| + Width(k) + 6 > kind.length / 4 * 3
  {
    hide C.Bytes, C.Ascii, EscapeAll, Width;
    var v := Array([String(kind.noun), Array(C.Strings(k))]);
    C.PrintAscii(v);
    B64.UnpaddedLength(C.Bytes(Print(v)));
    KeyWidth(kind.noun, k);
    Quarters(|Print(v)|, |C.EncodeKey(kind.noun, k)|, kind.length);
  }

  lemma Quarters(bytes: nat, chars: nat, length: nat)
    requires 3 * chars == 4 * bytes + B64.Padding(bytes) && length % 4 == 0
    ensures chars > length <==> bytes > length / 4 * 3
  {
    PaddingOf(bytes);
    var quarter := length / 4;
    assert length == 4 * quarter;
  }

  lemma {:induction false} PaddingOf(n: nat)
    ensures B64.Padding(n) <= 2 && (n % 3 == 0 ==> B64.Padding(n) == 0)
  {
    if n > 3 { PaddingOf(n - 3); }
  }

  lemma {:induction false} PlainWidth(t: Text)
    requires forall i | 0 <= i < |t| :: 0x61 <= t[i] <= 0x7A
    ensures |EscapeAll(t)| == |t|
  {
    if t != [] { PlainWidth(t[1..]); }
  }

  /**
   The membership listing refuses its own cursor exactly when the three texts of the key print at more than 743
   characters.
   */
  lemma MembershipCursorTooLong(k: Key)
    requires |k| == 3
    ensures TooLong(MEMBERSHIPS, k) <==> |EscapeAll(k[0])| + |EscapeAll(k[1])| + |EscapeAll(k[2])| > 743
  {
    hide EscapeAll, TooLong;
    PlainWidth(MEMBERSHIPS.noun);
    TooLongExactly(MEMBERSHIPS, k);
    assert Width(k) == |EscapeAll(k[0])| + 3 + Width(k[1..]);
    assert Width(k[1..]) == |EscapeAll(k[1])| + 3 + Width(k[1..][1..]);
    assert Width(k[1..][1..]) == |EscapeAll(k[2])| + 3 + Width([]);
  }

  /** The user listing refuses its own cursor exactly when the username prints at more than 371 characters. */
  lemma UserCursorTooLong(username: Text)
    ensures TooLong(USERS, [username]) <==> |EscapeAll(username)| > 371
  {
    hide EscapeAll, TooLong;
    PlainWidth(USERS.noun);
    TooLongExactly(USERS, [username]);
  }

  /** A code point that prints as an escape of at least six characters. */
  predicate Wide(c: CodePoint) { c >= 0x7F }

  lemma {:induction false} WidePrintsLong(t: Text)
    requires forall i | 0 <= i < |t| :: Wide(t[i])
    ensures |EscapeAll(t)| >= 6 * |t|
  {
    if t != [] { WidePrintsLong(t[1..]); }
  }

  /** Names of code points outside ASCII make such cursors well within their own limits: 124 of 200, and 62 of 64. */
  lemma WideNamesTooLong(k: Key, username: Text)
    requires |k| == 3 && |k[0]| >= 124 && forall i | 0 <= i < |k[0]| :: Wide(k[0][i])
    requires |username| >= 62 && forall i | 0 <= i < |username| :: Wide(username[i])
    ensures TooLong(MEMBERSHIPS, k) && TooLong(USERS, [username])
  {
    hide EscapeAll, TooLong;
    WidePrintsLong(k[0]);
    WidePrintsLong(username);
    MembershipCursorTooLong(k);
    UserCursorTooLong(username);
  }
}
