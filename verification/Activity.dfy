/**
 The activity feed: record history paged in chronological order under a high-water mark fixed by the first
 page, a row limit and a byte budget, with oversized text shortened to an excerpt.
 */
module Activity {
  import opened Options
  import J = Json
  import S = Sorting

  const PAGE_BYTES := 262144
  const ITEM_BYTES := PAGE_BYTES - 8192
  const BUDGET := PAGE_BYTES - 4096

  // ---------------------------------------------------------------- one item

  /** A feed item: the two texts that may give way, its other texts, and the bytes of the rest of its JSON. */
  datatype Item = Item(body: Option<J.Text>, caption: Option<J.Text>, truncated: bool, fields: seq<J.Text>, frame: nat)

  /** A text as a JSON string, or null. */
  function TextBytes(t: Option<J.Text>): nat { if t.None? then 4 else |J.PrintString(t.value)| }

  function FieldBytes(fields: seq<J.Text>): nat {
    if fields == [] then 0 else |J.PrintString(fields[0])| + FieldBytes(fields[1..])
  }

  function Bytes(item: Item): nat {
    item.frame + FieldBytes(item.fields) + TextBytes(item.body) + TextBytes(item.caption)
    + if item.truncated then 4 else 5
  }

  function TextValue(t: Option<J.Text>): J.Value { if t.None? then J.Null else J.String(t.value) }

  /** An item's bytes are those of its printed values and of the frame around them. */
  lemma BytesPrinted(item: Item)
    ensures Bytes(item) == item.frame + FieldBytes(item.fields) + |J.Print(TextValue(item.body))|
                         + |J.Print(TextValue(item.caption))| + |J.Print(J.Bool(item.truncated))|
  {
    assert |"null"| == 4 && |"true"| == 4 && |"false"| == 5;
  }

  /** The text that gives way: the body if there is one, otherwise the caption. */
  function Text(item: Item): J.Text {
    if item.body.Some? then item.body.value else item.caption.UnwrapOr([])
  }

  function WithText(item: Item, t: J.Text): Item {
    if item.body.Some? then item.(body := Some(t), truncated := true)
    else if item.caption.Some? then item.(caption := Some(t), truncated := true)
    else item
  }

  /** Halve the text until the item fits or no text is left. */
  function Shrunk(item: Item): Item
    decreases |Text(item)|
  {
    if Bytes(item) <= ITEM_BYTES || Text(item) == [] then item
    else Shrunk(WithText(item, Text(item)[..|Text(item)| / 2]))
  }

  /** The loop that shortens an item. */
  method Shrink(item: Item) returns (shown: Item)
    ensures shown == Shrunk(item)
  {
    shown := item;
    while Bytes(shown) > ITEM_BYTES
      invariant Shrunk(shown) == Shrunk(item)
      decreases |Text(shown)|
    {
      var value := Text(shown);
      if value == [] { break; }
      shown := WithText(shown, value[..|value| / 2]);
    }
  }

  /** Only the text changes, to a prefix of itself, and the flag is raised exactly when it was shortened. */
  lemma {:induction false} ShrunkIsExcerpt(item: Item)
    ensures var shown := Shrunk(item);
      && Text(shown) <= Text(item)
      && shown == (if Text(shown) == Text(item) then item else WithText(item, Text(shown)))
      && (!item.truncated ==> (shown.truncated <==> Text(shown) != Text(item)))
    ensures var shown := Shrunk(item);
      && shown.fields == item.fields && shown.frame == item.frame
      && (item.body.Some? ==> shown.caption == item.caption && shown.body.Some? && shown.body.value <= item.body.value)
      && (item.body.None? ==> shown.body.None?)
      && (item.body.None? && item.caption.Some? ==> shown.caption.Some? && shown.caption.value <= item.caption.value)
      && (item.body.None? && item.caption.None? ==> shown == item)
      && (shown.body == item.body && shown.caption == item.caption ==> shown.truncated == item.truncated)
      && (shown.body != item.body || shown.caption != item.caption ==> shown.truncated)
    decreases |Text(item)|
  {
    if Bytes(item) > ITEM_BYTES && Text(item) != [] {
      ShrunkIsExcerpt(WithText(item, Text(item)[..|Text(item)| / 2]));
    }
  }

  /** An item fits after shortening exactly when it fits as it is or would fit with its text emptied. */
  lemma {:induction false} ShrunkFits(item: Item)
    ensures Bytes(Shrunk(item)) <= ITEM_BYTES
        <==> Bytes(item) <= ITEM_BYTES || (Text(item) != [] && Bytes(WithText(item, [])) <= ITEM_BYTES)
    decreases |Text(item)|
  {
    if Bytes(item) > ITEM_BYTES && Text(item) != [] {
      var half := WithText(item, Text(item)[..|Text(item)| / 2]);
      ShrunkFits(half);
      assert WithText(half, []) == WithText(item, []);
      assert Text(half) == [] ==> half == WithText(item, []);
      EmptyIsLeast(half);
    }
  }

  lemma EmptyIsLeast(item: Item)
    ensures Bytes(WithText(item, [])) <= Bytes(item)
  {
    assert J.EscapeAll([]) == "";
  }

  /** No more is cut than it takes: the excerpt is the first half of a prefix that was still too long. */
  lemma {:induction false} ShrunkNoFurther(item: Item) returns (longer: J.Text)
    requires Shrunk(item) != item
    ensures longer <= Text(item) && Text(Shrunk(item)) == longer[..|longer| / 2]
    ensures longer != [] && Bytes(if longer == Text(item) then item else WithText(item, longer)) > ITEM_BYTES
    decreases |Text(item)|
  {
    var half := WithText(item, Text(item)[..|Text(item)| / 2]);
    if Shrunk(half) == half {
      longer := Text(item);
    } else {
      longer := ShrunkNoFurther(half);
    }
  }

  // ---------------------------------------------------------------- entries and their order

  /** One audit entry: its event's sequence number, time and id, its own id, and the item it shows. */
  datatype Entry = Entry(no: nat, at: nat, event: nat, entry: nat, item: Item)

  datatype Key = Key(at: nat, event: nat, entry: nat)

  function KeyOf(e: Entry): Key { Key(e.at, e.event, e.entry) }

  predicate Below(a: Key, b: Key) {
    a.at < b.at || (a.at == b.at && (a.event < b.event || (a.event == b.event && a.entry < b.entry)))
  }

  function Earlier(): (Entry, Entry) -> bool { (a: Entry, b: Entry) => Below(KeyOf(a), KeyOf(b)) }

  function Other(): (Entry, Entry) -> bool { (a: Entry, b: Entry) => a.entry != b.entry }

  /** Entry ids are unique. */
  ghost predicate Distinct(log: seq<Entry>) { S.Ordered(log, Other()) }

  function Newest(log: seq<Entry>, sees: Entry -> bool): nat {
    if log == [] then 0
    else
      var rest := Newest(log[1..], sees);
      if sees(log[0]) && log[0].no > rest then log[0].no else rest
  }

  /** What a request asks for; the permissions behind it are fixed by the cursor's scope. */
  datatype Query = Query(sees: Entry -> bool, wants: Entry -> bool, limit: nat)

  /** The entries a query selects, in log order: visible, wanted, at or below the high water and after the cursor. */
  function Chosen(log: seq<Entry>, q: Query, highWater: nat, after: Option<Key>): seq<Entry> {
    if log == [] then []
    else
      var e := log[0];
      (if q.sees(e) && q.wants(e) && e.no <= highWater && (after.None? || Below(after.value, KeyOf(e))) then [e]
        else [])
      + Chosen(log[1..], q, highWater, after)
  }

  function Rows(log: seq<Entry>, q: Query, highWater: nat, after: Option<Key>): seq<Entry> {
    S.StableSort(Chosen(log, q, highWater, after), Earlier())
  }

  // ---------------------------------------------------------------- one page

  function ItemSize(e: Entry): nat { Bytes(Shrunk(e.item)) + 2 }

  /** How many rows a page takes after size bytes of items. */
  function Taken(rows: seq<Entry>, limit: nat, size: nat): (k: nat)
    ensures k <= |rows| && k <= limit
    decreases |rows|
  {
    if rows == [] || limit == 0 || size + ItemSize(rows[0]) > BUDGET then 0
    else 1 + Taken(rows[1..], limit - 1, size + ItemSize(rows[0]))
  }

  function Shown(rows: seq<Entry>): seq<Item> { seq(|rows|, i requires 0 <= i < |rows| => Shrunk(rows[i].item)) }

  datatype Page = Page(items: seq<Item>, more: bool, next: Option<Key>, highWater: nat)

  function PageOf(rows: seq<Entry>, limit: nat, highWater: nat): Page {
    var k := Taken(rows, limit, 0);
    Page(Shown(rows[..k]), |rows| > k, if |rows| > k && k > 0 then Some(KeyOf(rows[k - 1])) else None, highWater)
  }

  /** The cursor of the next request: the high water of the first page and the last entry shown. */
  datatype Cursor = Cursor(highWater: nat, last: Key)

  function PlanActivity(log: seq<Entry>, q: Query, previous: Option<Cursor>): Option<Page> {
    var newest := Newest(log, q.sees);
    if previous.Some? && previous.value.highWater > newest then None
    else
      var highWater := if previous.Some? then previous.value.highWater else newest;
      Some(PageOf(Rows(log, q, highWater, if previous.Some? then Some(previous.value.last) else None), q.limit,
                  highWater))
  }

  /** Shows rows while they fit the limit and the budget. */
  method Fill(rows: seq<Entry>, limit: nat) returns (items: seq<Item>)
    ensures items == Shown(rows[..Taken(rows, limit, 0)])
  {
    hide ItemSize, Shown, Taken;
    items := [];
    var size: nat, k: nat := 0, 0;
    ShownMore(rows, 0);
    assert rows[k..] == rows;
    TakenStep(rows[k..], limit - k, size);
    while k < |rows| && k < limit
      invariant 0 <= k <= |rows| && k <= limit && items == Shown(rows[..k])
      invariant Taken(rows, limit, 0) == k + Taken(rows[k..], limit - k, size)
      invariant k == |rows| || k == limit ==> Taken(rows[k..], limit - k, size) == 0
    {
      TakenStep(rows[k..], limit - k, size);
      var item := Shrink(rows[k].item);
      SizeOf(rows[k], item);
      var itemSize := Bytes(item) + 2;
      if size + itemSize > BUDGET { return; }
      items, size := items + [item], size + itemSize;
      ShownMore(rows, k);
      assert rows[k..][1..] == rows[k + 1..];
      k := k + 1;
      TakenStep(rows[k..], limit - k, size);
    }
  }

  lemma TakenStep(rows: seq<Entry>, limit: nat, size: nat)
    ensures Taken(rows, limit, size) ==
      if rows == [] || limit == 0 || size + ItemSize(rows[0]) > BUDGET then 0
      else 1 + Taken(rows[1..], limit - 1, size + ItemSize(rows[0]))
  {
    hide ItemSize;
  }

  lemma ShownMore(rows: seq<Entry>, k: nat)
    requires k <= |rows|
    ensures Shown(rows[..0]) == []
    ensures k < |rows| ==> Shown(rows[..k + 1]) == Shown(rows[..k]) + [Shrunk(rows[k].item)]
  {
  }

  lemma SizeOf(e: Entry, shown: Item)
    requires shown == Shrunk(e.item)
    ensures ItemSize(e) == Bytes(shown) + 2
  {
  }

  /** Rows past the page's limit never change what it takes. */
  lemma {:induction false} TakenOfPrefix(rows: seq<Entry>, n: nat, limit: nat, size: nat)
    requires limit <= n <= |rows|
    ensures Taken(rows[..n], limit, size) == Taken(rows, limit, size)
    decreases n
  {
    hide ItemSize;
    if n > 0 && limit > 0 {
      TakenOfPrefix(rows[1..], n - 1, limit - 1, size + ItemSize(rows[0]));
      assert rows[..n][1..] == rows[1..][..n - 1];
    }
  }

  /** The query fetches one row more than the limit; the page loop fills the page and says whether any were left. */
  method Activity(log: seq<Entry>, q: Query, previous: Option<Cursor>) returns (page: Option<Page>)
    ensures page == PlanActivity(log, q, previous)
  {
    hide Rows, Newest, Taken;
    var newest := Newest(log, q.sees);
    var highWater := if previous.Some? then previous.value.highWater else newest;
    if highWater > newest { return None; }
    var all := Rows(log, q, highWater, if previous.Some? then Some(previous.value.last) else None);
    var rows := if |all| > q.limit + 1 then all[..q.limit + 1] else all;
    if |all| > q.limit + 1 { TakenOfPrefix(all, q.limit + 1, q.limit, 0); }
    var items := Fill(rows, q.limit);
    var k := |items|;
    assert rows[..k] == all[..k];
    var more := |rows| > k;
    page := Some(Page(items, more, if more && k > 0 then Some(KeyOf(rows[k - 1])) else None, highWater));
  }

  // ---------------------------------------------------------------- the rows behind the pages

  predicate Selects(q: Query, highWater: nat, after: Option<Key>, e: Entry) {
    q.sees(e) && q.wants(e) && e.no <= highWater && (after.None? || Below(after.value, KeyOf(e)))
  }

  lemma {:induction false} ChosenMembers(log: seq<Entry>, q: Query, highWater: nat, after: Option<Key>)
    ensures forall e :: e in Chosen(log, q, highWater, after) <==> e in log && Selects(q, highWater, after, e)
  {
    if log != [] {
      ChosenMembers(log[1..], q, highWater, after);
      assert forall e :: e in log <==> e == log[0] || e in log[1..];
    }
  }

  lemma {:induction false} ChosenDistinct(log: seq<Entry>, q: Query, highWater: nat, after: Option<Key>)
    requires Distinct(log)
    ensures Distinct(Chosen(log, q, highWater, after))
  {
    if log != [] {
      var rest := Chosen(log[1..], q, highWater, after);
      ChosenDistinct(log[1..], q, highWater, after);
      ChosenMembers(log[1..], q, highWater, after);
      forall j | 0 <= j < |rest| ensures log[0].entry != rest[j].entry {
        assert rest[j] in rest;
        var i :| 0 <= i < |log[1..]| && log[1..][i] == rest[j];
        assert Other()(log[0], log[i + 1]);
      }
    }
  }

  /** The rows are exactly the selected entries, in strictly increasing key order. */
  lemma RowsExactly(log: seq<Entry>, q: Query, highWater: nat, after: Option<Key>)
    requires Distinct(log)
    ensures S.Ordered(Rows(log, q, highWater, after), Earlier())
    ensures forall e :: e in Rows(log, q, highWater, after) <==> e in log && Selects(q, highWater, after, e)
  {
    hide Selects;
    var chosen := Chosen(log, q, highWater, after);
    ChosenDistinct(log, q, highWater, after);
    ChosenMembers(log, q, highWater, after);
    S.StablePass(chosen, Earlier(), Other());
    S.SortPermutes(chosen, Earlier());
    S.SameMembers(Rows(log, q, highWater, after), chosen);
    var rows := Rows(log, q, highWater, after);
    forall i, j | 0 <= i < j < |rows| ensures Earlier()(rows[i], rows[j]) {
      assert S.Then(Earlier(), Other())(rows[i], rows[j]);
    }
  }

  lemma SameRows(a: seq<Entry>, b: seq<Entry>)
    requires S.Ordered(a, Earlier()) && S.Ordered(b, Earlier()) && forall e :: e in a <==> e in b
    ensures a == b
  {
    S.OrderedUnique(a, b, Earlier());
  }

  /** Entries of later events only. */
  ghost predicate Appends(log: seq<Entry>, grown: seq<Entry>) {
    log <= grown && forall a, b :: a in log && b in grown[|log|..] ==> a.no < b.no
  }

  lemma {:induction false} NewestIs(log: seq<Entry>, sees: Entry -> bool)
    ensures forall e :: e in log && sees(e) ==> e.no <= Newest(log, sees)
    ensures Newest(log, sees) == 0 || exists e :: e in log && sees(e) && e.no == Newest(log, sees)
  {
    if log != [] {
      NewestIs(log[1..], sees);
      assert forall e :: e in log <==> e == log[0] || e in log[1..];
    }
  }

  lemma GrownSplit(log: seq<Entry>, grown: seq<Entry>)
    requires log <= grown
    ensures forall e :: e in grown <==> e in log || e in grown[|log|..]
  {
    assert grown == log + grown[|log|..];
  }

  /** Nothing appended after the first page gets under its high water. */
  lemma RowsStable(log: seq<Entry>, grown: seq<Entry>, q: Query, after: Option<Key>)
    requires Distinct(log) && Distinct(grown) && Appends(log, grown) && forall e :: e in grown ==> e.no >= 1
    ensures Rows(grown, q, Newest(log, q.sees), after) == Rows(log, q, Newest(log, q.sees), after)
    ensures Newest(log, q.sees) <= Newest(grown, q.sees)
  {
    hide Newest, Rows;
    var high := Newest(log, q.sees);
    NewestIs(log, q.sees);
    NewestIs(grown, q.sees);
    GrownSplit(log, grown);
    RowsExactly(log, q, high, after);
    RowsExactly(grown, q, high, after);
    forall e | e in grown[|log|..] ensures e.no > high {
      if high > 0 { var x :| x in log && q.sees(x) && x.no == high; }
    }
    SameRows(Rows(grown, q, high, after), Rows(log, q, high, after));
  }

  /** After the k-th row's key come exactly the rows after the k-th. */
  lemma RowsAfter(log: seq<Entry>, q: Query, highWater: nat, k: nat)
    requires Distinct(log) && 0 < k <= |Rows(log, q, highWater, None)|
    ensures var rows := Rows(log, q, highWater, None);
      Rows(log, q, highWater, Some(KeyOf(rows[k - 1]))) == rows[k..]
  {
    hide Rows;
    var rows := Rows(log, q, highWater, None);
    var key := KeyOf(rows[k - 1]);
    var after := Rows(log, q, highWater, Some(key));
    RowsExactly(log, q, highWater, None);
    RowsExactly(log, q, highWater, Some(key));
    TailMembers(rows, k);
    assert forall e :: e in after <==> e in rows && Below(key, KeyOf(e));
    SameRows(after, rows[k..]);
  }

  lemma NotBefore(rows: seq<Entry>, i: nat, k: nat)
    requires S.Ordered(rows, Earlier()) && i < |rows| && 0 < k <= |rows|
    ensures Below(KeyOf(rows[k - 1]), KeyOf(rows[i])) ==> i >= k
  {
    if i < k - 1 { assert Earlier()(rows[i], rows[k - 1]); }
  }

  lemma TailMembers(rows: seq<Entry>, k: nat)
    requires S.Ordered(rows, Earlier()) && 0 < k <= |rows|
    ensures forall e :: e in rows[k..] <==> e in rows && Below(KeyOf(rows[k - 1]), KeyOf(e))
  {
    forall e | e in rows[k..] ensures e in rows && Below(KeyOf(rows[k - 1]), KeyOf(e)) {
      var i :| 0 <= i < |rows[k..]| && rows[k..][i] == e;
      assert Earlier()(rows[k - 1], rows[k + i]);
    }
    forall e | e in rows && Below(KeyOf(rows[k - 1]), KeyOf(e)) ensures e in rows[k..] {
      var i :| 0 <= i < |rows| && rows[i] == e;
      NotBefore(rows, i, k);
      assert rows[k..][i - k] == e;
    }
  }

  // ---------------------------------------------------------------- progress

  predicate Oversize(e: Entry) { ItemSize(e) > BUDGET }

  /** The rows before the first that no page can hold. */
  function Deliverable(rows: seq<Entry>): (n: nat)
    ensures n <= |rows|
    ensures n < |rows| ==> Oversize(rows[n])
    ensures forall i | 0 <= i < n :: !Oversize(rows[i])
  {
    if rows == [] || Oversize(rows[0]) then 0 else 1 + Deliverable(rows[1..])
  }

  function Total(rows: seq<Entry>): nat { if rows == [] then 0 else ItemSize(rows[0]) + Total(rows[1..]) }

  /**
   A page's items stay within the budget; it takes a row unless there is none or the first is oversize, and
   never passes one that is.
   */
  lemma {:induction false} TakenBounds(rows: seq<Entry>, limit: nat, size: nat)
    requires size <= BUDGET
    ensures var k := Taken(rows, limit, size);
      && size + Total(rows[..k]) <= BUDGET
      && k <= Deliverable(rows)
      && (k < |rows| && k < limit ==> size + Total(rows[..k]) + ItemSize(rows[k]) > BUDGET)
    ensures limit >= 1 && size == 0 ==> (Taken(rows, limit, size) == 0 <==> Deliverable(rows) == 0)
    decreases |rows|
  {
    hide ItemSize;
    if rows == [] || limit == 0 || size + ItemSize(rows[0]) > BUDGET {
    } else {
      TakenBounds(rows[1..], limit - 1, size + ItemSize(rows[0]));
      var k := Taken(rows, limit, size);
      assert rows[..k][1..] == rows[1..][..k - 1];
    }
  }

  /**
   A page shows its first rows, as many as its limit and its bytes admit, and says more exactly when it leaves rows; it
   has a next cursor, the key of the last row shown, exactly when it both leaves and shows some.
   */
  lemma PageExactly(rows: seq<Entry>, limit: nat, highWater: nat)
    ensures var page := PageOf(rows, limit, highWater);
      var k := |page.items|;
      && k <= |rows| && k <= limit && page.highWater == highWater
      && (forall i | 0 <= i < k :: page.items[i] == Shrunk(rows[i].item))
      && Total(rows[..k]) <= BUDGET
      && (k < |rows| && k < limit ==> Total(rows[..k]) + ItemSize(rows[k]) > BUDGET)
      && (page.more <==> k < |rows|)
      && (page.next.Some? <==> 0 < k < |rows|)
      && (page.next.Some? ==> page.next.value == Key(rows[k - 1].at, rows[k - 1].event, rows[k - 1].entry))
  {
    hide Taken, ItemSize;
    TakenBounds(rows, limit, 0);
  }

  /** An entry whose text is all that makes it long is never oversize. */
  lemma NotOversize(e: Entry)
    requires Bytes(e.item) <= ITEM_BYTES || (Text(e.item) != [] && Bytes(WithText(e.item, [])) <= ITEM_BYTES)
    ensures !Oversize(e)
  {
    ShrunkFits(e.item);
  }

  const FIELDS := 15
  const FIELD_LENGTH := 512
  const FRAME_BYTES := 1024

  /**
   What the log stores of an entry: at most the fifteen other texts, none longer than the 512 code points its
   summary is cut to; a note has no caption and a file no body; and nothing is shortened yet.
   */
  ghost predicate Recorded(item: Item) {
    && |item.fields| <= FIELDS && (forall i | 0 <= i < |item.fields| :: |item.fields[i]| <= FIELD_LENGTH)
    && item.frame <= FRAME_BYTES && (item.body.None? || item.caption.None?) && !item.truncated
  }

  /** A code point prints as at most twelve characters. */
  lemma {:induction false} EscapeAllWidth(t: J.Text)
    ensures |J.EscapeAll(t)| <= 12 * |t|
  {
    hide J.Escape;
    if t != [] {
      EscapeWidth(t[0]);
      EscapeAllWidth(t[1..]);
    }
  }

  lemma EscapeWidth(c: J.CodePoint)
    ensures |J.Escape(c)| <= 12
  {
    hide J.HexDigit;
  }

  lemma {:induction false} FieldsWidth(fields: seq<J.Text>)
    requires forall i | 0 <= i < |fields| :: |fields[i]| <= FIELD_LENGTH
    ensures FieldBytes(fields) <= (12 * FIELD_LENGTH + 2) * |fields|
  {
    hide J.EscapeAll;
    if fields != [] {
      EscapeAllWidth(fields[0]);
      FieldsWidth(fields[1..]);
    }
  }

  /** So no entry of the log is oversize. */
  lemma RecordedFits(e: Entry)
    requires Recorded(e.item)
    ensures !Oversize(e)
  {
    hide Oversize, FieldBytes, J.EscapeAll;
    FieldsWidth(e.item.fields);
    EmptyWidth();
    if Text(e.item) == [] { EmptyText(e.item); }
    NotOversize(e);
  }

  lemma EmptyWidth()
    ensures J.EscapeAll([]) == ""
  {
  }

  lemma EmptyText(item: Item)
    requires Text(item) == [] && (item.body.None? || item.caption.None?)
    ensures TextBytes(item.body) + TextBytes(item.caption) <= 8
  {
    EmptyWidth();
  }

  lemma {:induction false} DeliverableRest(rows: seq<Entry>, k: nat)
    requires k <= Deliverable(rows)
    ensures Deliverable(rows[k..]) == Deliverable(rows) - k
  {
    if k == 0 {
      assert rows[0..] == rows;
    } else {
      DeliverableRest(rows[1..], k - 1);
      assert rows[1..][k - 1..] == rows[k..];
    }
  }

  // ---------------------------------------------------------------- following the cursors

  datatype Ending = Finished | Stuck | Refused | MoreToCome

  datatype Walked = Walked(items: seq<Item>, ending: Ending)

  /** Following next cursors, one request on each state of the log, until a page has no cursor. */
  function Walk(q: Query, logs: seq<seq<Entry>>, previous: Option<Cursor>): Walked
    decreases |logs|
  {
    if logs == [] then Walked([], MoreToCome)
    else
      match PlanActivity(logs[0], q, previous)
      case None => Walked([], Refused)
      case Some(page) =>
        if page.next.None? then Walked(page.items, if page.more then Stuck else Finished)
        else
          var rest := Walk(q, logs[1..], Some(Cursor(page.highWater, page.next.value)));
          Walked(page.items + rest.items, rest.ending)
  }

  ghost predicate Growing(logs: seq<seq<Entry>>) {
    && (forall i | 0 <= i < |logs| :: Distinct(logs[i]) && forall e :: e in logs[i] ==> e.no >= 1)
    && (forall i, j | 0 <= i < j < |logs| :: Appends(logs[i], logs[j]))
  }

  function CursorAt(rows: seq<Entry>, highWater: nat, k: nat): Option<Cursor>
    requires k <= |rows|
  {
    if k == 0 then None else Some(Cursor(highWater, KeyOf(rows[k - 1])))
  }

  /** The log at the first request, or what it has become since. */
  ghost predicate Since(first: seq<Entry>, log: seq<Entry>) {
    Distinct(log) && (log == first || Appends(first, log)) && forall e :: e in log ==> e.no >= 1
  }

  /** Whatever the log has become, the k-th cursor's page is cut from the first request's rows after the k-th. */
  lemma PageThere(first: seq<Entry>, log: seq<Entry>, q: Query, k: nat)
    requires Distinct(first) && Since(first, log) && (k == 0 ==> log == first)
    requires k <= |Rows(first, q, Newest(first, q.sees), None)|
    ensures var high := Newest(first, q.sees);
      var rows := Rows(first, q, high, None);
      PlanActivity(log, q, CursorAt(rows, high, k)) == Some(PageOf(rows[k..], q.limit, high))
  {
    hide Rows, Newest;
    var high := Newest(first, q.sees);
    var rows := Rows(first, q, high, None);
    if k > 0 { RowsAfter(first, q, high, k); } else { assert rows[0..] == rows; }
    if log != first { RowsStable(first, log, q, if k > 0 then Some(KeyOf(rows[k - 1])) else None); }
  }

  function Rest(rows: seq<Entry>, k: nat): Walked
    requires k <= Deliverable(rows)
  {
    Walked(Shown(rows[k..Deliverable(rows)]), if Deliverable(rows) == |rows| then Finished else Stuck)
  }

  lemma ShownSplit(rows: seq<Entry>, k: nat, m: nat, n: nat)
    requires k + m <= n <= |rows|
    ensures Shown(rows[k..][..m]) + Shown(rows[k + m..n]) == Shown(rows[k..n])
  {
    assert rows[k..][..m] == rows[k..k + m];
    assert rows[k..k + m] + rows[k + m..n] == rows[k..n];
  }

  /** How far a page reaches from the k-th row. */
  lemma PageReach(rows: seq<Entry>, limit: nat, k: nat)
    requires limit >= 1 && k <= Deliverable(rows)
    ensures var m := Taken(rows[k..], limit, 0);
      k + m <= Deliverable(rows) && (m == 0 ==> k == Deliverable(rows))
  {
    hide Oversize, ItemSize;
    TakenBounds(rows[k..], limit, 0);
    DeliverableRest(rows, k);
  }

  /** One page and what a walk after it delivers. */
  lemma PageThenRest(rows: seq<Entry>, limit: nat, highWater: nat, k: nat)
    requires limit >= 1 && k <= Deliverable(rows)
    ensures var page, m := PageOf(rows[k..], limit, highWater), Taken(rows[k..], limit, 0);
      && k + m <= Deliverable(rows)
      && (page.next.Some? ==> m > 0 && page.next == Some(KeyOf(rows[k + m - 1])))
      && Rest(rows, k) == (if page.next.None? then Walked(page.items, if page.more then Stuck else Finished)
                           else Walked(page.items + Rest(rows, k + m).items, Rest(rows, k + m).ending))
  {
    hide Oversize, ItemSize, Shown, KeyOf;
    var m, n := Taken(rows[k..], limit, 0), Deliverable(rows);
    PageReach(rows, limit, k);
    ShownSplit(rows, k, m, n);
    if k + m == n { assert rows[k..][..m] == rows[k..n]; }
  }

  /** One more request: refused, last, or followed by the rest. */
  lemma WalkStep(q: Query, logs: seq<seq<Entry>>, previous: Option<Cursor>)
    requires logs != []
    ensures var plan := PlanActivity(logs[0], q, previous);
      && (plan.None? ==> Walk(q, logs, previous) == Walked([], Refused))
      && (plan.Some? && plan.value.next.None? ==>
          Walk(q, logs, previous) == Walked(plan.value.items, if plan.value.more then Stuck else Finished))
      && (plan.Some? && plan.value.next.Some? ==>
          var rest := Walk(q, logs[1..], Some(Cursor(plan.value.highWater, plan.value.next.value)));
          Walk(q, logs, previous) == Walked(plan.value.items + rest.items, rest.ending))
  {
    hide PlanActivity;
  }

  /** A walk from the k-th cursor delivers the deliverable rows after the k-th. */
  lemma {:induction false} WalkRows(first: seq<Entry>, q: Query, logs: seq<seq<Entry>>, k: nat)
    requires Distinct(first) && q.limit >= 1
    requires var rows := Rows(first, q, Newest(first, q.sees), None);
      k <= Deliverable(rows) && |logs| > |rows| - k && (k == 0 ==> logs[0] == first)
    requires forall i | 0 <= i < |logs| :: Since(first, logs[i])
    ensures var high := Newest(first, q.sees);
      var rows := Rows(first, q, high, None);
      Walk(q, logs, CursorAt(rows, high, k)) == Rest(rows, k)
    decreases |logs|
  {
    hide Rows, Newest, PlanActivity, PageOf, Since, Rest, Walk, Taken, Deliverable, KeyOf;
    var high := Newest(first, q.sees);
    var rows := Rows(first, q, high, None);
    PageThere(first, logs[0], q, k);
    WalkStep(q, logs, CursorAt(rows, high, k));
    PageThenRest(rows, q.limit, high, k);
    var page, m := PageOf(rows[k..], q.limit, high), Taken(rows[k..], q.limit, 0);
    PageWater(rows[k..], q.limit, high);
    if page.next.Some? {
      WalkRows(first, q, logs[1..], k + m);
    }
  }

  lemma PageWater(rows: seq<Entry>, limit: nat, highWater: nat)
    ensures PageOf(rows, limit, highWater).highWater == highWater
  {
  }

  /**
   Following the cursors to the end delivers every wanted entry there was at the first request, once each and
   in order, whatever was appended meanwhile; or, exactly when one of them is too large for any page, it
   delivers those before the first such entry and stops with more to show and no cursor.
   */
  lemma FeedComplete(q: Query, logs: seq<seq<Entry>>)
    requires Growing(logs) && logs != [] && q.limit >= 1
    requires |logs| > |Rows(logs[0], q, Newest(logs[0], q.sees), None)|
    ensures var rows := Rows(logs[0], q, Newest(logs[0], q.sees), None);
      var walked := Walk(q, logs, None);
      && (walked.ending == Finished <==> forall i | 0 <= i < |rows| :: !Oversize(rows[i]))
      && (walked.ending == Stuck <==> exists i | 0 <= i < |rows| :: Oversize(rows[i]))
      && walked.items == Shown(rows[..Deliverable(rows)])
  {
    hide Rows, Newest, Walk, Oversize, Shown;
    var rows := Rows(logs[0], q, Newest(logs[0], q.sees), None);
    WalkRows(logs[0], q, logs, 0);
  }

  /** Entries as the log stores them are all delivered: the feed always finishes. */
  lemma FeedFinishes(q: Query, logs: seq<seq<Entry>>)
    requires Growing(logs) && logs != [] && q.limit >= 1
    requires forall e | e in logs[0] :: Recorded(e.item)
    requires |logs| > |Rows(logs[0], q, Newest(logs[0], q.sees), None)|
    ensures var rows := Rows(logs[0], q, Newest(logs[0], q.sees), None);
      Walk(q, logs, None) == Walked(Shown(rows), Finished)
  {
    hide Rows, Newest, Walk, Oversize, Shown, Recorded;
    var rows := Rows(logs[0], q, Newest(logs[0], q.sees), None);
    FeedComplete(q, logs);
    RowsExactly(logs[0], q, Newest(logs[0], q.sees), None);
    forall i | 0 <= i < |rows| ensures !Oversize(rows[i]) {
      assert rows[i] in logs[0];
      RecordedFits(rows[i]);
    }
    assert rows[..|rows|] == rows;
  }

  /** What those entries are: everything visible and wanted in the log of the first request, strictly in order. */
  lemma FeedRows(log: seq<Entry>, q: Query)
    requires Distinct(log)
    ensures var rows := Rows(log, q, Newest(log, q.sees), None);
      && (forall e :: e in rows <==> e in log && q.sees(e) && q.wants(e))
      && (forall i, j | 0 <= i < j < |rows| :: Before(rows[i], rows[j]))
  {
    hide Rows, Newest;
    NewestIs(log, q.sees);
    RowsExactly(log, q, Newest(log, q.sees), None);
    var rows := Rows(log, q, Newest(log, q.sees), None);
    forall i, j | 0 <= i < j < |rows| ensures Before(rows[i], rows[j]) {
      assert Earlier()(rows[i], rows[j]);
    }
  }

  /** The time comes first, then the event, then the entry within it. */
  predicate Before(a: Entry, b: Entry) {
    || a.at < b.at
    || (a.at == b.at && a.event < b.event)
    || (a.at == b.at && a.event == b.event && a.entry < b.entry)
  }
}
