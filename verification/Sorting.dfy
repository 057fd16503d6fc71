/** Stable sorting by a strict order that may leave elements tied, and what makes its result unique. */
module Sorting {

  /** lt never holds both ways, and neither it nor its ties break transitivity. */
  ghost predicate WeakOrder<T(!new)>(lt: (T, T) -> bool) {
    && (forall a, b :: lt(a, b) ==> !lt(b, a))
    && (forall a, b, c :: !lt(b, a) && !lt(c, b) ==> !lt(c, a))
  }

  ghost predicate Ordered<T>(s: seq<T>, before: (T, T) -> bool) {
    forall i, j | 0 <= i < j < |s| :: before(s[i], s[j])
  }

  /** Puts x in front of the elements it is not after, so it stays in front of its ties. */
  function Insert<T>(x: T, s: seq<T>, lt: (T, T) -> bool): seq<T> {
    if s == [] || !lt(s[0], x) then [x] + s else [s[0]] + Insert(x, s[1..], lt)
  }

  function StableSort<T>(s: seq<T>, lt: (T, T) -> bool): seq<T> {
    if s == [] then [] else Insert(s[0], StableSort(s[1..], lt), lt)
  }

  lemma {:induction false} InsertKeeps<T>(x: T, s: seq<T>, lt: (T, T) -> bool)
    ensures multiset(Insert(x, s, lt)) == multiset(s) + multiset{x}
  {
    if s == [] || !lt(s[0], x) {
    } else {
      InsertKeeps(x, s[1..], lt);
      assert s == [s[0]] + s[1..];
    }
  }

  /** Sorting only rearranges. */
  lemma {:induction false} SortPermutes<T>(s: seq<T>, lt: (T, T) -> bool)
    ensures multiset(StableSort(s, lt)) == multiset(s) && |StableSort(s, lt)| == |s|
  {
    if s != [] {
      SortPermutes(s[1..], lt);
      InsertKeeps(s[0], StableSort(s[1..], lt), lt);
      assert s == [s[0]] + s[1..];
    }
    assert |multiset(StableSort(s, lt))| == |multiset(s)|;
  }

  lemma SameMembers<T>(s: seq<T>, r: seq<T>)
    requires multiset(s) == multiset(r)
    ensures forall x :: x in s <==> x in r
  {
    assert forall x :: x in s <==> x in multiset(s);
    assert forall x :: x in r <==> x in multiset(r);
  }

  /** First by lt, and among its ties by the order there was. */
  function Then<T>(lt: (T, T) -> bool, before: (T, T) -> bool): (T, T) -> bool {
    (a, b) => lt(a, b) || (!lt(b, a) && before(a, b))
  }

  lemma {:induction false} InsertOrdered<T(!new)>(x: T, s: seq<T>, lt: (T, T) -> bool, before: (T, T) -> bool)
    requires WeakOrder(lt) && Ordered(s, Then(lt, before))
    requires forall y :: y in s ==> before(x, y)
    ensures Ordered(Insert(x, s, lt), Then(lt, before))
    decreases |s|
  {
    var both := Then(lt, before);
    if s == [] {
    } else if !lt(s[0], x) {
      forall j | 0 <= j < |s| ensures both(x, s[j]) {
        assert before(x, s[j]);
        if j > 0 { assert both(s[0], s[j]); }
      }
    } else {
      InsertOrdered(x, s[1..], lt, before);
      var rest := Insert(x, s[1..], lt);
      InsertKeeps(x, s[1..], lt);
      forall j | 0 <= j < |rest| ensures both(s[0], rest[j]) {
        assert rest[j] in multiset(rest);
        if rest[j] in s[1..] {
          var i :| 0 <= i < |s[1..]| && s[1..][i] == rest[j];
          assert both(s[0], s[i + 1]);
        } else {
          assert rest[j] == x;
        }
      }
    }
  }

  /** One stable pass over a list ordered by one relation orders it by the pass first and that relation next. */
  lemma {:induction false} StablePass<T(!new)>(s: seq<T>, lt: (T, T) -> bool, before: (T, T) -> bool)
    requires WeakOrder(lt) && Ordered(s, before)
    ensures Ordered(StableSort(s, lt), Then(lt, before))
    decreases |s|
  {
    if s != [] {
      StablePass(s[1..], lt, before);
      SortPermutes(s[1..], lt);
      SameMembers(StableSort(s[1..], lt), s[1..]);
      InsertOrdered(s[0], StableSort(s[1..], lt), lt, before);
    }
  }

  /** The first element comes before every other. */
  lemma FirstBefore<T>(s: seq<T>, before: (T, T) -> bool, x: T)
    requires s != [] && Ordered(s, before) && x in s
    ensures x == s[0] || before(s[0], x)
  {
    var i :| 0 <= i < |s| && s[i] == x;
  }

  ghost predicate Strict<T(!new)>(before: (T, T) -> bool) {
    forall x, y :: before(x, y) ==> !before(y, x)
  }

  ghost predicate SameElements<T(!new)>(a: seq<T>, b: seq<T>) {
    forall x :: x in a <==> x in b
  }

  lemma SameFirst<T(!new)>(a: seq<T>, b: seq<T>, before: (T, T) -> bool)
    requires a != [] && b != [] && Ordered(a, before) && Ordered(b, before) && SameElements(a, b) && Strict(before)
    ensures a[0] == b[0]
  {
    assert a[0] in b && b[0] in a;
    FirstBefore(b, before, a[0]);
    FirstBefore(a, before, b[0]);
  }

  lemma SameRest<T(!new)>(a: seq<T>, b: seq<T>, before: (T, T) -> bool)
    requires a != [] && b != [] && a[0] == b[0] && SameElements(a, b)
    requires Ordered(a, before) && Ordered(b, before) && Strict(before)
    ensures SameElements(a[1..], b[1..])
  {
    RestOf(a, before);
    RestOf(b, before);
  }

  lemma RestOf<T(!new)>(s: seq<T>, before: (T, T) -> bool)
    requires s != [] && Ordered(s, before) && Strict(before)
    ensures forall x :: x in s[1..] <==> x in s && x != s[0]
  {
    assert forall x :: x in s <==> x == s[0] || x in s[1..];
    forall i | 1 <= i < |s| ensures s[i] != s[0] { assert before(s[0], s[i]); }
  }

  /** A strict order leaves one arrangement of given elements. */
  lemma {:induction false} OrderedUnique<T(!new)>(a: seq<T>, b: seq<T>, before: (T, T) -> bool)
    requires Ordered(a, before) && Ordered(b, before) && SameElements(a, b) && Strict(before)
    ensures a == b
    decreases |a|
  {
    assert b != [] ==> b[0] in a;
    if a != [] {
      assert a[0] in b;
      SameFirst(a, b, before);
      SameRest(a, b, before);
      OrderedUnique(a[1..], b[1..], before);
    }
  }
}
