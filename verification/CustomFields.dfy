/**
 Custom-field definitions: planning on a copy while capturing ids, applying by replaying them, and the sorted
 listing.
 */
module CustomFields {
  import opened Options
  import S = Sorting

  type Id = nat

  // ---------------------------------------------------------------- planning and replaying

  /**
   A deterministic change of a database that draws new ids as it goes: from the database it found and the
   ids drawn so far it either asks for another or is done with a result.
   */
  datatype Mutation<!Db> = Mutation(asks: (Db, seq<Id>) -> bool, result: (Db, seq<Id>) -> Db)

  datatype Drawn<Db> = Drawn(db: Db, ids: seq<Id>)

  /**
   The change carried out on a database against a supply of ids: its result and the ids it drew, or nothing if
   the supply ran out.
   */
  function Perform<Db>(m: Mutation<Db>, db: Db, drawn: seq<Id>, supply: seq<Id>): (r: Option<Drawn<Db>>)
    ensures r.Some? ==> drawn <= r.value.ids
    decreases |supply|
  {
    if !m.asks(db, drawn) then Some(Drawn(m.result(db, drawn), drawn))
    else if supply == [] then None
    else Perform(m, db, drawn + [supply[0]], supply[1..])
  }

  /** Drawing takes ids off the front of the supply, in order. */
  lemma {:induction false} DrawsInOrder<Db>(m: Mutation<Db>, db: Db, drawn: seq<Id>, supply: seq<Id>)
    requires Perform(m, db, drawn, supply).Some?
    ensures var ids := Perform(m, db, drawn, supply).value.ids;
      drawn <= ids <= drawn + supply
    decreases |supply|
  {
    if m.asks(db, drawn) {
      DrawsInOrder(m, db, drawn + [supply[0]], supply[1..]);
      assert drawn + [supply[0]] + supply[1..] == drawn + supply;
    }
  }

  /** On both databases the change asks alike at every id from the first ones on, and ends in the same result. */
  ghost predicate AnswersAlike<Db>(m: Mutation<Db>, a: Db, b: Db, first: nat, ids: seq<Id>) {
    && (forall k | first <= k <= |ids| :: m.asks(a, ids[..k]) == m.asks(b, ids[..k]))
    && m.result(a, ids) == m.result(b, ids)
  }

  /**
   What the live database makes of the ids captured on the planning copy: the planned result exactly when it
   answers alike.
   */
  lemma {:induction false} ReplayExactly<Db>(m: Mutation<Db>, copy: Db, live: Db, drawn: seq<Id>, supply: seq<Id>)
    requires Perform(m, copy, drawn, supply).Some?
    ensures var planned := Perform(m, copy, drawn, supply);
      var ids := planned.value.ids;
      && drawn <= ids
      && (Perform(m, live, drawn, ids[|drawn|..]) == planned <==> AnswersAlike(m, copy, live, |drawn|, ids))
    decreases |supply|
  {
    DrawsInOrder(m, copy, drawn, supply);
    var ids := Perform(m, copy, drawn, supply).value.ids;
    assert ids[..|drawn|] == drawn;
    if m.asks(copy, drawn) {
      var next := drawn + [supply[0]];
      DrawsInOrder(m, copy, next, supply[1..]);
      ReplayExactly(m, copy, live, next, supply[1..]);
      assert ids[|drawn|] == supply[0] && ids[|drawn|..][1..] == ids[|next|..];
      assert AnswersAlike(m, copy, live, |drawn|, ids) <==>
             m.asks(live, drawn) && AnswersAlike(m, copy, live, |next|, ids);
    } else {
      assert ids == drawn && ids[|drawn|..] == [];
      assert ids[..|ids|] == ids;
    }
  }

  /** With fewer ids than were captured the change cannot finish where it was planned. */
  lemma {:induction false} FewerRunOut<Db>(m: Mutation<Db>, db: Db, drawn: seq<Id>, supply: seq<Id>, n: nat)
    requires Perform(m, db, drawn, supply).Some?
    requires |drawn| + n < |Perform(m, db, drawn, supply).value.ids|
    ensures Perform(m, db, drawn, Perform(m, db, drawn, supply).value.ids[|drawn|..|drawn| + n]).None?
    decreases |supply|
  {
    DrawsInOrder(m, db, drawn, supply);
    var ids := Perform(m, db, drawn, supply).value.ids;
    var next := drawn + [supply[0]];
    DrawsInOrder(m, db, next, supply[1..]);
    if n > 0 {
      FewerRunOut(m, db, next, supply[1..], n - 1);
      assert ids[|drawn|..|drawn| + n][0] == supply[0];
      assert ids[|drawn|..|drawn| + n][1..] == ids[|next|..|next| + (n - 1)];
    }
  }

  /**
   Applied with the captured ids to a database equal to the copy it was planned on, a change reaches exactly
   the planned result and draws every captured id once, in order; with fewer it cannot finish.
   */
  lemma ReplayReaches<Db>(m: Mutation<Db>, copy: Db, live: Db, supply: seq<Id>)
    requires live == copy && Perform(m, copy, [], supply).Some?
    ensures var planned := Perform(m, copy, [], supply);
      var captured := planned.value.ids;
      && captured <= supply
      && Perform(m, live, [], captured) == planned
      && forall n | 0 <= n < |captured| :: Perform(m, live, [], captured[..n]).None?
  {
    hide Perform;
    DrawsInOrder(m, copy, [], supply);
    ReplayExactly(m, copy, live, [], supply);
    var captured := Perform(m, copy, [], supply).value.ids;
    assert [] + supply == supply && captured[0..] == captured;
    forall n | 0 <= n < |captured| ensures Perform(m, live, [], captured[..n]).None? {
      FewerRunOut(m, copy, [], supply, n);
      assert captured[0..0 + n] == captured[..n];
    }
  }

  // ---------------------------------------------------------------- the listing

  /** A definition with the sort rank of each field it can be filtered or ordered by. */
  datatype Definition = Definition(id: Id, active: bool, scopes: set<string>, ranks: map<string, int>)

  datatype Filter = Target(recordType: string) | Equals(field: string, value: int)

  datatype Term = Term(field: string, descending: bool)

  function Rank(d: Definition, field: string): int {
    if field == "active" then if d.active then 1 else 0
    else if field in d.ranks then d.ranks[field] else 0
  }

  predicate Passes(d: Definition, f: Filter) {
    match f
    case Target(recordType) => recordType in d.scopes
    case Equals(field, value) => Rank(d, field) == value
  }

  predicate FiltersActive(filters: seq<Filter>) {
    exists i | 0 <= i < |filters| :: filters[i].Equals? && filters[i].field == "active"
  }

  /** What a listing keeps: active rows unless asked otherwise, every filter met, and the query found. */
  predicate Kept(d: Definition, inactive: bool, filters: seq<Filter>, found: Definition -> bool) {
    && (inactive || FiltersActive(filters) || d.active)
    && (forall i | 0 <= i < |filters| :: Passes(d, filters[i]))
    && found(d)
  }

  function Keep(rows: seq<Definition>, p: Definition -> bool): seq<Definition> {
    if rows == [] then [] else (if p(rows[0]) then [rows[0]] else []) + Keep(rows[1..], p)
  }

  function ById(): (Definition, Definition) -> bool { (a: Definition, b: Definition) => a.id < b.id }

  function ByTerm(t: Term): (Definition, Definition) -> bool {
    (a: Definition, b: Definition) => if t.descending then Rank(b, t.field) < Rank(a, t.field)
      else Rank(a, t.field) < Rank(b, t.field)
  }

  /** By every term in turn, and by id where all of them tie. */
  function Lexicographic(terms: seq<Term>): (Definition, Definition) -> bool {
    if terms == [] then ById() else S.Then(ByTerm(terms[0]), Lexicographic(terms[1..]))
  }

  lemma {:induction false} LexicographicStrict(terms: seq<Term>)
    ensures forall a, b :: Lexicographic(terms)(a, b) ==> !Lexicographic(terms)(b, a)
  {
    if terms != [] { LexicographicStrict(terms[1..]); }
  }

  /** Any two definitions with different ids are ordered one way. */
  lemma {:induction false} LexicographicTotal(terms: seq<Term>, a: Definition, b: Definition)
    requires a.id != b.id
    ensures Lexicographic(terms)(a, b) || Lexicographic(terms)(b, a)
  {
    if terms != [] { LexicographicTotal(terms[1..], a, b); }
  }

  lemma {:induction false} KeepOrdered(rows: seq<Definition>, p: Definition -> bool,
                                       before: (Definition, Definition) -> bool)
    requires S.Ordered(rows, before)
    ensures S.Ordered(Keep(rows, p), before)
    ensures forall d :: d in Keep(rows, p) <==> d in rows && p(d)
  {
    if rows != [] {
      KeepOrdered(rows[1..], p, before);
      assert forall d :: d in rows <==> d == rows[0] || d in rows[1..];
      forall d | d in Keep(rows[1..], p) ensures before(rows[0], d) {
        var i :| 0 <= i < |rows[1..]| && rows[1..][i] == d;
        assert before(rows[0], rows[i + 1]);
      }
    }
  }

  /** Sorted by each term from the last to the first. */
  function Passed(rows: seq<Definition>, terms: seq<Term>): seq<Definition> {
    if terms == [] then rows else S.StableSort(Passed(rows, terms[1..]), ByTerm(terms[0]))
  }

  /** Stable passes from the last term to the first are one sort by all the terms with ties in id order. */
  lemma {:induction false} PassesAreLexicographic(rows: seq<Definition>, terms: seq<Term>)
    requires S.Ordered(rows, ById())
    ensures S.Ordered(Passed(rows, terms), Lexicographic(terms))
    ensures multiset(Passed(rows, terms)) == multiset(rows)
  {
    if terms != [] {
      PassesAreLexicographic(rows, terms[1..]);
      S.StablePass(Passed(rows, terms[1..]), ByTerm(terms[0]), Lexicographic(terms[1..]));
      S.SortPermutes(Passed(rows, terms[1..]), ByTerm(terms[0]));
    }
  }

  /** That order is the only one: whatever lists the same rows by all the terms lists them the same way. */
  lemma OneListing(rows: seq<Definition>, terms: seq<Term>, other: seq<Definition>)
    requires S.Ordered(rows, ById())
    requires S.Ordered(other, Lexicographic(terms)) && S.SameElements(other, rows)
    ensures other == Passed(rows, terms)
  {
    PassesAreLexicographic(rows, terms);
    LexicographicStrict(terms);
    S.SameMembers(rows, Passed(rows, terms));
    S.OrderedUnique(other, Passed(rows, terms), Lexicographic(terms));
  }

  /**
   a stands before b: at the first term where their ranks differ, a's is the smaller one ascending and the
   larger one descending; with no such term, its id is the smaller.
   */
  ghost predicate StandsBefore(a: Definition, b: Definition, terms: seq<Term>) {
    || (exists k | 0 <= k < |terms| :: TiesUpTo(a, b, terms, k) && Precedes(a, b, terms[k]))
    || (TiesUpTo(a, b, terms, |terms|) && a.id < b.id)
  }

  ghost predicate TiesUpTo(a: Definition, b: Definition, terms: seq<Term>, k: nat)
    requires k <= |terms|
  {
    forall j | 0 <= j < k :: Rank(a, terms[j].field) == Rank(b, terms[j].field)
  }

  predicate Precedes(a: Definition, b: Definition, t: Term) {
    if t.descending then Rank(a, t.field) > Rank(b, t.field) else Rank(a, t.field) < Rank(b, t.field)
  }

  lemma {:induction false} LexicographicMeans(terms: seq<Term>, a: Definition, b: Definition)
    ensures Lexicographic(terms)(a, b) <==> StandsBefore(a, b, terms)
  {
    if terms != [] {
      LexicographicMeans(terms[1..], a, b);
      var rest := terms[1..];
      if Rank(a, terms[0].field) == Rank(b, terms[0].field) {
        forall k | 0 <= k <= |rest| ensures TiesUpTo(a, b, terms, k + 1) <==> TiesUpTo(a, b, rest, k) {
          forall j | 0 <= j < k ensures terms[j + 1] == rest[j] {}
          if TiesUpTo(a, b, terms, k + 1) {
            forall j | 0 <= j < k ensures Rank(a, rest[j].field) == Rank(b, rest[j].field) {
              assert rest[j] == terms[j + 1];
            }
          }
        }
        if StandsBefore(a, b, rest) {
          if k :| 0 <= k < |rest| && TiesUpTo(a, b, rest, k) && Precedes(a, b, rest[k]) {
            assert TiesUpTo(a, b, terms, k + 1) && terms[k + 1] == rest[k];
          }
        }
        if k :| 0 <= k < |terms| && TiesUpTo(a, b, terms, k) && Precedes(a, b, terms[k]) {
          assert k > 0 && TiesUpTo(a, b, rest, k - 1) && rest[k - 1] == terms[k];
        }
      } else {
        assert TiesUpTo(a, b, terms, 0);
        forall k | 0 < k <= |terms| ensures !TiesUpTo(a, b, terms, k) {}
      }
    }
  }

  /** What a field's rank is: one or nought for activity, and otherwise the rank stored. */
  lemma RankIs(d: Definition, field: string)
    ensures field == "active" ==> Rank(d, field) == if d.active then 1 else 0
    ensures field != "active" && field in d.ranks ==> Rank(d, field) == d.ranks[field]
  {
  }

  /**
   What a listing wants of a definition: active unless inactive ones or activity itself were asked for, every asked
   target among its scopes, every asked field at the asked rank, and the query found.
   */
  ghost predicate Wanted(d: Definition, inactive: bool, filters: seq<Filter>, found: Definition -> bool) {
    && (d.active || inactive || exists i | 0 <= i < |filters| :: filters[i].Equals? && filters[i].field == "active")
    && (forall i | 0 <= i < |filters| && filters[i].Target? :: filters[i].recordType in d.scopes)
    && (forall i | 0 <= i < |filters| && filters[i].Equals? && filters[i].field == "active" ::
          filters[i].value == if d.active then 1 else 0)
    && (forall i | 0 <= i < |filters| && filters[i].Equals? && filters[i].field != "active"
      && filters[i].field in d.ranks ::
          d.ranks[filters[i].field] == filters[i].value)
    && (forall i | 0 <= i < |filters| && filters[i].Equals? && filters[i].field != "active"
      && filters[i].field !in d.ranks ::
          filters[i].value == 0)
    && found(d)
  }

  lemma WantedExactly(d: Definition, inactive: bool, filters: seq<Filter>, found: Definition -> bool)
    ensures Kept(d, inactive, filters, found) <==> Wanted(d, inactive, filters, found)
  {
    forall i | 0 <= i < |filters| ensures Passes(d, filters[i]) <==>
      match filters[i]
      case Target(recordType) => recordType in d.scopes
      case Equals(field, value) =>
        value == if field == "active" then (if d.active then 1 else 0) else if field in d.ranks then d.ranks[field]
          else 0
    {
    }
  }

  /** Filters the rows one condition at a time, then sorts them in place one term at a time. */
  method PlanList(defs: seq<Definition>, inactive: bool, filters: seq<Filter>, found: Definition -> bool,
                  terms: seq<Term>)
    returns (rows: seq<Definition>)
    requires S.Ordered(defs, ById())
    ensures forall d :: d in rows <==> d in defs && Wanted(d, inactive, filters, found)
    ensures forall i, j | 0 <= i < j < |rows| :: StandsBefore(rows[i], rows[j], terms)
    ensures S.Ordered(rows, Lexicographic(terms))
  {
    rows := defs;
    if !inactive && !FiltersActive(filters) {
      var active := (d: Definition) => d.active;
      KeepOrdered(rows, active, ById());
      rows := Keep(rows, active);
    }
    for i := 0 to |filters|
      invariant S.Ordered(rows, ById())
      invariant forall d :: d in rows <==>
        d in defs && (inactive || FiltersActive(filters) || d.active) && forall j | 0 <= j < i :: Passes(d, filters[j])
    {
      var passes := (d: Definition) => Passes(d, filters[i]);
      KeepOrdered(rows, passes, ById());
      rows := Keep(rows, passes);
    }
    KeepOrdered(rows, found, ById());
    rows := Keep(rows, found);
    ghost var kept := rows;
    for k := |terms| downto 0
      invariant rows == Passed(kept, terms[k..])
    {
      rows := S.StableSort(rows, ByTerm(terms[k]));
      assert terms[k..][1..] == terms[k + 1..];
    }
    assert terms[0..] == terms;
    PassesAreLexicographic(kept, terms);
    S.SameMembers(rows, kept);
    forall d ensures Kept(d, inactive, filters, found) <==> Wanted(d, inactive, filters, found) {
      WantedExactly(d, inactive, filters, found);
    }
    forall i, j | 0 <= i < j < |rows| ensures StandsBefore(rows[i], rows[j], terms) {
      LexicographicMeans(terms, rows[i], rows[j]);
    }
  }
}
