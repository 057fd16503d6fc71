/**
 The company record: sparse patches, versioned and blind writes, and the merge rule that lets a
 writer with a stale version through when nobody touched the fields it changes.

 One audit entry is kept per version.  An entry holds a snapshot of the whole row in which the tax
 id is replaced by a short tag of it, and the merge rule sees only those snapshots.
 */
module CompanyUpdate {
  import opened Options

  // ---------------------------------------------------------------- columns, fields, rows

  datatype Prefix = Address | LegalAddress | ShipAddress
  datatype Part = Line1 | Line2 | City | State | PostalCode | Country

  datatype Column = Scalar(name: string) | AddressPart(prefix: Prefix, part: Part)

  /** What merges are decided on: a scalar column alone, or one whole address. */
  datatype Field = ScalarField(name: string) | AddressField(prefix: Prefix)

  function Fold(c: Column): Field {
    match c
    case Scalar(name) => ScalarField(name)
    case AddressPart(prefix, _) => AddressField(prefix)
  }

  datatype Value = Null | Text(text: string) | Number(n: int) | Flag(on: bool)

  type Row = map<Column, Value>

  function Get(row: Row, c: Column): Value {
    if c in row then row[c] else Null
  }

  ghost predicate SameRow(a: Row, b: Row) {
    forall c :: Get(a, c) == Get(b, c)
  }

  function Diff(a: Row, b: Row): set<Column> {
    set c | c in a.Keys + b.Keys && Get(a, c) != Get(b, c)
  }

  const TAX_ID := Scalar("tax_id")

  /** The row as an audit entry keeps it. */
  function Snapshot(tag: string -> string, row: Row): Row {
    map c | c in row :: if c == TAX_ID && row[c].Text? then Text(tag(row[c].text)) else row[c]
  }

  // ---------------------------------------------------------------- patches

  datatype AddressPatch = Clear | Parts(given: map<Part, Value>)

  datatype Patch = Patch(scalars: map<string, Value>, addresses: map<Prefix, AddressPatch>)

  /** The value a patch writes to one column, if it writes it at all. */
  function Written(patch: Patch, c: Column): Option<Value> {
    match c
    case Scalar(name) => if name in patch.scalars then Some(patch.scalars[name]) else None
    case AddressPart(prefix, part) =>
      if prefix !in patch.addresses then None
      else match patch.addresses[prefix]
        case Clear => Some(Null)
        case Parts(given) => if part in given then Some(given[part]) else None
  }

  function FieldsSet(patch: Patch): set<Field> {
    (set name | name in patch.scalars :: ScalarField(name)) + (set p | p in patch.addresses :: AddressField(p))
  }

  function PatchColumns(patch: Patch): set<Column> {
    (set name | name in patch.scalars :: Scalar(name)) +
    (set p: Prefix, q: Part | Written(patch, AddressPart(p, q)).Some? :: AddressPart(p, q))
  }

  /** The stored row under a patch: every column the patch writes, and the rest as stored. */
  function Merged(current: Row, patch: Patch): Row {
    map c | c in current.Keys + PatchColumns(patch) ::
      match Written(patch, c) case Some(v) => v case None => Get(current, c)
  }

  function Cell(row: Row, c: Column): Option<Value> {
    if c in row then Some(row[c]) else None
  }

  const PARTS := [Line1, Line2, City, State, PostalCode, Country]
  const PREFIXES := [Address, LegalAddress, ShipAddress]

  lemma PartListed(part: Part)
    ensures part in PARTS
  {
    match part
    case Line1 => assert PARTS[0] == part;
    case Line2 => assert PARTS[1] == part;
    case City => assert PARTS[2] == part;
    case State => assert PARTS[3] == part;
    case PostalCode => assert PARTS[4] == part;
    case Country => assert PARTS[5] == part;
  }

  /** Laying one address patch over a row, part by part. */
  method PatchAddress(row: Row, prefix: Prefix, patch: AddressPatch) returns (merged: Row)
    ensures forall c :: Cell(merged, c) ==
                        if c.AddressPart? && c.prefix == prefix && (patch.Clear? || c.part in patch.given)
                        then Some(if patch.Clear? then Null else patch.given[c.part])
                        else Cell(row, c)
  {
    merged := row;
    for i := 0 to |PARTS|
      invariant forall c :: Cell(merged, c) ==
                            if c.AddressPart? && c.prefix == prefix && c.part in PARTS[..i]
                              && (patch.Clear? || c.part in patch.given)
                            then Some(if patch.Clear? then Null else patch.given[c.part])
                            else Cell(row, c)
    {
      if patch.Clear? {
        merged := merged[AddressPart(prefix, PARTS[i]) := Null];
      } else if PARTS[i] in patch.given {
        merged := merged[AddressPart(prefix, PARTS[i]) := patch.given[PARTS[i]]];
      }
      assert PARTS[..i + 1] == PARTS[..i] + [PARTS[i]];
    }
    assert PARTS[..|PARTS|] == PARTS;
    forall part: Part ensures part in PARTS { PartListed(part); }
  }

  method PatchScalars(row: Row, values: map<string, Value>) returns (merged: Row)
    ensures forall c :: Cell(merged, c) == if c.Scalar? && c.name in values then Some(values[c.name]) else Cell(row, c)
  {
    merged := row;
    var names := values.Keys;
    while names != {}
      invariant names <= values.Keys
      invariant forall c :: Cell(merged, c) ==
                            if c.Scalar? && c.name in values && c.name !in names then Some(values[c.name])
                              else Cell(row, c)
    {
      var name :| name in names;
      merged := merged[Scalar(name) := values[name]];
      names := names - {name};
    }
  }

  lemma PatchColumnsExact(patch: Patch, c: Column)
    ensures c in PatchColumns(patch) <==> Written(patch, c).Some?
  {
  }

  lemma MergedCell(current: Row, patch: Patch, c: Column)
    ensures Get(Merged(current, patch), c) == match Written(patch, c) case Some(v) => v case None => Get(current, c)
  {
    PatchColumnsExact(patch, c);
  }

  lemma MergedCells(current: Row, patch: Patch, row: Row)
    requires forall c :: Cell(row, c) == if Written(patch, c).Some? then Written(patch, c) else Cell(current, c)
    ensures row == Merged(current, patch)
  {
    forall c ensures Cell(row, c) == Cell(Merged(current, patch), c) {
      PatchColumnsExact(patch, c);
    }
    assert forall c :: c in row <==> Cell(row, c).Some?;
  }

  /** The stored row patched in place, scalars first and then the three addresses in order. */
  method MergedRow(current: Row, patch: Patch) returns (merged: Row)
    ensures merged == Merged(current, patch)
  {
    merged := PatchScalars(current, patch.scalars);
    for i := 0 to |PREFIXES|
      invariant forall c :: Cell(merged, c) ==
                            if Written(patch, c).Some? && (c.Scalar? || c.prefix in PREFIXES[..i])
                            then Written(patch, c) else Cell(current, c)
    {
      if PREFIXES[i] in patch.addresses {
        merged := PatchAddress(merged, PREFIXES[i], patch.addresses[PREFIXES[i]]);
      }
      assert PREFIXES[..i + 1] == PREFIXES[..i] + [PREFIXES[i]];
    }
    forall p: Prefix ensures p in PREFIXES[..|PREFIXES|] {
      assert PREFIXES[..|PREFIXES|] == PREFIXES;
      assert PREFIXES[match p case Address => 0 case LegalAddress => 1 case ShipAddress => 2] == p;
    }
    MergedCells(current, patch, merged);
  }

  /** The fields a write really changes: given by the caller, and some column of theirs differs. */
  function Changed(current: Row, merged: Row, given: set<Field>): set<Field> {
    set c | c in Diff(current, merged) && Fold(c) in given :: Fold(c)
  }

  // ---------------------------------------------------------------- the audit log and the history read from it

  datatype Action = Created | Baseline | Updated

  datatype Entry = Entry(action: Action, before: Option<nat>, version: nat, after: Row)

  /** What one version changed; None when the snapshot before it is not known. */
  datatype Change = Change(version: nat, columns: Option<set<Column>>)

  function Since(log: seq<Entry>, version: nat): seq<Entry> {
    if log == [] then []
    else (if log[0].version > version then [log[0]] else []) + Since(log[1..], version)
  }

  function SnapshotAt(log: seq<Entry>, version: nat): Option<Row> {
    if log == [] then None
    else if log[|log| - 1].version == version then Some(log[|log| - 1].after)
    else SnapshotAt(log[..|log| - 1], version)
  }

  function Changes(entries: seq<Entry>, previous: Option<Row>): seq<Change> {
    if entries == [] then []
    else
      var e := entries[0];
      if e.action.Baseline? then Changes(entries[1..], Some(e.after))
      else
        var columns := if previous.Some? then Some(Diff(previous.value, e.after)) else None;
        [Change(e.version, columns)] + Changes(entries[1..], Some(e.after))
  }

  function History(log: seq<Entry>, since: nat): seq<Change> {
    var entries := Since(log, since);
    Changes(entries,
            if entries == [] || entries[0].before.None? then None else SnapshotAt(log, entries[0].before.value))
  }

  lemma ChangesAppend(entries: seq<Entry>, e: Entry, previous: Option<Row>)
    ensures var last := if entries == [] then previous else Some(entries[|entries| - 1].after);
            Changes(entries + [e], previous) == Changes(entries, previous) + Changes([e], last)
  {
    if entries != [] {
      assert (entries + [e])[1..] == entries[1..] + [e];
      ChangesAppend(entries[1..], e, Some(entries[0].after));
    }
  }

  lemma SinceAppend(log: seq<Entry>, e: Entry, version: nat)
    ensures Since(log + [e], version) == Since(log, version) + Since([e], version)
  {
    if log != [] {
      assert (log + [e])[1..] == log[1..] + [e];
      SinceAppend(log[1..], e, version);
    }
  }

  method EntriesSince(log: seq<Entry>, version: nat) returns (entries: seq<Entry>)
    ensures entries == Since(log, version)
  {
    entries := [];
    for i := 0 to |log|
      invariant entries == Since(log[..i], version)
    {
      SinceAppend(log[..i], log[i], version);
      assert log[..i + 1] == log[..i] + [log[i]];
      if log[i].version > version {
        entries := entries + [log[i]];
      }
    }
    assert log[..|log|] == log;
  }

  method LatestSnapshot(log: seq<Entry>, version: nat) returns (snapshot: Option<Row>)
    ensures snapshot == SnapshotAt(log, version)
  {
    var n := |log|;
    assert log[..n] == log;
    while n > 0 && log[n - 1].version != version
      invariant 0 <= n <= |log|
      invariant SnapshotAt(log[..n], version) == SnapshotAt(log, version)
    {
      assert log[..n][..n - 1] == log[..n - 1];
      n := n - 1;
    }
    return if n > 0 then Some(log[n - 1].after) else None;
  }

  lemma OneChange(e: Entry, previous: Option<Row>)
    ensures Changes([e], previous) == if e.action.Baseline? then []
      else [Change(e.version, if previous.Some? then Some(Diff(previous.value, e.after)) else None)]
  {
    hide Diff;
  }

  method HistoryFromEntries(log: seq<Entry>, since: nat) returns (out: seq<Change>)
    ensures out == History(log, since)
  {
    hide Diff, Changes, Since, SnapshotAt;
    var entries := EntriesSince(log, since);
    var first: Option<Row> := None;
    if entries != [] && entries[0].before.Some? {
      first := LatestSnapshot(log, entries[0].before.value);
    }
    var previous := first;
    out := [];
    NoChanges(first);
    for i := 0 to |entries|
      invariant out == Changes(entries[..i], first)
      invariant previous == if i == 0 then first else Some(entries[i - 1].after)
    {
      var e := entries[i];
      ChangesAppend(entries[..i], e, first);
      OneChange(e, previous);
      assert entries[..i + 1] == entries[..i] + [e];
      if !e.action.Baseline? {
        out := out + [Change(e.version, if previous.Some? then Some(Diff(previous.value, e.after)) else None)];
      }
      previous := Some(e.after);
    }
    assert entries[..|entries|] == entries;
  }

  // ---------------------------------------------------------------- the rule

  datatype Refusal =
    | CannotClear(fields: set<Field>)
    | ClosingDateDenied
    | Invalid
    | Ahead
    | UnknownHistory
    | Overlap(changedFields: set<Field>)

  datatype Meta = Meta(version: nat, changed: set<Field>, mergedOver: seq<nat>, previousVersion: Option<nat>)

  function FieldsOf(changes: seq<Change>): set<Field> {
    set h, c | h in changes && h.columns.Some? && c in h.columns.value :: Fold(c)
  }

  function Versions(changes: seq<Change>): seq<nat> {
    seq(|changes|, i requires 0 <= i < |changes| => changes[i].version)
  }

  function CheckUpdate(current: nat, changed: set<Field>, expected: Option<nat>,
                       log: seq<Entry>): Result<Meta, Refusal> {
    if changed == {} then Ok(Meta(current, {}, [], None))
    else if expected.None? then Ok(Meta(current + 1, changed, [], Some(current)))
    else if expected.value == current then Ok(Meta(current + 1, changed, [], None))
    else if expected.value > current then Err(Ahead)
    else
      var history := History(log, expected.value);
      if (exists v | expected.value < v <= current :: v !in Versions(history))
        || (exists h | h in history :: h.columns.None?) then
        Err(UnknownHistory)
      else if changed * FieldsOf(history) != {} then
        Err(Overlap(FieldsOf(history)))
      else
        Ok(Meta(current + 1, changed, Versions(history), None))
  }

  // ---------------------------------------------------------------- one command

  /**
   What the record's surroundings decide: the tag of a tax id, the fields that always hold a value, and
   validation.
   */
  datatype Rules = Rules(tag: string -> string, notNullable: set<Field>, valid: (Row, set<Field>) -> bool)

  datatype Command = Command(patch: Patch, expected: Option<nat>, mayMoveClosingDate: bool)

  datatype Record = Record(row: Row, version: nat, log: seq<Entry>)

  datatype Outcome = Refused(why: Refusal) | Unchanged(version: nat) | Accepted(meta: Meta)

  const CLOSING_DATE := ScalarField("closing_date")

  function Cleared(patch: Patch): set<Field> {
    (set name | name in patch.scalars && patch.scalars[name].Null? :: ScalarField(name)) +
    (set p | p in patch.addresses && patch.addresses[p].Clear? :: AddressField(p))
  }

  function Step(rules: Rules, rec: Record, cmd: Command): (Record, Outcome) {
    var cleared := Cleared(cmd.patch) * rules.notNullable;
    var merged := Merged(rec.row, cmd.patch);
    var changed := Changed(rec.row, merged, FieldsSet(cmd.patch));
    if cleared != {} then (rec, Refused(CannotClear(cleared)))
    else if CLOSING_DATE in changed && !cmd.mayMoveClosingDate then (rec, Refused(ClosingDateDenied))
    else if changed != {} && !rules.valid(merged, changed) then (rec, Refused(Invalid))
    else match CheckUpdate(rec.version, changed, cmd.expected, rec.log)
      case Err(why) => (rec, Refused(why))
      case Ok(meta) =>
        if changed == {} then (rec, Unchanged(rec.version))
        else (Record(merged, meta.version,
                     rec.log + [Entry(Updated, Some(rec.version), meta.version, Snapshot(rules.tag, merged))]),
              Accepted(meta))
  }

  class CompanyInfo {
    const rules: Rules
    var row: Row
    var version: nat
    var log: seq<Entry>

    constructor (rules: Rules, row: Row)
      ensures this.rules == rules && State() == Record(row, 1, [Entry(Created, None, 1, Snapshot(rules.tag, row))])
    {
      this.rules := rules;
      this.row := row;
      version := 1;
      log := [Entry(Created, None, 1, Snapshot(rules.tag, row))];
    }

    function State(): Record
      reads this
    {
      Record(row, version, log)
    }

    method Check(changed: set<Field>, expected: Option<nat>) returns (r: Result<Meta, Refusal>)
      ensures r == CheckUpdate(version, changed, expected, log)
    {
      if changed == {} {
        return Ok(Meta(version, {}, [], None));
      }
      if expected.None? {
        return Ok(Meta(version + 1, changed, [], Some(version)));
      }
      if expected.value == version {
        return Ok(Meta(version + 1, changed, [], None));
      }
      if expected.value > version {
        return Err(Ahead);
      }
      var history := HistoryFromEntries(log, expected.value);
      var covered := Versions(history);
      var v := expected.value + 1;
      while v <= version && v in covered
        invariant expected.value < v <= version + 1
        invariant forall w | expected.value < w < v :: w in covered
      {
        v := v + 1;
      }
      if v <= version || exists h | h in history :: h.columns.None? {
        return Err(UnknownHistory);
      }
      if changed * FieldsOf(history) != {} {
        return Err(Overlap(FieldsOf(history)));
      }
      return Ok(Meta(version + 1, changed, covered, None));
    }

    method Update(cmd: Command) returns (outcome: Outcome)
      modifies this
      ensures (State(), outcome) == Step(rules, old(State()), cmd)
    {
      var cleared := Cleared(cmd.patch) * rules.notNullable;
      if cleared != {} {
        return Refused(CannotClear(cleared));
      }
      var merged := MergedRow(row, cmd.patch);
      var changed := Changed(row, merged, FieldsSet(cmd.patch));
      if CLOSING_DATE in changed && !cmd.mayMoveClosingDate {
        return Refused(ClosingDateDenied);
      }
      if changed != {} && !rules.valid(merged, changed) {
        return Refused(Invalid);
      }
      var checked := Check(changed, cmd.expected);
      if checked.Err? {
        return Refused(checked.error);
      }
      if changed == {} {
        return Unchanged(version);
      }
      log := log + [Entry(Updated, Some(version), checked.value.version, Snapshot(rules.tag, merged))];
      row := merged;
      version := checked.value.version;
      return Accepted(checked.value);
    }
  }

  // ---------------------------------------------------------------- runs

  /** A record together with the row it held at each version its log covers. */
  datatype Traced = Traced(rec: Record, past: seq<Row>)

  function TracedStep(rules: Rules, t: Traced, cmd: Command): Traced {
    var (rec, outcome) := Step(rules, t.rec, cmd);
    Traced(rec, if outcome.Accepted? then t.past + [rec.row] else t.past)
  }

  function Run(rules: Rules, t: Traced, cmds: seq<Command>): Traced
    decreases |cmds|
  {
    if cmds == [] then t else Run(rules, TracedStep(rules, t, cmds[0]), cmds[1..])
  }

  function FirstVersion(t: Traced): nat
    requires t.rec.log != []
  {
    t.rec.log[0].version
  }

  /** The log starts with a creation or a baseline and holds every version since, each with the row of that version. */
  ghost predicate Faithful(rules: Rules, t: Traced) {
    && t.rec.log != []
    && |t.past| == |t.rec.log|
    && t.rec.row == t.past[|t.past| - 1]
    && t.rec.version == FirstVersion(t) + |t.rec.log| - 1
    && t.rec.log[0].before == None && !t.rec.log[0].action.Updated?
    && (forall i | 0 <= i < |t.past| ::
      t.rec.log[i].version == FirstVersion(t) + i && t.rec.log[i].after == Snapshot(rules.tag, t.past[i]))
    && (forall i | 0 < i < |t.past| ::
      t.rec.log[i].action.Updated? && t.rec.log[i].before == Some(FirstVersion(t) + i - 1))
  }

  lemma CheckedVersion(current: nat, changed: set<Field>, expected: Option<nat>, log: seq<Entry>)
    ensures CheckUpdate(current, changed, expected, log).Ok? && changed != {} ==>
              CheckUpdate(current, changed, expected, log).value.version == current + 1
  {
    hide History, FieldsOf, Versions;
  }

  lemma StepKeepsFaithful(rules: Rules, t: Traced, cmd: Command)
    requires Faithful(rules, t)
    ensures Faithful(rules, TracedStep(rules, t, cmd))
    ensures TracedStep(rules, t, cmd).rec.version
         == t.rec.version + if Step(rules, t.rec, cmd).1.Accepted? then 1 else 0
    ensures !Step(rules, t.rec, cmd).1.Accepted? ==> TracedStep(rules, t, cmd) == t
    ensures t.past <= TracedStep(rules, t, cmd).past && t.rec.log <= TracedStep(rules, t, cmd).rec.log
    ensures |TracedStep(rules, t, cmd).past| - |t.past| == TracedStep(rules, t, cmd).rec.version - t.rec.version
  {
    hide CheckUpdate, Merged, Changed, FieldsSet, Cleared, Snapshot;
    CheckedVersion(t.rec.version, Changed(t.rec.row, Merged(t.rec.row, cmd.patch), FieldsSet(cmd.patch)),
                   cmd.expected, t.rec.log);
  }

  /** Over any run versions are gapless, every one has its own entry, and no earlier entry or row is rewritten. */
  lemma {:induction false} RunKeepsFaithful(rules: Rules, t: Traced, cmds: seq<Command>)
    requires Faithful(rules, t)
    ensures Faithful(rules, Run(rules, t, cmds))
    ensures t.past <= Run(rules, t, cmds).past && t.rec.log <= Run(rules, t, cmds).rec.log
    ensures Run(rules, t, cmds).rec.version - t.rec.version == |Run(rules, t, cmds).past| - |t.past|
    decreases |cmds|
  {
    hide TracedStep, Faithful;
    if cmds != [] {
      StepKeepsFaithful(rules, t, cmds[0]);
      RunKeepsFaithful(rules, TracedStep(rules, t, cmds[0]), cmds[1..]);
    }
  }

  // ---------------------------------------------------------------- what the history shows

  lemma {:induction false} SinceSuffix(log: seq<Entry>, first: nat, version: nat)
    requires forall i | 0 <= i < |log| :: log[i].version == first + i
    ensures version < first ==> Since(log, version) == log
    ensures first <= version < first + |log| ==> Since(log, version) == log[version - first + 1..]
    decreases |log|
  {
    if log != [] {
      SinceSuffix(log[1..], first + 1, version);
      if first < version < first + |log| {
        assert log[1..][version - first..] == log[version - first + 1..];
      }
    }
  }

  lemma {:induction false} SnapshotAtIndex(log: seq<Entry>, first: nat, version: nat)
    requires forall i | 0 <= i < |log| :: log[i].version == first + i
    requires first <= version < first + |log|
    ensures SnapshotAt(log, version) == Some(log[version - first].after)
    decreases |log|
  {
    if log[|log| - 1].version != version {
      SnapshotAtIndex(log[..|log| - 1], first, version);
    }
  }

  lemma {:induction false} ChangesOfUpdates(entries: seq<Entry>, previous: Row)
    requires forall e | e in entries :: e.action.Updated?
    ensures |Changes(entries, Some(previous))| == |entries|
    ensures forall k | 0 <= k < |entries| :: Changes(entries, Some(previous))[k].version == entries[k].version
    ensures forall k | 0 <= k < |entries| ::
              Changes(entries, Some(previous))[k] ==
              Change(entries[k].version,
                     Some(Diff(if k == 0 then previous else entries[k - 1].after, entries[k].after)))
    decreases |entries|
  {
    if entries != [] {
      ChangesOfUpdates(entries[1..], entries[0].after);
    }
  }

  lemma HistoryIs(rules: Rules, t: Traced, since: nat)
    requires Faithful(rules, t) && FirstVersion(t) <= since <= t.rec.version
    ensures var i := since - FirstVersion(t);
            History(t.rec.log, since) == Changes(t.rec.log[i + 1..], Some(t.rec.log[i].after))
  {
    hide Diff, Snapshot, Since, SnapshotAt, Changes;
    var log, i := t.rec.log, since - FirstVersion(t);
    SinceSuffix(log, FirstVersion(t), since);
    SnapshotAtIndex(log, FirstVersion(t), since);
    if i + 1 < |log| {
      assert log[i + 1..][0].before == Some(since);
    } else {
      NoChanges(None);
      NoChanges(Some(log[i].after));
    }
  }

  lemma NoChanges(previous: Option<Row>)
    ensures Changes([], previous) == []
  {
  }

  /** From any version the log covers, the history is exactly the later versions, each with its snapshot difference. */
  lemma HistoryExact(rules: Rules, t: Traced, since: nat)
    requires Faithful(rules, t) && FirstVersion(t) <= since <= t.rec.version
    ensures var history, i := History(t.rec.log, since), since - FirstVersion(t);
            && |history| == t.rec.version - since
            && forall k | 0 <= k < |history| ::
                 history[k] == Change(since + 1 + k, Some(Diff(t.rec.log[i + k].after, t.rec.log[i + k + 1].after)))
  {
    hide History, Snapshot;
    var i := since - FirstVersion(t);
    HistoryIs(rules, t, since);
    ChangesOfUpdates(t.rec.log[i + 1..], t.rec.log[i].after);
  }

  ghost predicate DiffersAt(past: seq<Row>, k: nat, c: Column)
    requires k + 1 < |past|
  {
    Get(past[k], c) != Get(past[k + 1], c)
  }

  ghost predicate SeenAt(rules: Rules, past: seq<Row>, k: nat, c: Column)
    requires k + 1 < |past|
  {
    Get(Snapshot(rules.tag, past[k]), c) != Get(Snapshot(rules.tag, past[k + 1]), c)
  }

  /** Column c took another value at some version after the one at index i. */
  ghost predicate Touched(past: seq<Row>, i: nat, c: Column) {
    exists k | i <= k < |past| - 1 :: DiffersAt(past, k, c)
  }

  /** The same, as far as snapshots show it. */
  ghost predicate Seen(rules: Rules, past: seq<Row>, i: nat, c: Column) {
    exists k | i <= k < |past| - 1 :: SeenAt(rules, past, k, c)
  }

  lemma HistoryCell(rules: Rules, t: Traced, since: nat, k: nat, c: Column)
    requires Faithful(rules, t) && FirstVersion(t) <= since && since + k < t.rec.version
    ensures k < |History(t.rec.log, since)| && History(t.rec.log, since)[k].columns.Some?
    ensures since - FirstVersion(t) + k + 1 < |t.past|
    ensures c in History(t.rec.log, since)[k].columns.value <==> SeenAt(rules, t.past, since - FirstVersion(t) + k, c)
  {
    hide History, Snapshot;
    HistoryExact(rules, t, since);
  }

  lemma HistoryFields(rules: Rules, t: Traced, since: nat, f: Field)
    requires Faithful(rules, t) && FirstVersion(t) <= since <= t.rec.version
    ensures f in FieldsOf(History(t.rec.log, since)) <==>
            exists c :: Fold(c) == f && Seen(rules, t.past, since - FirstVersion(t), c)
  {
    hide History, Snapshot, SeenAt;
    HistoryExact(rules, t, since);
    var history, i := History(t.rec.log, since), since - FirstVersion(t);
    if f in FieldsOf(history) {
      var h, c :| h in history && h.columns.Some? && c in h.columns.value && Fold(c) == f;
      var k :| 0 <= k < |history| && history[k] == h;
      HistoryCell(rules, t, since, k, c);
      assert Seen(rules, t.past, i, c);
    }
    if c :| Fold(c) == f && Seen(rules, t.past, i, c) {
      var k :| i <= k < |t.past| - 1 && SeenAt(rules, t.past, k, c);
      HistoryCell(rules, t, since, k - i, c);
      assert history[k - i] in history;
    }
  }

  lemma OverlapExact(rules: Rules, t: Traced, since: nat, changed: set<Field>)
    requires Faithful(rules, t) && FirstVersion(t) <= since <= t.rec.version
    ensures changed * FieldsOf(History(t.rec.log, since)) == {} <==>
            forall c | Seen(rules, t.past, since - FirstVersion(t), c) :: Fold(c) !in changed
  {
    hide FieldsOf, History, Seen;
    forall f ensures f in FieldsOf(History(t.rec.log, since)) <==>
                     exists c :: Fold(c) == f && Seen(rules, t.past, since - FirstVersion(t), c)
    {
      HistoryFields(rules, t, since, f);
    }
    assert forall c | Seen(rules, t.past, since - FirstVersion(t), c) :: Fold(c) in FieldsOf(History(t.rec.log, since));
    assert forall f | f in changed && f in FieldsOf(History(t.rec.log, since)) ::
      f in changed * FieldsOf(History(t.rec.log, since));
  }

  // ---------------------------------------------------------------- when a write is accepted

  ghost predicate Admissible(rules: Rules, rec: Record, cmd: Command) {
    var merged := Merged(rec.row, cmd.patch);
    var changed := Changed(rec.row, merged, FieldsSet(cmd.patch));
    && Cleared(cmd.patch) * rules.notNullable == {}
    && (CLOSING_DATE in changed ==> cmd.mayMoveClosingDate)
    && (changed != {} ==> rules.valid(merged, changed))
  }

  /**
   A real change is written exactly when the write is blind, read the current version, or read an earlier version the
   log covers and no later version is seen to have changed any of its fields.  It then names every version merged over.
   */
  lemma AcceptedExactly(rules: Rules, t: Traced, cmd: Command)
    requires Faithful(rules, t) && Admissible(rules, t.rec, cmd)
    ensures var changed := Changed(t.rec.row, Merged(t.rec.row, cmd.patch), FieldsSet(cmd.patch));
            var outcome := Step(rules, t.rec, cmd).1;
            && (outcome.Unchanged? <==> changed == {})
            && (changed != {} ==>
                  (outcome.Accepted? <==>
                     || cmd.expected.None?
                     || cmd.expected.value == t.rec.version
                     || (FirstVersion(t) <= cmd.expected.value < t.rec.version &&
                         forall c | Seen(rules, t.past, cmd.expected.value - FirstVersion(t), c) ::
                           Fold(c) !in changed)))
            && (outcome.Accepted? ==>
                  && outcome.meta.version == t.rec.version + 1
                  && outcome.meta.mergedOver ==
                     if cmd.expected.None? then []
                     else seq(t.rec.version - cmd.expected.value, k requires 0 <= k => cmd.expected.value + 1 + k))
  {
    hide Changed, Merged, FieldsSet, Cleared, History, FieldsOf, Seen;
    var changed := Changed(t.rec.row, Merged(t.rec.row, cmd.patch), FieldsSet(cmd.patch));
    if changed != {} && cmd.expected.Some? && cmd.expected.value < t.rec.version {
      var e, first := cmd.expected.value, FirstVersion(t);
      var history := History(t.rec.log, e);
      if e < first {
        BeforeTheLog(rules, t, e);
      } else {
        HistoryExact(rules, t, e);
        OverlapExact(rules, t, e, changed);
        forall v | e < v <= t.rec.version ensures v in Versions(history) {
          assert Versions(history)[v - e - 1] == v;
        }
      }
    }
  }

  // ---------------------------------------------------------------- what a patch asks for, and what is refused first

  /** The patch gives null for the field, or clears the address. */
  predicate GivesNull(patch: Patch, f: Field) {
    match f
    case ScalarField(name) => name in patch.scalars && patch.scalars[name] == Null
    case AddressField(prefix) => prefix in patch.addresses && patch.addresses[prefix] == Clear
  }

  /** What the patch gives for a part of an address differs from what is stored. */
  predicate PartDiffers(row: Row, patch: AddressPatch, prefix: Prefix, part: Part) {
    match patch
    case Clear => Get(row, AddressPart(prefix, part)) != Null
    case Parts(given) => part in given && given[part] != Get(row, AddressPart(prefix, part))
  }

  /** What the patch gives for a field differs from what is stored. */
  ghost predicate Differs(row: Row, patch: Patch, f: Field) {
    match f
    case ScalarField(name) => name in patch.scalars && patch.scalars[name] != Get(row, Scalar(name))
    case AddressField(prefix) =>
      prefix in patch.addresses && exists part :: PartDiffers(row, patch.addresses[prefix], prefix, part)
  }

  lemma MergedDiffers(row: Row, patch: Patch, c: Column)
    ensures c in Diff(row, Merged(row, patch)) <==> Written(patch, c).Some? && Written(patch, c).value != Get(row, c)
  {
    MergedCell(row, patch, c);
    PatchColumnsExact(patch, c);
  }

  /** The fields a write changes are those whose given value differs from the stored one. */
  lemma ChangedIs(row: Row, patch: Patch, f: Field)
    ensures f in Changed(row, Merged(row, patch), FieldsSet(patch)) <==> Differs(row, patch, f)
  {
    hide Diff, Merged;
    forall c
      ensures c in Diff(row, Merged(row, patch))
          <==> Written(patch, c).Some? && Written(patch, c).value != Get(row, c) {
      MergedDiffers(row, patch, c);
    }
    match f
    case ScalarField(name) =>
      if Differs(row, patch, f) { assert Fold(Scalar(name)) == f && Scalar(name) in Diff(row, Merged(row, patch)); }
    case AddressField(prefix) =>
      if Differs(row, patch, f) {
        var part :| PartDiffers(row, patch.addresses[prefix], prefix, part);
        assert Fold(AddressPart(prefix, part)) == f && AddressPart(prefix, part) in Diff(row, Merged(row, patch));
      }
      if c :| c in Diff(row, Merged(row, patch)) && Fold(c) == f {
        assert PartDiffers(row, patch.addresses[prefix], prefix, c.part);
      }
  }

  lemma ClearedIs(patch: Patch, f: Field)
    ensures f in Cleared(patch) <==> GivesNull(patch, f)
  {
  }

  /** The patch gives null to a field that always holds a value. */
  ghost predicate ClearsRequired(rules: Rules, patch: Patch) {
    exists f :: f in rules.notNullable && GivesNull(patch, f)
  }

  /** The patch moves the closing date. */
  predicate MovesClosingDate(row: Row, patch: Patch) {
    "closing_date" in patch.scalars && patch.scalars["closing_date"] != Get(row, Scalar("closing_date"))
  }

  /**
   The first refusals, whatever the version: null for a field that always holds a value, naming every such field;
   then a closing date moved without the authority; then a change that is not valid.
   */
  lemma RefusedExactly(rules: Rules, rec: Record, cmd: Command)
    ensures var (after, outcome) := Step(rules, rec, cmd);
      var fields := Changed(rec.row, Merged(rec.row, cmd.patch), FieldsSet(cmd.patch));
      && (outcome.Refused? ==> after == rec)
      && (outcome.Refused? && outcome.why.CannotClear? <==> ClearsRequired(rules, cmd.patch))
      && (outcome.Refused? && outcome.why.CannotClear? ==>
            forall f :: f in outcome.why.fields <==> f in rules.notNullable && GivesNull(cmd.patch, f))
      && (outcome == Refused(ClosingDateDenied) <==>
            && !ClearsRequired(rules, cmd.patch)
            && MovesClosingDate(rec.row, cmd.patch) && !cmd.mayMoveClosingDate)
      && (outcome == Refused(Invalid) <==>
            && !ClearsRequired(rules, cmd.patch)
            && !(MovesClosingDate(rec.row, cmd.patch) && !cmd.mayMoveClosingDate)
            && (exists f :: Differs(rec.row, cmd.patch, f)) && !rules.valid(Merged(rec.row, cmd.patch), fields))
    ensures forall f ::
      f in Changed(rec.row, Merged(rec.row, cmd.patch), FieldsSet(cmd.patch)) <==> Differs(rec.row, cmd.patch, f)
  {
    hide Changed, Merged, FieldsSet, Cleared, CheckUpdate, Differs, GivesNull;
    var fields := Changed(rec.row, Merged(rec.row, cmd.patch), FieldsSet(cmd.patch));
    forall f ensures f in fields <==> Differs(rec.row, cmd.patch, f) { ChangedIs(rec.row, cmd.patch, f); }
    forall f ensures f in Cleared(cmd.patch) <==> GivesNull(cmd.patch, f) { ClearedIs(cmd.patch, f); }
    ClosingDateDiffers(rec.row, cmd.patch);
    CheckedWhy(rec.version, fields, cmd.expected, rec.log);
    RequiredCleared(rules, cmd.patch);
    if fields != {} {
      var f :| f in fields;
      assert Differs(rec.row, cmd.patch, f);
    }
  }

  lemma RequiredCleared(rules: Rules, patch: Patch)
    ensures Cleared(patch) * rules.notNullable != {} <==> ClearsRequired(rules, patch)
  {
    hide Cleared, GivesNull;
    forall f ensures f in Cleared(patch) <==> GivesNull(patch, f) { ClearedIs(patch, f); }
    if Cleared(patch) * rules.notNullable != {} {
      var f :| f in Cleared(patch) * rules.notNullable;
      assert f in rules.notNullable && GivesNull(patch, f);
    }
    if f :| f in rules.notNullable && GivesNull(patch, f) { assert f in Cleared(patch) * rules.notNullable; }
  }

  lemma ClosingDateDiffers(row: Row, patch: Patch)
    ensures Differs(row, patch, ScalarField("closing_date")) <==> MovesClosingDate(row, patch)
  {
  }

  lemma CheckedWhy(current: nat, changed: set<Field>, expected: Option<nat>, log: seq<Entry>)
    ensures var r := CheckUpdate(current, changed, expected, log);
      r.Err? ==> r.error.Ahead? || r.error.UnknownHistory? || r.error.Overlap?
  {
    hide History, FieldsOf, Versions;
  }

  /** Past those, a command is as the version rule is stated for. */
  lemma AdmissibleExactly(rules: Rules, rec: Record, cmd: Command)
    ensures Admissible(rules, rec, cmd) <==>
      var outcome := Step(rules, rec, cmd).1;
      !(outcome.Refused? && (outcome.why.CannotClear? || outcome.why.ClosingDateDenied? || outcome.why.Invalid?))
  {
    hide Changed, Merged, FieldsSet, Cleared, CheckUpdate;
    CheckedWhy(rec.version, Changed(rec.row, Merged(rec.row, cmd.patch), FieldsSet(cmd.patch)), cmd.expected, rec.log);
  }

  /**
   An accepted write leaves every scalar the patch gives at the value given, every part of a cleared address null, every
   part given at its value and all else as it was; and one entry at the next version with that row, its tax id tagged.
   */
  lemma AcceptedWrites(rules: Rules, rec: Record, cmd: Command)
    requires Step(rules, rec, cmd).1.Accepted?
    ensures var after := Step(rules, rec, cmd).0;
      && (forall name :: Get(after.row, Scalar(name)) ==
            if name in cmd.patch.scalars then cmd.patch.scalars[name] else Get(rec.row, Scalar(name)))
      && (forall prefix, part :: Get(after.row, AddressPart(prefix, part)) ==
            if prefix !in cmd.patch.addresses then Get(rec.row, AddressPart(prefix, part))
            else match cmd.patch.addresses[prefix]
                 case Clear => Null
                 case Parts(given) => if part in given then given[part] else Get(rec.row, AddressPart(prefix, part)))
      && after.version == rec.version + 1 && |after.log| == |rec.log| + 1 && rec.log <= after.log
      && var entry := after.log[|rec.log|];
      && entry.action == Updated && entry.before == Some(rec.version) && entry.version == rec.version + 1
      && forall c :: Get(entry.after, c) ==
           if c == Scalar("tax_id") && Get(after.row, c).Text? then Text(rules.tag(Get(after.row, c).text))
             else Get(after.row, c)
  {
    hide Changed, Merged, FieldsSet, Cleared, CheckUpdate;
    CheckedVersion(rec.version, Changed(rec.row, Merged(rec.row, cmd.patch), FieldsSet(cmd.patch)), cmd.expected,
                   rec.log);
    forall c ensures Get(Merged(rec.row, cmd.patch), c) ==
                     match Written(cmd.patch, c) case Some(v) => v case None => Get(rec.row, c)
    {
      MergedCell(rec.row, cmd.patch, c);
    }
  }

  ghost predicate Unauthorized(cmds: seq<Command>) { forall i | 0 <= i < |cmds| :: !cmds[i].mayMoveClosingDate }

  lemma ClosingDateKept(rules: Rules, t: Traced, cmd: Command)
    requires !cmd.mayMoveClosingDate
    ensures Get(TracedStep(rules, t, cmd).rec.row, Scalar("closing_date")) == Get(t.rec.row, Scalar("closing_date"))
  {
    hide Step;
    RefusedExactly(rules, t.rec, cmd);
    StepEndings(rules, t.rec, cmd);
    if Step(rules, t.rec, cmd).1.Accepted? { AcceptedWrites(rules, t.rec, cmd); }
  }

  lemma StepEndings(rules: Rules, rec: Record, cmd: Command)
    ensures !Step(rules, rec, cmd).1.Accepted? ==> Step(rules, rec, cmd).0 == rec
    ensures Step(rules, rec, cmd).1.Accepted? ==> !ClearsRequired(rules, cmd.patch)
  {
    hide Changed, Merged, FieldsSet, Cleared, CheckUpdate;
    RequiredCleared(rules, cmd.patch);
  }

  /** Over any run of commands of callers without that authority the closing date stands. */
  lemma {:induction false} RunKeepsClosingDate(rules: Rules, t: Traced, cmds: seq<Command>)
    requires Unauthorized(cmds)
    ensures Get(Run(rules, t, cmds).rec.row, Scalar("closing_date")) == Get(t.rec.row, Scalar("closing_date"))
    decreases |cmds|
  {
    hide TracedStep;
    if cmds != [] {
      ClosingDateKept(rules, t, cmds[0]);
      RunKeepsClosingDate(rules, TracedStep(rules, t, cmds[0]), cmds[1..]);
    }
  }

  /** A version older than the log's first entry is never taken as covered. */
  lemma BeforeTheLog(rules: Rules, t: Traced, since: nat)
    requires Faithful(rules, t) && since < FirstVersion(t)
    ensures var history := History(t.rec.log, since);
            || FirstVersion(t) !in Versions(history)
            || exists h | h in history :: h.columns.None?
  {
    hide Diff, Snapshot;
    var log, first := t.rec.log, FirstVersion(t);
    SinceSuffix(log, first, since);
    if log[0].action.Baseline? {
      NoEarlierVersion(log[1..], log[0].after, first);
    } else {
      assert History(log, since)[0].columns.None?;
      assert History(log, since)[0] in History(log, since);
    }
  }

  lemma NoEarlierVersion(entries: seq<Entry>, previous: Row, version: nat)
    requires forall e | e in entries :: e.action.Updated? && e.version > version
    ensures version !in Versions(Changes(entries, Some(previous)))
  {
    ChangesOfUpdates(entries, previous);
    var history := Changes(entries, Some(previous));
    forall k | 0 <= k < |history| ensures Versions(history)[k] > version {
      assert history[k].version == entries[k].version && entries[k] in entries;
    }
  }

  // ---------------------------------------------------------------- no lost update

  function Delta(a: Row, b: Row): Row {
    map c | c in Diff(a, b) :: Get(b, c)
  }

  /** The differences between consecutive versions, from the one at index i on, laid over another row. */
  function Replay(past: seq<Row>, i: nat, row: Row): Row
    decreases |past| - i
  {
    if i + 1 >= |past| then row
    else Replay(past, i + 1, row + Delta(past[i], past[i + 1]))
  }

  lemma TouchedUnfold(past: seq<Row>, i: nat, c: Column)
    requires i + 1 < |past|
    ensures Touched(past, i, c) <==> DiffersAt(past, i, c) || Touched(past, i + 1, c)
  {
    if Touched(past, i + 1, c) {
      var k :| i + 1 <= k < |past| - 1 && DiffersAt(past, k, c);
      assert Touched(past, i, c);
    }
  }

  lemma {:induction false} UntouchedCell(past: seq<Row>, i: nat, c: Column)
    requires i < |past|
    ensures !Touched(past, i, c) ==> Get(past[i], c) == Get(past[|past| - 1], c)
    decreases |past| - i
  {
    if i + 1 < |past| {
      TouchedUnfold(past, i, c);
      UntouchedCell(past, i + 1, c);
    }
  }

  lemma {:induction false} ReplayCell(past: seq<Row>, i: nat, row: Row, c: Column)
    requires i < |past|
    ensures Get(Replay(past, i, row), c) == if Touched(past, i, c) then Get(past[|past| - 1], c) else Get(row, c)
    decreases |past| - i
  {
    if i + 1 < |past| {
      var next := row + Delta(past[i], past[i + 1]);
      TouchedUnfold(past, i, c);
      UntouchedCell(past, i + 1, c);
      ReplayCell(past, i + 1, next, c);
      assert c in Diff(past[i], past[i + 1]) <==> DiffersAt(past, i, c);
    }
  }

  /** The version a writer read is one the log covers. */
  ghost predicate Covers(t: Traced, read: Option<nat>) {
    t.rec.log != [] && read.Some? && FirstVersion(t) <= read.value <= t.rec.version
      && read.value - FirstVersion(t) < |t.past|
  }

  /** A write of the tax id over a later change of it that its tag does not show. */
  ghost predicate OverwritesTaxId(t: Traced, patch: Patch, i: nat) {
    && Written(patch, TAX_ID).Some?
    && Written(patch, TAX_ID).value != Get(t.rec.row, TAX_ID)
    && Touched(t.past, i, TAX_ID)
  }

  lemma SeenIsTouched(rules: Rules, past: seq<Row>, i: nat, c: Column)
    ensures Seen(rules, past, i, c) ==> Touched(past, i, c)
    ensures c != TAX_ID && Touched(past, i, c) ==> Seen(rules, past, i, c)
  {
    forall k: nat | k + 1 < |past|
      ensures SeenAt(rules, past, k, c) ==> DiffersAt(past, k, c)
      ensures c != TAX_ID && DiffersAt(past, k, c) ==> SeenAt(rules, past, k, c)
    {
    }
  }

  /**
   An accepted write's cell is what the patch says, or what was stored; a patched cell that differs changed its
   field.
   */
  lemma AcceptedCell(rules: Rules, t: Traced, cmd: Command, i: nat, c: Column)
    requires Faithful(rules, t) && Covers(t, cmd.expected)
    requires Step(rules, t.rec, cmd).1.Accepted? && i == cmd.expected.value - FirstVersion(t)
    ensures Get(Step(rules, t.rec, cmd).0.row, c)
        == match Written(cmd.patch, c) case Some(v) => v case None => Get(t.rec.row, c)
    ensures Written(cmd.patch, c).Some? && Written(cmd.patch, c).value != Get(t.rec.row, c) ==>
        !Seen(rules, t.past, i, c)
  {
    hide Merged, Changed, FieldsSet, Cleared, CheckUpdate, SeenAt, PatchColumns;
    MergedCell(t.rec.row, cmd.patch, c);
    AcceptedExactly(rules, t, cmd);
    if Written(cmd.patch, c).Some? && Written(cmd.patch, c).value != Get(t.rec.row, c) {
      GivenIsChanged(t.rec.row, cmd.patch, c);
    }
  }

  /**
   No lost update: whatever ran since the version the writer read, the row an accepted write leaves is the patch applied
   to that version followed by every later change, except exactly when it writes over a later tax id unseen.
   */
  lemma AcceptedReplays(rules: Rules, t: Traced, cmd: Command)
    requires Faithful(rules, t) && Covers(t, cmd.expected)
    requires Step(rules, t.rec, cmd).1.Accepted?
    ensures var i := cmd.expected.value - FirstVersion(t);
            SameRow(Step(rules, t.rec, cmd).0.row, Replay(t.past, i, Merged(t.past[i], cmd.patch))) <==>
            !OverwritesTaxId(t, cmd.patch, i)
  {
    hide Step, Replay, Merged, Touched, Seen, PatchColumns;
    var i := cmd.expected.value - FirstVersion(t);
    var row, replayed := Step(rules, t.rec, cmd).0.row, Replay(t.past, i, Merged(t.past[i], cmd.patch));
    forall c ensures Get(row, c) == Get(replayed, c) <==> !(c == TAX_ID && OverwritesTaxId(t, cmd.patch, i)) {
      ReplayCell(t.past, i, Merged(t.past[i], cmd.patch), c);
      MergedCell(t.past[i], cmd.patch, c);
      SeenIsTouched(rules, t.past, i, c);
      UntouchedCell(t.past, i, c);
      AcceptedCell(rules, t, cmd, i, c);
    }
    assert Get(row, TAX_ID) == Get(replayed, TAX_ID) <==> !OverwritesTaxId(t, cmd.patch, i);
  }

  lemma GivenIsChanged(current: Row, patch: Patch, c: Column)
    requires Written(patch, c).Some? && Written(patch, c).value != Get(current, c)
    ensures Fold(c) in Changed(current, Merged(current, patch), FieldsSet(patch))
  {
    PatchColumnsExact(patch, c);
    assert c in Diff(current, Merged(current, patch));
  }

  /** Consecutive tax ids that differ have tags that differ. */
  ghost predicate TagsSeparate(rules: Rules, past: seq<Row>) {
    forall k | 0 <= k < |past| - 1 :: DiffersAt(past, k, TAX_ID) ==> SeenAt(rules, past, k, TAX_ID)
  }

  /** Over any run whose tax ids have distinct tags, no accepted versioned write loses an update. */
  lemma NoLostUpdate(rules: Rules, start: Traced, cmds: seq<Command>, cmd: Command)
    requires Faithful(rules, start)
    requires TagsSeparate(rules, Run(rules, start, cmds).past)
    requires Covers(Run(rules, start, cmds), cmd.expected)
    requires Step(rules, Run(rules, start, cmds).rec, cmd).1.Accepted?
    ensures var t := Run(rules, start, cmds);
            var i := cmd.expected.value - FirstVersion(t);
            SameRow(Step(rules, t.rec, cmd).0.row, Replay(t.past, i, Merged(t.past[i], cmd.patch)))
  {
    RunKeepsFaithful(rules, start, cmds);
    var t := Run(rules, start, cmds);
    var i := cmd.expected.value - FirstVersion(t);
    AcceptedReplays(rules, t, cmd);
    AcceptedCell(rules, t, cmd, i, TAX_ID);
    SeparateTagsAreSeen(rules, t.past, i);
  }

  lemma SeparateTagsAreSeen(rules: Rules, past: seq<Row>, i: nat)
    requires TagsSeparate(rules, past)
    ensures Touched(past, i, TAX_ID) ==> Seen(rules, past, i, TAX_ID)
  {
  }

  /** Two tax ids with one tag are enough to lose an update: the second writer's change is overwritten, not refused. */
  lemma TagCollisionLosesUpdate(rules: Rules, a: string, b: string, mine: string)
    requires a != b && mine != b && rules.tag(a) == rules.tag(b)
    requires rules.valid(map[TAX_ID := Text(b)], {ScalarField("tax_id")})
    requires rules.valid(map[TAX_ID := Text(mine)], {ScalarField("tax_id")})
    ensures var row := map[TAX_ID := Text(a)];
            var t0 := Traced(Record(row, 1, [Entry(Created, None, 1, Snapshot(rules.tag, row))]), [row]);
            var other := Command(Patch(map["tax_id" := Text(b)], map[]), Some(1), false);
            var stale := Command(Patch(map["tax_id" := Text(mine)], map[]), Some(1), false);
            var t1 := Run(rules, t0, [other]);
            && Faithful(rules, t0)
            && t1.rec.version == 2 && Get(t1.rec.row, TAX_ID) == Text(b)
            && Step(rules, t1.rec, stale).1.Accepted?
            && Get(Step(rules, t1.rec, stale).0.row, TAX_ID) == Text(mine)
  {
    hide Merged, Changed, FieldsSet, Cleared, CheckUpdate, Seen;
    var row0, row1 := map[TAX_ID := Text(a)], map[TAX_ID := Text(b)];
    var t0 := Traced(Record(row0, 1, [Entry(Created, None, 1, Snapshot(rules.tag, row0))]), [row0]);
    var other := Command(Patch(map["tax_id" := Text(b)], map[]), Some(1), false);
    var stale := Command(Patch(map["tax_id" := Text(mine)], map[]), Some(1), false);
    TaxIdPatch(row0, b);
    AcceptedExactly(rules, t0, other);
    var t1 := TracedStep(rules, t0, other);
    StepKeepsFaithful(rules, t0, other);
    assert [other][1..] == [];
    assert Run(rules, t0, [other]) == t1;
    TaxIdPatch(row1, mine);
    assert t1.past == [row0, row1];
    assert Snapshot(rules.tag, row0) == Snapshot(rules.tag, row1);
    forall c ensures !Seen(rules, [row0, row1], 0, c) { NothingSeen(rules, row0, row1, c); }
    AcceptedExactly(rules, t1, stale);
  }

  lemma NothingSeen(rules: Rules, a: Row, b: Row, c: Column)
    requires Snapshot(rules.tag, a) == Snapshot(rules.tag, b)
    ensures !Seen(rules, [a, b], 0, c)
  {
  }

  lemma TaxIdPatch(row: Row, id: string)
    requires row.Keys == {TAX_ID} && row[TAX_ID] != Text(id)
    ensures var patch := Patch(map["tax_id" := Text(id)], map[]);
            && Merged(row, patch) == map[TAX_ID := Text(id)]
            && Cleared(patch) == {}
            && Changed(row, Merged(row, patch), FieldsSet(patch)) == {ScalarField("tax_id")}
  {
    var patch := Patch(map["tax_id" := Text(id)], map[]);
    forall c ensures c in PatchColumns(patch) <==> c == TAX_ID { PatchColumnsExact(patch, c); }
    assert Merged(row, patch) == map[TAX_ID := Text(id)];
    GivenIsChanged(row, patch, TAX_ID);
  }
}
