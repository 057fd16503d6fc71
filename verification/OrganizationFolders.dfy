/**
 Organization folders under crashes: `organization rename`, the recovery of its unfinished moves, and
 `demo reset`, which moves the demo organization's folder to trash before it deletes its rows.

 A folder rename is atomic but durable only once its directories are synchronized: a crash before that
 may keep it or undo it.  A command commits its intent first, moves the folder, and commits the result.
 */
module OrganizationFolders {
  import opened Options

  type Id = nat
  type Name = nat

  /** The display name the demo's seed file gives its organization. */
  const SEED_NAME: Name := 0

  datatype Place = Organizations | Trash

  datatype Path = Path(place: Place, folder: nat)

  /** Where the row says the folder is, and where an unfinished move is taking it. */
  datatype Organization = Organization(name: Name, path: Path, pending: Option<Path>, demo: bool)

  datatype Company = Company(organization: Id, demo: bool, trashed: bool)

  /** Each folder with the organization its marker names, if it has one. */
  type Disk = map<Path, Option<Id>>

  /** The committed registry, the folders as they stand, and the folders a crash falls back to. */
  datatype World = World(orgs: map<Id, Organization>, companies: map<Id, Company>, live: Disk, durable: Disk)

  datatype Fault =
    | NoFault
    | FirstCommitFails
    | CrashAfterFirstCommit
    | RenameFails
    | CrashBeforeSync
    | SyncFails
    | CrashAfterSync
    | CrashAfterCreate
    | LastCommitFails

  datatype Outcome = Finished | Permission | NameTaken | Incomplete | Missing | NotFound | Failed | Crashed

  /** A reset's request: the free folder names its plan chose, and the ids it mints. */
  datatype Reset = Reset(forced: bool, trash: Path, home: Path, organization: Id, company: Id)

  /** kept: whether an unsynchronized rename survives the crash. */
  datatype Command =
    | DemoReset(reset: Reset, fault: Fault, kept: bool)
    | Rename(id: Id, name: Name, target: Path, move: bool, fault: Fault, kept: bool)
    | Recover(id: Id, fault: Fault, kept: bool)
    | NewOrganization(id: Id, name: Name, path: Path)
    | NewCompany(id: Id, organization: Id)
    | TrashCompany(id: Id)
    | PutFolder(path: Path)
    | Crash(kept: bool)

  // ---------------------------------------------------------------- the disk

  predicate Holds(disk: Disk, p: Path, id: Id) { p in disk && disk[p] == Some(id) }

  /** After a crash the folders stand as they are, or as they were last synchronized. */
  function AfterCrash(w: World, kept: bool): World {
    var disk := if kept then w.live else w.durable;
    w.(live := disk, durable := disk)
  }

  function Synced(w: World): World { w.(durable := w.live) }

  function Renamed(disk: Disk, src: Path, dst: Path): Disk
    requires src in disk
  {
    (disk - {src})[dst := disk[src]]
  }

  /** Finish a recorded move: rename unless it was done already, then synchronize both directories. */
  function Move(w: World, id: Id, src: Path, dst: Path, fault: Fault, kept: bool): (World, Outcome) {
    if src in w.live && dst !in w.live then
      if fault == RenameFails then (w, Incomplete)
      else
        var moved := w.(live := Renamed(w.live, src, dst));
        if fault == CrashBeforeSync then (AfterCrash(moved, kept), Crashed)
        else if fault == SyncFails then (moved, Incomplete)
        else if fault == CrashAfterSync then (AfterCrash(Synced(moved), kept), Crashed)
        else (Synced(moved), Finished)
    else if src in w.live then (w, Incomplete)
    else if dst in w.live then
      if w.live[dst] != Some(id) then (w, Incomplete)
      else if fault == CrashBeforeSync then (AfterCrash(w, kept), Crashed)
      else if fault == SyncFails then (w, Incomplete)
      else if fault == CrashAfterSync then (AfterCrash(Synced(w), kept), Crashed)
      else (Synced(w), Finished)
    else (w, Missing)
  }

  // ---------------------------------------------------------------- demo reset

  predicate IsDemo(orgs: map<Id, Organization>, id: Id) { id in orgs && orgs[id].demo }

  ghost predicate HasDemo(w: World) { exists id :: IsDemo(w.orgs, id) }

  ghost function DemoOf(w: World): Id
    requires HasDemo(w)
  {
    var id :| IsDemo(w.orgs, id);
    id
  }

  predicate Live(c: Company) { !c.trashed }

  /** A live company the demo did not create. */
  predicate Real(c: Company) { !c.demo && Live(c) }

  ghost predicate RealInDemo(w: World) {
    exists c :: c in w.companies && Real(w.companies[c]) && IsDemo(w.orgs, w.companies[c].organization)
  }

  ghost predicate AnyReal(w: World) { exists c :: c in w.companies && Real(w.companies[c]) }

  /** Never with a real company inside the demo; with one elsewhere only when forced. */
  ghost predicate MayReset(w: World, forced: bool) {
    !RealInDemo(w) && (AnyReal(w) ==> forced)
  }

  ghost predicate NameHeld(w: World, name: Name) { exists o :: o in w.orgs && w.orgs[o].name == name }

  predicate InTrash(p: Option<Path>) { p.Some? && p.value.place == Trash }

  /** A recorded trash destination stands; otherwise the plan's fresh one is recorded. */
  function Destination(row: Organization, chosen: Path): Path {
    if InTrash(row.pending) then row.pending.value else chosen
  }

  function Recorded(w: World, id: Id, dst: Path): World
    requires id in w.orgs
  {
    w.(orgs := w.orgs[id := w.orgs[id].(pending := Some(dst))])
  }

  function CompaniesOf(companies: map<Id, Company>, id: Id): set<Id> {
    set c | c in companies && companies[c].organization == id
  }

  function WithoutOrganization(w: World, id: Id): World {
    w.(orgs := w.orgs - {id}, companies := w.companies - CompaniesOf(w.companies, id))
  }

  /** The new demo's folder is made and synchronized before the transaction that adds its rows commits. */
  function WithFolder(w: World, r: Reset): World {
    var disk := w.live[r.home := Some(r.organization)];
    w.(live := disk, durable := disk)
  }

  function WithDemo(w: World, r: Reset): World {
    var made := WithFolder(w, r);
    made.(orgs := made.orgs[r.organization := Organization(SEED_NAME, r.home, None, true)],
          companies := made.companies[r.company := Company(r.organization, true, false)])
  }

  /** The last transaction: the old rows go and the new demo is made, or nothing of the registry changes. */
  ghost function Replace(before: World, emptied: World, r: Reset, fault: Fault, kept: bool): (World, Outcome) {
    if NameHeld(emptied, SEED_NAME) then (before, NameTaken)
    else if fault == CrashAfterCreate then (AfterCrash(WithFolder(before, r), kept), Crashed)
    else if fault == LastCommitFails then (before, Failed)
    else (WithDemo(emptied, r), Finished)
  }

  ghost function ResetStep(w: World, r: Reset, fault: Fault, kept: bool): (World, Outcome) {
    if !MayReset(w, r.forced) then (w, Permission)
    else if !HasDemo(w) then Replace(w, w, r, fault, kept)
    else
      var id := DemoOf(w);
      var row := w.orgs[id];
      var dst := Destination(row, r.trash);
      if fault == FirstCommitFails then (w, Failed)
      else if fault == CrashAfterFirstCommit then (AfterCrash(Recorded(w, id, dst), kept), Crashed)
      else
        var (moved, outcome) := Move(Recorded(w, id, dst), id, row.path, dst, fault, kept);
        if outcome != Finished then (moved, outcome)
        else Replace(moved, WithoutOrganization(moved, id), r, fault, kept)
  }

  // ---------------------------------------------------------------- rename and its recovery

  function Settled(w: World, id: Id): World
    requires id in w.orgs && w.orgs[id].pending.Some?
  {
    w.(orgs := w.orgs[id := w.orgs[id].(path := w.orgs[id].pending.value, pending := None)])
  }

  /** Finish an organization's pending move and make its destination the registered path. */
  function CompleteMove(w: World, id: Id, fault: Fault, kept: bool): (World, Outcome)
    requires id in w.orgs && w.orgs[id].pending.Some?
  {
    var row := w.orgs[id];
    var (moved, outcome) := Move(w, id, row.path, row.pending.value, fault, kept);
    if outcome != Finished then (moved, outcome)
    else if fault == LastCommitFails then (moved, Failed)
    else (Settled(moved, id), Finished)
  }

  /** What a rename commits before it moves anything. */
  function RenameRecorded(w: World, id: Id, name: Name, target: Path, move: bool): World
    requires id in w.orgs
  {
    var row := w.orgs[id];
    var pending := if move && row.pending.None? && target != row.path then Some(target) else row.pending;
    w.(orgs := w.orgs[id := row.(name := name, pending := pending)])
  }

  ghost function RenameStep(w: World, id: Id, name: Name, target: Path, move: bool,
                            fault: Fault, kept: bool): (World, Outcome) {
    if id !in w.orgs then (w, NotFound)
    else if exists o :: o in w.orgs && o != id && w.orgs[o].name == name then (w, NameTaken)
    else if InTrash(w.orgs[id].pending) then (w, Incomplete)
    else
      var recorded := RenameRecorded(w, id, name, target, move);
      if fault == FirstCommitFails then (w, Failed)
      else if fault == CrashAfterFirstCommit then (AfterCrash(recorded, kept), Crashed)
      else if !move || recorded.orgs[id].pending.None? then (recorded, Finished)
      else CompleteMove(recorded, id, fault, kept)
  }

  function RecoverStep(w: World, id: Id, fault: Fault, kept: bool): (World, Outcome) {
    if id !in w.orgs || w.orgs[id].pending.None? || InTrash(w.orgs[id].pending) then (w, NotFound)
    else CompleteMove(w, id, fault, kept)
  }

  // ---------------------------------------------------------------- runs

  ghost function Attempt(w: World, c: Command): (World, Outcome) {
    match c
    case DemoReset(r, fault, kept) => ResetStep(w, r, fault, kept)
    case Rename(id, name, target, move, fault, kept) => RenameStep(w, id, name, target, move, fault, kept)
    case Recover(id, fault, kept) => RecoverStep(w, id, fault, kept)
    case NewOrganization(id, name, path) =>
      if NameHeld(w, name) then (w, NameTaken)
      else
        var disk := w.live[path := Some(id)];
        (w.(orgs := w.orgs[id := Organization(name, path, None, false)], live := disk, durable := disk), Finished)
    case NewCompany(id, organization) =>
      if organization !in w.orgs then (w, NotFound)
      else (w.(companies := w.companies[id := Company(organization, false, false)]), Finished)
    case TrashCompany(id) =>
      if id !in w.companies then (w, NotFound)
      else (w.(companies := w.companies[id := w.companies[id].(trashed := true)]), Finished)
    case PutFolder(path) =>
      var disk := w.live[path := None];
      (w.(live := disk, durable := disk), Finished)
    case Crash(kept) => (AfterCrash(w, kept), Crashed)
  }

  ghost function Step(w: World, c: Command): World { Attempt(w, c).0 }

  /** The folder names a plan chooses are free, and the ids it mints are new. */
  ghost predicate Fresh(w: World, c: Command) {
    match c
    case DemoReset(r, _, _) =>
      && r.trash.place == Trash && r.trash !in w.live
      && r.home.place == Organizations && (r.home !in w.live || (HasDemo(w) && r.home == w.orgs[DemoOf(w)].path))
      && Unseen(w, r.organization) && r.company !in w.companies
    case Rename(id, _, target, _, _, _) =>
      target.place == Organizations && (target !in w.live || (id in w.orgs && target == w.orgs[id].path))
    case NewOrganization(id, _, path) => Unseen(w, id) && path !in w.live && path.place == Organizations
    case NewCompany(id, _) => id !in w.companies
    case PutFolder(path) => path !in w.live
    case _ => true
  }

  ghost predicate Unseen(w: World, id: Id) {
    id !in w.orgs && forall p :: !Holds(w.live, p, id) && !Holds(w.durable, p, id)
  }

  ghost function Run(w: World, commands: seq<Command>): World
    decreases |commands|
  {
    if commands == [] then w else Run(Step(w, commands[0]), commands[1..])
  }

  /** The folder stands at the destination of a rename that was never completed. */
  ghost predicate HalfMoved(w: World, id: Id)
    requires id in w.orgs
  {
    var pending := w.orgs[id].pending;
    pending.Some? && pending.value.place == Organizations && Holds(w.live, pending.value, id)
  }

  /** A reset starts with no half-finished rename of the demo organization. */
  ghost predicate Settles(w: World, c: Command) {
    c.DemoReset? && HasDemo(w) ==> !HalfMoved(w, DemoOf(w))
  }

  ghost predicate Admissible(w: World, commands: seq<Command>)
    decreases |commands|
  {
    commands == [] || (Fresh(w, commands[0]) && Settles(w, commands[0])
      && Admissible(Step(w, commands[0]), commands[1..]))
  }

  // ---------------------------------------------------------------- what every step keeps

  /** The organization's folder is at exactly one place, and its row records that place. */
  ghost predicate Placed(disk: Disk, row: Organization, id: Id) {
    && (exists p :: Holds(disk, p, id))
    && (forall p, q :: Holds(disk, p, id) && Holds(disk, q, id) ==> p == q)
    && (forall p :: Holds(disk, p, id) ==> p == row.path || row.pending == Some(p))
  }

  ghost predicate RowSound(row: Organization) {
    && row.path.place == Organizations && row.pending != Some(row.path)
    && (InTrash(row.pending) ==> row.demo)
  }

  ghost predicate Located(w: World, id: Id)
    requires id in w.orgs
  {
    && Placed(w.live, w.orgs[id], id) && Placed(w.durable, w.orgs[id], id)
    && forall p :: Holds(w.durable, p, id) ==> Holds(w.live, p, id) || p == w.orgs[id].path
  }

  ghost predicate OneDemo(orgs: map<Id, Organization>) {
    forall a, b :: IsDemo(orgs, a) && IsDemo(orgs, b) ==> a == b
  }

  ghost predicate Sound(w: World) {
    && (forall id | id in w.orgs :: RowSound(w.orgs[id]) && Located(w, id))
    && OneDemo(w.orgs)
    && forall c | c in w.companies :: w.companies[c].organization in w.orgs
  }

  lemma CrashSound(w: World, kept: bool)
    requires Sound(w)
    ensures Sound(AfterCrash(w, kept))
  {
  }

  lemma SyncedSound(w: World)
    requires Sound(w)
    ensures Sound(Synced(w))
  {
  }

  /** A recorded move's rename takes the organization's own folder and nobody else's. */
  lemma RenamedSound(w: World, id: Id)
    requires Sound(w) && id in w.orgs && w.orgs[id].pending.Some?
    requires w.orgs[id].path in w.live && w.orgs[id].pending.value !in w.live
    ensures w.live[w.orgs[id].path] == Some(id)
    ensures Sound(w.(live := Renamed(w.live, w.orgs[id].path, w.orgs[id].pending.value)))
  {
    var row := w.orgs[id];
    var dst := row.pending.value;
    assert Holds(w.live, row.path, id);
    var g := w.(live := Renamed(w.live, row.path, dst));
    assert Holds(g.live, dst, id);
    forall o | o in g.orgs ensures Located(g, o) {
      if o != id {
        assert forall p :: Holds(g.live, p, o) <==> Holds(w.live, p, o);
      } else {
        forall p | Holds(g.live, p, id) ensures p == dst {
          if p != dst { assert Holds(w.live, p, id); }
        }
      }
    }
  }

  lemma AllEndingsSound(w: World, kept: bool)
    requires Sound(w)
    ensures Sound(AfterCrash(w, kept)) && Sound(Synced(w)) && Sound(AfterCrash(Synced(w), kept))
  {
    hide Sound;
    SyncedSound(w);
    CrashSound(w, kept);
    CrashSound(Synced(w), kept);
  }

  /** A recorded move keeps the world sound whatever stops it, and finishes only once it is durable. */
  lemma MoveSound(w: World, id: Id, fault: Fault, kept: bool)
    requires Sound(w) && id in w.orgs && w.orgs[id].pending.Some?
    ensures var (g, outcome) := Move(w, id, w.orgs[id].path, w.orgs[id].pending.value, fault, kept);
      && Sound(g) && g.orgs == w.orgs && g.companies == w.companies
      && (outcome == Finished ==>
        g.durable == g.live && Holds(g.live, w.orgs[id].pending.value, id) && w.orgs[id].path !in g.live)
  {
    hide Sound, AfterCrash;
    var src, dst := w.orgs[id].path, w.orgs[id].pending.value;
    AllEndingsSound(w, kept);
    RowsDiffer(w, id);
    CrashRows(w, kept);
    if src in w.live && dst !in w.live {
      var moved := w.(live := Renamed(w.live, src, dst));
      RenamedSound(w, id);
      AllEndingsSound(moved, kept);
      CrashRows(moved, kept);
      CrashRows(Synced(moved), kept);
    } else {
      CrashRows(Synced(w), kept);
    }
  }

  lemma CrashRows(w: World, kept: bool)
    ensures AfterCrash(w, kept).orgs == w.orgs && AfterCrash(w, kept).companies == w.companies
  {
  }

  lemma RowsDiffer(w: World, id: Id)
    requires Sound(w) && id in w.orgs
    ensures w.orgs[id].pending != Some(w.orgs[id].path)
  {
  }

  /** Recording a destination is sound while the folder is still where its row registers it. */
  lemma RecordedSound(w: World, id: Id, dst: Path)
    requires Sound(w) && id in w.orgs && !HalfMoved(w, id)
    requires dst.place == Trash && w.orgs[id].demo && (InTrash(w.orgs[id].pending) ==> w.orgs[id].pending == Some(dst))
    ensures Sound(Recorded(w, id, dst))
  {
    var g := Recorded(w, id, dst);
    assert forall o :: IsDemo(g.orgs, o) <==> IsDemo(w.orgs, o);
    forall o | o in g.orgs ensures RowSound(g.orgs[o]) && Located(g, o) {
      assert Located(w, o);
    }
  }

  lemma WithoutSound(w: World, id: Id)
    requires Sound(w)
    ensures Sound(WithoutOrganization(w, id))
  {
    var g := WithoutOrganization(w, id);
    assert forall o :: IsDemo(g.orgs, o) ==> IsDemo(w.orgs, o);
    forall o | o in g.orgs ensures RowSound(g.orgs[o]) && Located(g, o) {
      assert Located(w, o);
    }
  }

  /** A folder made at a free place disturbs nobody. */
  lemma FolderSound(w: World, path: Path, marker: Option<Id>)
    requires Sound(w) && path !in w.live && (marker.Some? ==> marker.value !in w.orgs)
    ensures Sound(w.(live := w.live[path := marker], durable := w.live[path := marker]))
  {
    var disk := w.live[path := marker];
    var g := w.(live := disk, durable := disk);
    forall o | o in g.orgs ensures Located(g, o) {
      assert Located(w, o);
      assert forall p :: Holds(disk, p, o) <==> Holds(w.live, p, o);
    }
  }

  /** Rows added for a folder just made. */
  lemma NewRowSound(w: World, id: Id, name: Name, path: Path, demo: bool)
    requires Sound(w) && path !in w.live && path.place == Organizations
    requires id !in w.orgs && forall p :: !Holds(w.live, p, id)
    requires demo ==> !HasDemo(w)
    ensures var disk := w.live[path := Some(id)];
      Sound(w.(orgs := w.orgs[id := Organization(name, path, None, demo)], live := disk, durable := disk))
  {
    var disk := w.live[path := Some(id)];
    var row := Organization(name, path, None, demo);
    var g := w.(orgs := w.orgs[id := row], live := disk, durable := disk);
    assert forall o :: IsDemo(g.orgs, o) ==> o == id || IsDemo(w.orgs, o);
    NewPlaced(w.live, row, id);
    forall o | o in w.orgs ensures Located(g, o) {
      hide Placed;
      assert Located(w, o);
      OthersPlaced(w.live, w.orgs[o], o, path, id);
    }
    assert Located(g, id) by { hide Placed; }
  }

  lemma NewPlaced(disk: Disk, row: Organization, id: Id)
    requires row.path !in disk && row.pending.None? && forall p :: !Holds(disk, p, id)
    ensures Placed(disk[row.path := Some(id)], row, id)
  {
    var after := disk[row.path := Some(id)];
    assert Holds(after, row.path, id);
    assert forall p :: Holds(after, p, id) ==> Holds(disk, p, id) || p == row.path;
  }

  lemma OthersPlaced(disk: Disk, row: Organization, o: Id, path: Path, id: Id)
    requires path !in disk && o != id && Placed(disk, row, o)
    ensures Placed(disk[path := Some(id)], row, o)
    ensures forall p :: Holds(disk[path := Some(id)], p, o) <==> Holds(disk, p, o)
  {
    var after := disk[path := Some(id)];
    assert forall p :: Holds(after, p, o) <==> Holds(disk, p, o);
    var at :| Holds(disk, at, o);
    assert Holds(after, at, o);
  }

  lemma ReplaceSound(before: World, emptied: World, r: Reset, fault: Fault, kept: bool)
    requires Sound(before) && Sound(emptied) && emptied.live == before.live && !HasDemo(emptied)
    requires r.home !in before.live && r.home.place == Organizations
    requires r.organization !in before.orgs && r.organization !in emptied.orgs && forall p ::
        !Holds(before.live, p, r.organization)
    ensures Sound(Replace(before, emptied, r, fault, kept).0)
  {
    hide Sound;
    FolderSound(before, r.home, Some(r.organization));
    CrashSound(WithFolder(before, r), kept);
    NewRowSound(emptied, r.organization, SEED_NAME, r.home, true);
    var g := WithDemo(emptied, r).(companies := emptied.companies);
    CompanySound(g, r.company, Company(r.organization, true, false));
  }

  lemma CompanySound(w: World, id: Id, c: Company)
    requires Sound(w) && c.organization in w.orgs
    ensures Sound(w.(companies := w.companies[id := c]))
  {
    var g := w.(companies := w.companies[id := c]);
    forall o | o in g.orgs ensures RowSound(g.orgs[o]) && Located(g, o) { assert Located(w, o); }
  }

  /** A reset from a settled demo organization is sound wherever it stops. */
  lemma ResetSound(w: World, c: Command)
    requires Sound(w) && c.DemoReset? && Fresh(w, c) && Settles(w, c)
    ensures Sound(ResetStep(w, c.reset, c.fault, c.kept).0)
  {
    hide Sound, Replace, Move, HalfMoved, MayReset;
    var r := c.reset;
    if !HasDemo(w) {
      ReplaceSound(w, w, r, c.fault, c.kept);
    } else {
      var id := DemoOf(w);
      var dst := Destination(w.orgs[id], r.trash);
      var recorded := Recorded(w, id, dst);
      RecordedSound(w, id, dst);
      CrashSound(recorded, c.kept);
      MoveSound(recorded, id, c.fault, c.kept);
      var (moved, outcome) := Move(recorded, id, w.orgs[id].path, dst, c.fault, c.kept);
      if outcome == Finished {
        WithoutSound(moved, id);
        OnlyDemo(moved, id);
        FinishedKeepsFree(recorded, id, dst, r, c.fault, c.kept);
        ReplaceSound(moved, WithoutOrganization(moved, id), r, c.fault, c.kept);
      }
    }
  }

  lemma OnlyDemo(w: World, id: Id)
    requires OneDemo(w.orgs) && IsDemo(w.orgs, id)
    ensures !HasDemo(WithoutOrganization(w, id))
  {
    assert forall o :: IsDemo(WithoutOrganization(w, id).orgs, o) ==> IsDemo(w.orgs, o) && o != id;
  }

  /** A finished move leaves the new folder's place free and its marker unseen. */
  lemma FinishedKeepsFree(w: World, id: Id, dst: Path, r: Reset, fault: Fault, kept: bool)
    requires id in w.orgs && w.orgs[id].path != dst && dst.place == Trash && r.home.place == Organizations
    requires r.home !in w.live || r.home == w.orgs[id].path
    requires forall p :: !Holds(w.live, p, r.organization)
    requires Move(w, id, w.orgs[id].path, dst, fault, kept).1 == Finished
    ensures var g := Move(w, id, w.orgs[id].path, dst, fault, kept).0;
      r.home !in g.live && forall p :: !Holds(g.live, p, r.organization)
  {
    var g := Move(w, id, w.orgs[id].path, dst, fault, kept).0;
    forall p ensures !Holds(g.live, p, r.organization) {
      assert !Holds(w.live, p, r.organization) && !Holds(w.live, w.orgs[id].path, r.organization);
    }
  }

  lemma SettledSound(w: World, id: Id)
    requires Sound(w) && id in w.orgs && w.orgs[id].pending.Some? && w.orgs[id].pending.value.place == Organizations
    requires w.durable == w.live && Holds(w.live, w.orgs[id].pending.value, id)
    ensures Sound(Settled(w, id))
  {
    var g := Settled(w, id);
    assert forall o :: IsDemo(g.orgs, o) <==> IsDemo(w.orgs, o);
    forall o | o in g.orgs ensures RowSound(g.orgs[o]) && Located(g, o) { assert Located(w, o); }
  }

  lemma CompleteSound(w: World, id: Id, fault: Fault, kept: bool)
    requires Sound(w) && id in w.orgs && w.orgs[id].pending.Some? && w.orgs[id].pending.value.place == Organizations
    ensures Sound(CompleteMove(w, id, fault, kept).0)
  {
    hide Sound, Move;
    MoveSound(w, id, fault, kept);
    var (moved, outcome) := Move(w, id, w.orgs[id].path, w.orgs[id].pending.value, fault, kept);
    if outcome == Finished { SettledSound(moved, id); }
  }

  lemma RenameRecordedSound(w: World, id: Id, name: Name, target: Path, move: bool)
    requires Sound(w) && id in w.orgs && target.place == Organizations
    ensures Sound(RenameRecorded(w, id, name, target, move))
  {
    var g := RenameRecorded(w, id, name, target, move);
    assert forall o :: IsDemo(g.orgs, o) <==> IsDemo(w.orgs, o);
    forall o | o in g.orgs ensures RowSound(g.orgs[o]) && Located(g, o) { assert Located(w, o); }
  }

  lemma RenameSound(w: World, c: Command)
    requires Sound(w) && c.Rename? && Fresh(w, c)
    ensures Sound(RenameStep(w, c.id, c.name, c.target, c.move, c.fault, c.kept).0)
  {
    hide Sound, CompleteMove;
    if c.id in w.orgs && !InTrash(w.orgs[c.id].pending) {
      var recorded := RenameRecorded(w, c.id, c.name, c.target, c.move);
      RenameRecordedSound(w, c.id, c.name, c.target, c.move);
      CrashSound(recorded, c.kept);
      if recorded.orgs[c.id].pending.Some? { CompleteSound(recorded, c.id, c.fault, c.kept); }
    }
  }

  lemma StepSound(w: World, c: Command)
    requires Sound(w) && Fresh(w, c) && Settles(w, c)
    ensures Sound(Step(w, c))
  {
    hide Sound, ResetStep, RenameStep, CompleteMove;
    match c
    case DemoReset(_, _, _) => ResetSound(w, c);
    case Rename(_, _, _, _, _, _) => RenameSound(w, c);
    case Recover(id, fault, kept) =>
      if id in w.orgs && w.orgs[id].pending.Some? && !InTrash(w.orgs[id].pending) { CompleteSound(w, id, fault, kept); }
    case NewOrganization(id, name, path) => NewRowSound(w, id, name, path, false);
    case NewCompany(id, organization) =>
      if organization in w.orgs { CompanySound(w, id, Company(organization, false, false)); }
    case TrashCompany(id) => if id in w.companies { TrashSound(w, id); }
    case PutFolder(path) => FolderSound(w, path, None);
    case Crash(kept) => CrashSound(w, kept);
  }

  lemma TrashSound(w: World, id: Id)
    requires Sound(w) && id in w.companies
    ensures Sound(w.(companies := w.companies[id := w.companies[id].(trashed := true)]))
  {
    CompanySound(w, id, w.companies[id].(trashed := true));
  }

  /**
   Over every run of renames, recoveries, resets and crashes, each organization's folder is at exactly one
   place, as it stands and as a crash would leave it, and its row records that place.
   */
  lemma {:induction false} RunSound(w: World, commands: seq<Command>)
    requires Sound(w) && Admissible(w, commands)
    ensures Sound(Run(w, commands))
    decreases |commands|
  {
    hide Sound, Step, Fresh, Settles;
    if commands != [] {
      StepSound(w, commands[0]);
      RunSound(Step(w, commands[0]), commands[1..]);
    }
  }

  // ---------------------------------------------------------------- the destination stands

  /** In both views of the disk the folder is at this trash path. */
  predicate Trashed(w: World, id: Id, p: Path) {
    p.place == Trash && Holds(w.live, p, id) && Holds(w.durable, p, id)
  }

  /** The row records this trash destination, or it is gone and the folder is there for good. */
  ghost predicate Bound(w: World, id: Id, p: Path) {
    if id in w.orgs then w.orgs[id].pending == Some(p) else Trashed(w, id, p)
  }

  /** No move takes anything out of trash or puts another folder in an occupied place. */
  lemma MoveKeepsTrash(w: World, id: Id, src: Path, dst: Path, fault: Fault, kept: bool, o: Id, p: Path)
    requires src.place == Organizations && Trashed(w, o, p)
    ensures Trashed(Move(w, id, src, dst, fault, kept).0, o, p)
  {
  }

  lemma ReplaceKeepsTrash(before: World, emptied: World, r: Reset, fault: Fault, kept: bool, o: Id, p: Path)
    requires Trashed(before, o, p) && Trashed(emptied, o, p) && r.home.place == Organizations
    ensures Trashed(Replace(before, emptied, r, fault, kept).0, o, p)
  {
  }

  lemma StepKeepsTrash(w: World, c: Command, o: Id, p: Path)
    requires Sound(w) && Fresh(w, c) && Trashed(w, o, p)
    ensures Trashed(Step(w, c), o, p)
  {
    hide Move, Replace, MayReset, Located, Fresh;
    match c
    case DemoReset(r, fault, kept) =>
      assert r.home.place == Organizations by { HomePlace(w, c); }
      if HasDemo(w) {
        var id := DemoOf(w);
        var dst := Destination(w.orgs[id], r.trash);
        MoveKeepsTrash(Recorded(w, id, dst), id, w.orgs[id].path, dst, fault, kept, o, p);
        var moved := Move(Recorded(w, id, dst), id, w.orgs[id].path, dst, fault, kept).0;
        ReplaceKeepsTrash(moved, WithoutOrganization(moved, id), r, fault, kept, o, p);
      } else {
        ReplaceKeepsTrash(w, w, r, fault, kept, o, p);
      }
    case Rename(id, name, target, move, fault, kept) =>
      if id in w.orgs {
        var recorded := RenameRecorded(w, id, name, target, move);
        if recorded.orgs[id].pending.Some? {
          MoveKeepsTrash(recorded, id, w.orgs[id].path, recorded.orgs[id].pending.value, fault, kept, o, p);
        }
      }
    case Recover(id, fault, kept) =>
      if id in w.orgs && w.orgs[id].pending.Some? {
        MoveKeepsTrash(w, id, w.orgs[id].path, w.orgs[id].pending.value, fault, kept, o, p);
      }
    case NewOrganization(_, _, path) => assert path.place == Organizations by { HomePlace(w, c); }
    case PutFolder(path) => assert path !in w.live by { HomePlace(w, c); }
    case _ =>
  }

  lemma HomePlace(w: World, c: Command)
    requires Fresh(w, c)
    ensures c.DemoReset? ==> c.reset.home.place == Organizations
    ensures c.NewOrganization? ==> c.path.place == Organizations
    ensures c.PutFolder? ==> c.path !in w.live
    ensures c.DemoReset? ==> c.reset.organization !in w.orgs
    ensures c.NewOrganization? ==> c.id !in w.orgs
  {
  }

  /** A reset bound to a destination stays bound to it: its row is deleted only with the folder durably there. */
  lemma StepBound(w: World, c: Command, id: Id, p: Path)
    requires Sound(w) && Fresh(w, c) && Settles(w, c) && p.place == Trash && Bound(w, id, p)
    ensures Bound(Step(w, c), id, p)
  {
    if id !in w.orgs {
      StepKeepsTrash(w, c, id, p);
      UnseenStays(w, c, id, p);
    } else {
      RowBound(w, c, id, p);
    }
  }

  lemma UnseenStays(w: World, c: Command, id: Id, p: Path)
    requires Fresh(w, c) && id !in w.orgs && Trashed(w, id, p)
    ensures id !in Step(w, c).orgs
  {
    hide Move, MayReset;
    match c
    case DemoReset(r, fault, kept) =>
      assert r.organization != id;
      if HasDemo(w) {
        MoveRows(Recorded(w, DemoOf(w), Destination(w.orgs[DemoOf(w)], r.trash)), DemoOf(w), fault, kept);
      }
    case Rename(o, name, target, move, fault, kept) =>
      if o in w.orgs && RenameRecorded(w, o, name, target, move).orgs[o].pending.Some? {
        MoveRows(RenameRecorded(w, o, name, target, move), o, fault, kept);
      }
    case Recover(o, fault, kept) =>
      if o in w.orgs && w.orgs[o].pending.Some? { MoveRows(w, o, fault, kept); }
    case _ =>
  }

  lemma ResetRowBound(w: World, c: Command, id: Id, p: Path)
    requires Sound(w) && c.DemoReset? && Fresh(w, c) && id in w.orgs && w.orgs[id].pending == Some(p)
        && p.place == Trash
    ensures Bound(ResetStep(w, c.reset, c.fault, c.kept).0, id, p)
  {
    hide Move, MayReset, Sound, Unseen;
    BoundIsDemo(w, id);
    HomePlace(w, c);
    assert HasDemo(w) && Recorded(w, id, p) == w;
    MoveSound(w, id, c.fault, c.kept);
  }

  lemma BoundIsDemo(w: World, id: Id)
    requires Sound(w) && id in w.orgs && InTrash(w.orgs[id].pending)
    ensures IsDemo(w.orgs, id) && DemoOf(w) == id
  {
    hide Located;
    assert RowSound(w.orgs[id]);
  }

  lemma RowBound(w: World, c: Command, id: Id, p: Path)
    requires Sound(w) && Fresh(w, c) && id in w.orgs && w.orgs[id].pending == Some(p) && p.place == Trash
    ensures Bound(Step(w, c), id, p)
  {
    hide Move, MayReset, Sound, ResetStep, Unseen;
    match c
    case DemoReset(r, fault, kept) => ResetRowBound(w, c, id, p);
    case Rename(o, name, target, move, fault, kept) =>
      if o in w.orgs && RenameRecorded(w, o, name, target, move).orgs[o].pending.Some? {
        MoveRows(RenameRecorded(w, o, name, target, move), o, fault, kept);
      }
    case Recover(o, fault, kept) =>
      if o in w.orgs && w.orgs[o].pending.Some? { MoveRows(w, o, fault, kept); }
    case NewOrganization(_, _, _) => HomePlace(w, c);
    case _ =>
  }

  lemma MoveRows(w: World, id: Id, fault: Fault, kept: bool)
    requires id in w.orgs && w.orgs[id].pending.Some?
    ensures Move(w, id, w.orgs[id].path, w.orgs[id].pending.value, fault, kept).0.orgs == w.orgs
    ensures Move(w, id, w.orgs[id].path, w.orgs[id].pending.value, fault, kept).0.companies == w.companies
  {
  }

  /**
   Once a trash destination is recorded, every later run keeps to it: the row goes on recording it, or has
   been deleted and the folder is there, beyond the reach of any crash.
   */
  lemma {:induction false} RunBound(w: World, commands: seq<Command>, id: Id, p: Path)
    requires Sound(w) && Admissible(w, commands) && p.place == Trash && Bound(w, id, p)
    ensures Bound(Run(w, commands), id, p)
    decreases |commands|
  {
    hide Sound, Step, Fresh, Settles, Bound;
    if commands != [] {
      StepSound(w, commands[0]);
      StepBound(w, commands[0], id, p);
      RunBound(Step(w, commands[0]), commands[1..], id, p);
    }
  }

  // ---------------------------------------------------------------- finishing

  ghost predicate HeldByAnother(w: World, name: Name, id: Id) {
    exists o :: o in w.orgs && o != id && w.orgs[o].name == name
  }

  /** Where an undisturbed reset finds the folder: at its registered place or at its destination. */
  lemma FolderFound(w: World, id: Id, dst: Path)
    requires Sound(w) && id in w.orgs && !HalfMoved(w, id)
        && (InTrash(w.orgs[id].pending) ==> w.orgs[id].pending == Some(dst))
    ensures w.orgs[id].path in w.live || Holds(w.live, dst, id)
  {
    assert Located(w, id);
    var p :| Holds(w.live, p, id);
  }

  /**
   An undisturbed reset finishes exactly when no other folder stands at the registered place or the
   destination, and no other organization has taken the seed's name.
   */
  lemma ResetFinishes(w: World, c: Command)
    requires Sound(w) && c.DemoReset? && Fresh(w, c) && Settles(w, c) && c.fault == NoFault
    requires MayReset(w, c.reset.forced) && HasDemo(w)
    ensures var id := DemoOf(w);
      var row := w.orgs[id];
      var dst := Destination(row, c.reset.trash);
      Attempt(w, c).1 == Finished <==> !(row.path in w.live && dst in w.live) && !HeldByAnother(w, SEED_NAME, id)
  {
    hide MayReset, Sound, HalfMoved;
    var id := DemoOf(w);
    var dst := Destination(w.orgs[id], c.reset.trash);
    FolderFound(w, id, dst);
    var recorded := Recorded(w, id, dst);
    var (moved, outcome) := Move(recorded, id, w.orgs[id].path, dst, NoFault, c.kept);
    MoveRows(recorded, id, NoFault, c.kept);
    NamesLeft(w, recorded, moved, id);
  }

  lemma NamesLeft(w: World, recorded: World, moved: World, id: Id)
    requires id in w.orgs && id in recorded.orgs && recorded.orgs == w.orgs[id := recorded.orgs[id]]
        && moved.orgs == recorded.orgs
    ensures NameHeld(WithoutOrganization(moved, id), SEED_NAME) <==> HeldByAnother(w, SEED_NAME, id)
  {
    var left := WithoutOrganization(moved, id);
    assert forall o | o != id && o in w.orgs :: o in left.orgs && left.orgs[o] == w.orgs[o];
    assert forall o | o in left.orgs :: o != id && o in w.orgs && left.orgs[o] == w.orgs[o];
  }

  /** What a finished reset leaves: the old folder durably in trash, its row gone, and one new demo in its own place. */
  lemma FinishedReset(w: World, c: Command)
    requires Sound(w) && c.DemoReset? && Fresh(w, c) && Settles(w, c) && Attempt(w, c).1 == Finished
    ensures var g := Step(w, c);
      && HasDemo(g) && DemoOf(g) == c.reset.organization && Located(g, c.reset.organization)
      && (HasDemo(w) ==>
            var id := DemoOf(w);
            id !in g.orgs && Trashed(g, id, Destination(w.orgs[id], c.reset.trash)))
  {
    hide Sound, Located, MayReset, HalfMoved, Move;
    StepSound(w, c);
    var g := Step(w, c);
    HomePlace(w, c);
    assert IsDemo(g.orgs, c.reset.organization);
    NewDemo(g, c.reset.organization);
    if HasDemo(w) {
      var id := DemoOf(w);
      var recorded := Recorded(w, id, Destination(w.orgs[id], c.reset.trash));
      RecordedSound(w, id, Destination(w.orgs[id], c.reset.trash));
      MoveSound(recorded, id, c.fault, c.kept);
    }
  }

  lemma NewDemo(w: World, id: Id)
    requires Sound(w) && IsDemo(w.orgs, id)
    ensures DemoOf(w) == id && Located(w, id)
  {
  }

  // ---------------------------------------------------------------- real companies

  /** A company and its organization, as a reset must leave them. */
  predicate Keeps(w: World, company: Id, row: Company) {
    company in w.companies && w.companies[company] == row && row.organization in w.orgs
  }

  lemma ReplaceKeeps(before: World, emptied: World, r: Reset, fault: Fault, kept: bool, company: Id, row: Company)
    requires Keeps(before, company, row) && Keeps(emptied, company, row) && r.company != company
    ensures Keeps(Replace(before, emptied, r, fault, kept).0, company, row)
  {
    hide NameHeld;
  }

  lemma RealOutsideDemo(w: World, forced: bool, company: Id)
    requires MayReset(w, forced) && company in w.companies && Real(w.companies[company])
    ensures !IsDemo(w.orgs, w.companies[company].organization)
  {
  }

  lemma CrashKeeps(w: World, kept: bool, company: Id, row: Company)
    ensures Keeps(AfterCrash(w, kept), company, row) <==> Keeps(w, company, row)
  {
  }

  lemma ResetKeepsReal(w: World, c: Command, company: Id)
    requires c.DemoReset? && company in w.companies && Real(w.companies[company]) && c.reset.company != company
    requires w.companies[company].organization in w.orgs
    ensures Keeps(ResetStep(w, c.reset, c.fault, c.kept).0, company, w.companies[company])
  {
    hide Move, MayReset, Replace, AfterCrash;
    var row := w.companies[company];
    if MayReset(w, c.reset.forced) {
      if !HasDemo(w) {
        ReplaceKeeps(w, w, c.reset, c.fault, c.kept, company, row);
      } else {
        var id := DemoOf(w);
        RealOutsideDemo(w, c.reset.forced, company);
        var dst := Destination(w.orgs[id], c.reset.trash);
        var recorded := Recorded(w, id, dst);
        CrashKeeps(recorded, c.kept, company, row);
        MoveRows(recorded, id, c.fault, c.kept);
        var moved := Move(recorded, id, w.orgs[id].path, dst, c.fault, c.kept).0;
        assert Keeps(moved, company, row) && Keeps(WithoutOrganization(moved, id), company, row);
        ReplaceKeeps(moved, WithoutOrganization(moved, id), c.reset, c.fault, c.kept, company, row);
      }
    }
  }

  lemma CompleteRows(w: World, id: Id, fault: Fault, kept: bool)
    requires id in w.orgs && w.orgs[id].pending.Some?
    ensures var g := CompleteMove(w, id, fault, kept).0;
      g.companies == w.companies && g.orgs.Keys == w.orgs.Keys
  {
    hide Move;
    MoveRows(w, id, fault, kept);
  }

  lemma RenameRows(w: World, c: Command)
    requires c.Rename?
    ensures var g := RenameStep(w, c.id, c.name, c.target, c.move, c.fault, c.kept).0;
      g.companies == w.companies && g.orgs.Keys == w.orgs.Keys
  {
    hide CompleteMove;
    if c.id in w.orgs && RenameRecorded(w, c.id, c.name, c.target, c.move).orgs[c.id].pending.Some? {
      CompleteRows(RenameRecorded(w, c.id, c.name, c.target, c.move), c.id, c.fault, c.kept);
    }
  }

  lemma CompaniesUnseen(w: World, c: Command, company: Id)
    requires Fresh(w, c) && company in w.companies
    ensures c.DemoReset? ==> c.reset.company != company
    ensures c.NewCompany? ==> c.id != company
  {
  }

  /** No command deletes a live company the demo did not create, or the organization that holds it. */
  lemma StepKeepsReal(w: World, c: Command, company: Id)
    requires Sound(w) && Fresh(w, c) && company in w.companies && Real(w.companies[company])
    ensures company in Step(w, c).companies && w.companies[company].organization in Step(w, c).orgs
    ensures Step(w, c).companies[company] == w.companies[company] || c == TrashCompany(company)
  {
    hide Located, RowSound, OneDemo, ResetStep, RenameStep, CompleteMove, Fresh;
    CompaniesUnseen(w, c, company);
    match c
    case DemoReset(_, _, _) => ResetKeepsReal(w, c, company);
    case Rename(_, _, _, _, _, _) => RenameRows(w, c);
    case Recover(o, fault, kept) =>
      if o in w.orgs && w.orgs[o].pending.Some? { CompleteRows(w, o, fault, kept); }
    case _ =>
  }

  // ---------------------------------------------------------------- the half-finished rename

  /** The folder is where its row records it, or in trash with its row deleted. */
  ghost predicate Accounted(w: World, id: Id) {
    if id in w.orgs then Placed(w.live, w.orgs[id], id) else exists p: Path :: p.place == Trash && Holds(w.live, p, id)
  }

  /**
   The reset lost power before it synchronized anything, and with it the half-finished rename it started from
   was undone.
   */
  ghost predicate RenameUndone(w: World, c: Command)
    requires c.DemoReset? && HasDemo(w)
  {
    var path := w.orgs[DemoOf(w)].path;
    && !c.kept && Holds(w.durable, path, DemoOf(w))
    && (c.fault == CrashAfterFirstCommit || (c.fault == CrashBeforeSync && path in w.live))
  }

  /**
   A reset that gets past its first commit keeps account of the demo's folder, whatever stops it, exactly when it
   did not start from a half-finished rename or lost power early enough to undo that rename: the commit overwrites
   the only record of where the rename took the folder.
   */
  lemma HalfMovedExactly(w: World, c: Command)
    requires Sound(w) && c.DemoReset? && Fresh(w, c) && HasDemo(w) && MayReset(w, c.reset.forced)
    requires c.fault != FirstCommitFails
    ensures Accounted(Step(w, c), DemoOf(w)) <==> !HalfMoved(w, DemoOf(w)) || RenameUndone(w, c)
  {
    hide MayReset, Sound, Accounted, HalfMoved, RenameUndone;
    var id := DemoOf(w);
    if HalfMoved(w, id) {
      HalfMovedLost(w, c);
    } else {
      StepSound(w, c);
      SettledAccounted(w, c);
    }
  }

  lemma SettledAccounted(w: World, c: Command)
    requires Sound(w) && Sound(Step(w, c)) && c.DemoReset? && Fresh(w, c) && Settles(w, c) && HasDemo(w)
    requires MayReset(w, c.reset.forced) && c.fault != FirstCommitFails
    ensures Accounted(Step(w, c), DemoOf(w))
  {
    hide Step, MayReset, Fresh, Settles, Placed, Sound;
    var id := DemoOf(w);
    if id in Step(w, c).orgs {
      RowPlaced(Step(w, c), id);
    } else {
      GoneTrashed(w, c);
      HomePlace(w, c);
    }
  }

  lemma RowPlaced(w: World, id: Id)
    requires Sound(w) && id in w.orgs
    ensures Placed(w.live, w.orgs[id], id)
  {
    assert Located(w, id);
  }

  /** The row goes only by a finished move and the transaction after it. */
  lemma GoneFinished(w: World, c: Command)
    requires c.DemoReset? && HasDemo(w) && MayReset(w, c.reset.forced) && DemoOf(w) !in Step(w, c).orgs
    ensures var id := DemoOf(w);
      var dst := Destination(w.orgs[id], c.reset.trash);
      var (moved, outcome) := Move(Recorded(w, id, dst), id, w.orgs[id].path, dst, c.fault, c.kept);
      outcome == Finished && Step(w, c) == WithDemo(WithoutOrganization(moved, id), c.reset)
  {
    hide Move, MayReset, NameHeld, WithoutOrganization, WithDemo;
    var id := DemoOf(w);
    MoveRows(Recorded(w, id, Destination(w.orgs[id], c.reset.trash)), id, c.fault, c.kept);
  }

  /** So its folder is at its recorded place in trash. */
  lemma GoneTrashed(w: World, c: Command)
    requires Sound(w) && c.DemoReset? && Fresh(w, c) && Settles(w, c) && HasDemo(w) && MayReset(w, c.reset.forced)
    requires DemoOf(w) !in Step(w, c).orgs
    ensures exists p: Path :: p.place == Trash && Holds(Step(w, c).live, p, DemoOf(w))
  {
    hide Sound, Move, MayReset, HalfMoved, Step, Fresh;
    var id := DemoOf(w);
    var dst := Destination(w.orgs[id], c.reset.trash);
    HomePlace(w, c);
    HomeFree(w, c);
    GoneFinished(w, c);
    RecordedSound(w, id, dst);
    MoveSound(Recorded(w, id, dst), id, c.fault, c.kept);
    assert Holds(Step(w, c).live, dst, id);
  }

  /** The folder stays where the rename left it, or a crash takes it back to where it was before. */
  lemma StaysHalfMoved(w: World, id: Id, at: Path, dst: Path, fault: Fault, kept: bool)
    requires id in w.orgs && dst.place == Trash && dst !in w.live && at.place == Organizations && at != w.orgs[id].path
    requires forall p :: Holds(w.live, p, id) <==> p == at
    ensures var (moved, outcome) := Move(w, id, w.orgs[id].path, dst, fault, kept);
      && (outcome != Crashed ==> forall p :: Holds(moved.live, p, id) <==> p == at)
      && (outcome == Crashed ==> w.orgs[id].path in w.live && (fault == CrashBeforeSync || fault == CrashAfterSync))
      && (outcome == Crashed && (kept || fault == CrashAfterSync) ==> forall p :: Holds(moved.live, p, id) <==> p == at)
      && (outcome == Crashed && !kept && fault == CrashBeforeSync ==> moved.live == w.durable)
      && (w.orgs[id].path in w.live && fault == CrashBeforeSync ==> outcome == Crashed)
      && (outcome == Finished ==> moved.durable == moved.live)
  {
    assert Holds(w.live, at, id) && !Holds(w.live, w.orgs[id].path, id);
    var src := w.orgs[id].path;
    if src in w.live {
      var disk := Renamed(w.live, src, dst);
      forall p ensures Holds(disk, p, id) <==> p == at {
        if p != dst && p != src { assert Holds(disk, p, id) <==> Holds(w.live, p, id); }
      }
    }
  }

  lemma HalfMovedLost(w: World, c: Command)
    requires Sound(w) && c.DemoReset? && Fresh(w, c) && HasDemo(w) && HalfMoved(w, DemoOf(w))
    requires MayReset(w, c.reset.forced) && c.fault != FirstCommitFails
    ensures Accounted(Step(w, c), DemoOf(w)) <==> RenameUndone(w, c)
  {
    hide MayReset, Sound, Move, Accounted, HalfMoved, Replace;
    var id := DemoOf(w);
    HalfMovedRow(w, id);
    var row, at, trash := w.orgs[id], w.orgs[id].pending.value, c.reset.trash;
    AtOnly(w, id);
    assert Holds(w.live, at, id);
    HomeFree(w, c);
    var recorded := Recorded(w, id, trash);
    if c.fault == CrashAfterFirstCommit {
      LostUnless(w, AfterCrash(recorded, c.kept), id, trash, c.kept);
    } else {
      StaysHalfMoved(recorded, id, at, trash, c.fault, c.kept);
      MoveRows(recorded, id, c.fault, c.kept);
      var (moved, outcome) := Move(recorded, id, row.path, trash, c.fault, c.kept);
      if outcome == Finished {
        LostAfterReplace(moved, id, at, c);
      } else {
        LostUnless(w, moved, id, trash, outcome != Crashed || c.kept || c.fault == CrashAfterSync);
      }
    }
  }

  lemma HalfMovedRow(w: World, id: Id)
    requires Sound(w) && id in w.orgs && HalfMoved(w, id)
    ensures var row := w.orgs[id];
      row.pending.Some? && row.pending.value.place == Organizations && row.pending != Some(row.path)
        && !InTrash(row.pending)
  {
  }

  lemma HomeFree(w: World, c: Command)
    requires c.DemoReset? && Fresh(w, c) && HasDemo(w)
    ensures c.reset.trash.place == Trash && c.reset.trash !in w.live && c.reset.organization != DemoOf(w)
    ensures c.reset.home !in w.live || c.reset.home == w.orgs[DemoOf(w)].path
  {
  }

  /**
   With trash recorded over the rename's destination, the folder is accounted for only back at its registered
   path.
   */
  lemma LostUnless(w: World, g: World, id: Id, trash: Path, stays: bool)
    requires Sound(w) && id in w.orgs && HalfMoved(w, id) && trash.place == Trash
    requires id in g.orgs && g.orgs[id] == w.orgs[id].(pending := Some(trash))
    requires stays ==> forall p :: Holds(g.live, p, id) <==> p == w.orgs[id].pending.value
    requires !stays ==> g.live == w.durable
    ensures Accounted(g, id) <==> !stays && Holds(w.durable, w.orgs[id].path, id)
  {
    var row, at := w.orgs[id], w.orgs[id].pending.value;
    assert Located(w, id);
    assert Holds(w.live, at, id);
    if stays { assert Holds(g.live, at, id); }
  }

  lemma AtOnly(w: World, id: Id)
    requires Sound(w) && id in w.orgs && HalfMoved(w, id)
    ensures forall p :: Holds(w.live, p, id) <==> p == w.orgs[id].pending.value
  {
    assert Located(w, id);
  }

  lemma LostAfterReplace(moved: World, id: Id, at: Path, c: Command)
    requires c.DemoReset? && at.place == Organizations && at != c.reset.home && c.reset.organization != id
    requires id in moved.orgs && moved.orgs[id].pending != Some(at) && moved.orgs[id].path != at
    requires moved.durable == moved.live && forall p :: Holds(moved.live, p, id) <==> p == at
    ensures !Accounted(Replace(moved, WithoutOrganization(moved, id), c.reset, c.fault, c.kept).0, id)
  {
    assert Holds(moved.live, at, id);
    var disk := moved.live[c.reset.home := Some(c.reset.organization)];
    assert forall p :: Holds(disk, p, id) ==> Holds(moved.live, p, id);
    assert Holds(disk, at, id);
  }

  /** From any sound root, a rename that loses power after its folder moved leaves such a start. */
  lemma HalfMovedReachable(w: World, c: Command)
    requires Sound(w) && c.Rename? && Fresh(w, c) && c.id in w.orgs && w.orgs[c.id].pending.None?
    requires !HeldByAnother(w, c.name, c.id) && c.move && c.target != w.orgs[c.id].path
    requires c.fault == CrashBeforeSync && c.kept
    ensures c.id in Step(w, c).orgs && HalfMoved(Step(w, c), c.id)
  {
    assert Located(w, c.id);
    var recorded := RenameRecorded(w, c.id, c.name, c.target, true);
    assert Holds(w.live, w.orgs[c.id].path, c.id);
    assert Holds(Renamed(w.live, w.orgs[c.id].path, c.target), c.target, c.id);
  }

  // ---------------------------------------------------------------- names and registered places

  /** The rename is accepted: the organization is known, nobody else has the name, and it is not on its way to trash. */
  ghost predicate Renamable(w: World, c: Command)
    requires c.Rename?
  {
    && c.id in w.orgs
    && (forall o | o in w.orgs && o != c.id :: w.orgs[o].name != c.name)
    && !(w.orgs[c.id].pending.Some? && w.orgs[c.id].pending.value.place == Trash)
  }

  /**
   A recorded move can go on when the folder stands at the one place alone, or under the organization's marker at the
   other alone.  Then it finishes exactly unless it is stopped before both directories are synchronized; the folder
   stands at the destination, and durably so unless the synchronization failed or a crash undid the rename.
   Otherwise nothing moves.
   */
  lemma MoveExactly(w: World, id: Id, src: Path, dst: Path, fault: Fault, kept: bool)
    requires src != dst
    ensures var (g, outcome) := Move(w, id, src, dst, fault, kept);
      var ready := if src in w.live then dst !in w.live && fault != RenameFails else Holds(w.live, dst, id);
      var undone := fault == CrashBeforeSync && !kept;
      && g.orgs == w.orgs && g.companies == w.companies
      && (outcome == Finished <==> ready && fault !in {CrashBeforeSync, SyncFails, CrashAfterSync})
      && (outcome == Crashed <==> ready && fault in {CrashBeforeSync, CrashAfterSync})
      && (outcome == Missing <==> src !in w.live && dst !in w.live)
      && (outcome in {Finished, Crashed, Missing, Incomplete})
      && (!ready ==> g == w)
      && (ready && undone ==> g.live == w.durable)
      && (ready && !undone ==>
            && src !in g.live && dst in g.live && g.live[dst] == (if src in w.live then w.live[src] else Some(id))
            && g.live - {dst} == w.live - {src, dst})
      && (ready ==> g.durable == if fault == SyncFails then w.durable else g.live)
  {
  }

  /** A rename that has a folder to move. */
  ghost predicate MovesFolder(w: World, c: Command) {
    c.Rename? && c.move && c.id in w.orgs && (w.orgs[c.id].pending.Some? || c.target != w.orgs[c.id].path)
  }

  /** Nothing finishes past a fault that stops it. */
  lemma FinishedUnhindered(w: World, c: Command)
    requires (c.DemoReset? || c.Rename? || c.Recover?) && Attempt(w, c).1 == Finished
    ensures c.Rename? || (c.DemoReset? && HasDemo(w)) ==> c.fault !in {FirstCommitFails, CrashAfterFirstCommit}
    ensures c.DemoReset? ==> c.fault !in {CrashAfterCreate, LastCommitFails}
    ensures c.Recover? || (c.DemoReset? && HasDemo(w)) || MovesFolder(w, c) ==>
      c.fault !in {CrashBeforeSync, SyncFails, CrashAfterSync} && (!c.DemoReset? ==> c.fault != LastCommitFails)
  {
    hide AfterCrash, Synced, Renamed, Recorded, Settled, WithDemo, WithFolder, WithoutOrganization, MayReset, NameHeld;
  }

  /** After a crash, in whatever command, the folders that stand are the durable ones. */
  lemma CrashedStands(w: World, c: Command)
    requires Attempt(w, c).1 == Crashed
    ensures Step(w, c).live == Step(w, c).durable
    ensures c.Crash? ==>
      var disk := if c.kept then w.live else w.durable;
      Step(w, c) == World(w.orgs, w.companies, disk, disk)
  {
    hide AfterCrash, Move, Replace, Recorded, Settled, MayReset, NameHeld;
    SettlesCrash(w, if c.Crash? then c.kept else true);
    match c
    case DemoReset(r, fault, kept) =>
      if HasDemo(w) {
        var id := DemoOf(w);
        var dst := Destination(w.orgs[id], r.trash);
        var recorded := Recorded(w, id, dst);
        SettlesCrash(recorded, kept);
        MoveCrashed(recorded, id, w.orgs[id].path, dst, fault, kept);
        var moved := Move(recorded, id, w.orgs[id].path, dst, fault, kept).0;
        ReplaceCrashed(moved, WithoutOrganization(moved, id), r, fault, kept);
      }
      ReplaceCrashed(w, w, r, fault, kept);
    case Rename(id, name, target, move, fault, kept) =>
      if id in w.orgs {
        var recorded := RenameRecorded(w, id, name, target, move);
        SettlesCrash(recorded, kept);
        if id in recorded.orgs && recorded.orgs[id].pending.Some? {
          MoveCrashed(recorded, id, recorded.orgs[id].path, recorded.orgs[id].pending.value, fault, kept);
        }
      }
    case Recover(id, fault, kept) =>
      if id in w.orgs && w.orgs[id].pending.Some? {
        MoveCrashed(w, id, w.orgs[id].path, w.orgs[id].pending.value, fault, kept);
      }
    case _ =>
  }

  lemma SettlesCrash(w: World, kept: bool)
    ensures var g, disk := AfterCrash(w, kept), if kept then w.live else w.durable;
      g == World(w.orgs, w.companies, disk, disk)
  {
  }

  lemma MoveCrashed(w: World, id: Id, src: Path, dst: Path, fault: Fault, kept: bool)
    ensures var (g, outcome) := Move(w, id, src, dst, fault, kept);
      outcome == Crashed ==> g.live == g.durable
  {
  }

  lemma ReplaceCrashed(before: World, emptied: World, r: Reset, fault: Fault, kept: bool)
    ensures var (g, outcome) := Replace(before, emptied, r, fault, kept);
      outcome == Crashed ==> g.live == g.durable
  {
    hide WithFolder, WithDemo, NameHeld;
  }

  /** What the commands beside them make, each that and nothing else. */
  lemma MadeExactly(w: World, c: Command)
    requires c.NewOrganization? || c.NewCompany? || c.TrashCompany? || c.PutFolder?
    ensures var (g, outcome) := Attempt(w, c);
      && (outcome == Finished || g == w)
      && (c.NewOrganization? ==>
            && (outcome == Finished <==> forall o | o in w.orgs :: w.orgs[o].name != c.name)
            && (outcome == Finished ==>
                  && g.orgs == w.orgs[c.id := Organization(c.name, c.path, None, false)] && g.companies == w.companies
                  && g.live == g.durable == w.live[c.path := Some(c.id)]))
      && (c.NewCompany? ==>
            && (outcome == Finished <==> c.organization in w.orgs)
            && (outcome == Finished ==>
              g == w.(companies := w.companies[c.id := Company(c.organization, false, false)])))
      && (c.TrashCompany? ==>
            && (outcome == Finished <==> c.id in w.companies)
            && (outcome == Finished ==>
                  && c.id in g.companies && g.companies[c.id].trashed
                  && g == w.(companies := w.companies[c.id := w.companies[c.id].(trashed := true)])))
      && (c.PutFolder? ==>
            && outcome == Finished && g.orgs == w.orgs && g.companies == w.companies
            && g.live == g.durable == w.live[c.path := None])
  {
  }

  /**
   A rename past its first commit, whatever stops it later, leaves the organization the name asked for and every other
   row as it was; one refused or failed before it changes nothing at all.
   */
  lemma RenameNames(w: World, c: Command)
    requires c.Rename?
    ensures var g := Step(w, c);
      && (!Renamable(w, c) || c.fault == FirstCommitFails ==> g == w)
      && (Renamable(w, c) && c.fault != FirstCommitFails ==>
            && g.orgs.Keys == w.orgs.Keys && g.orgs[c.id].name == c.name && g.orgs[c.id].demo == w.orgs[c.id].demo
            && (forall o | o in w.orgs && o != c.id :: g.orgs[o] == w.orgs[o])
            && g.companies == w.companies)
  {
    hide Move, AfterCrash, RenameRecorded;
    HeldElsewhere(w, c);
    if Renamable(w, c) && c.fault != FirstCommitFails {
      var recorded := RenameRecorded(w, c.id, c.name, c.target, c.move);
      RecordedNames(w, c.id, c.name, c.target, c.move);
      CrashRows(recorded, c.kept);
      if recorded.orgs[c.id].pending.Some? { MoveRows(recorded, c.id, c.fault, c.kept); }
    }
  }

  lemma HeldElsewhere(w: World, c: Command)
    requires c.Rename?
    ensures (exists o :: o in w.orgs && o != c.id && w.orgs[o].name == c.name)
        <==> !(forall o | o in w.orgs && o != c.id :: w.orgs[o].name != c.name)
  {
  }

  lemma RecordedNames(w: World, id: Id, name: Name, target: Path, move: bool)
    requires id in w.orgs
    ensures var g := RenameRecorded(w, id, name, target, move);
      && g.orgs.Keys == w.orgs.Keys && g.companies == w.companies
      && g.orgs[id].name == name && g.orgs[id].demo == w.orgs[id].demo
      && forall o | o in w.orgs && o != id :: g.orgs[o] == w.orgs[o]
  {
  }

  /** Where a rename asked to move the folder is taking it: where a move begun before was, or the folder name chosen. */
  function MoveTarget(row: Organization, target: Path): Path {
    if row.pending.Some? then row.pending.value else target
  }

  /**
   An accepted rename that finishes has the folder durably at its registered place: the target when it was asked to
   move it, the old place and the same unfinished move, if any, when it was not.  One that does not finish records
   where it is going.
   */
  lemma RenamePlaces(w: World, c: Command)
    requires Sound(w) && c.Rename? && Fresh(w, c) && Renamable(w, c) && c.fault != FirstCommitFails
    ensures var was, (g, outcome) := w.orgs[c.id], Attempt(w, c);
      && c.id in g.orgs
      && (!c.move ==> g.orgs[c.id].path == was.path && g.orgs[c.id].pending == was.pending)
      && (c.move && outcome == Finished ==>
        g.orgs[c.id].path == MoveTarget(was, c.target) && g.orgs[c.id].pending.None?)
      && (c.move && outcome == Finished && (was.pending.Some? || c.target != was.path) ==>
            Holds(g.live, MoveTarget(was, c.target), c.id) && Holds(g.durable, MoveTarget(was, c.target), c.id))
      && (c.move && outcome != Finished ==> g.orgs[c.id].path == was.path)
      && (c.move && outcome != Finished && (was.pending.Some? || c.target != was.path) ==>
            g.orgs[c.id].pending == Some(MoveTarget(was, c.target)))
  {
    hide Move, Sound;
    var recorded := RenameRecorded(w, c.id, c.name, c.target, c.move);
    RenameTarget(w, c);
    RenameRecordedSound(w, c.id, c.name, c.target, c.move);
    if recorded.orgs[c.id].pending.Some? { MoveSound(recorded, c.id, c.fault, c.kept); }
  }

  lemma RenameTarget(w: World, c: Command)
    requires c.Rename? && Fresh(w, c)
    ensures c.target.place == Organizations
        && (c.target !in w.live || (c.id in w.orgs && c.target == w.orgs[c.id].path))
  {
  }

  /** Undisturbed, it finishes exactly when no folder of another stands at the target it was asked to move to. */
  lemma RenameFinishes(w: World, c: Command)
    requires Sound(w) && c.Rename? && Fresh(w, c) && c.fault == NoFault
    ensures Attempt(w, c).1 == Finished <==>
      && Renamable(w, c)
      && (c.move && (w.orgs[c.id].pending.Some? || c.target != w.orgs[c.id].path) ==>
            !(w.orgs[c.id].path in w.live && MoveTarget(w.orgs[c.id], c.target) in w.live))
  {
    hide Sound;
    RenameTarget(w, c);
    if Renamable(w, c) { FolderStands(w, c.id); }
  }

  /** The organization's folder stands at one of its two recorded places. */
  lemma FolderStands(w: World, id: Id)
    requires Sound(w) && id in w.orgs
    ensures Holds(w.live, w.orgs[id].path, id)
         || (w.orgs[id].pending.Some? && Holds(w.live, w.orgs[id].pending.value, id))
  {
    assert Located(w, id);
    var p :| Holds(w.live, p, id);
  }

  /** A recovery keeps every name, and when it finishes registers the recorded target, with the folder durably there. */
  lemma RecoverPlaces(w: World, c: Command)
    requires Sound(w) && c.Recover?
    ensures var (g, outcome) := Attempt(w, c);
      && g.orgs.Keys == w.orgs.Keys && g.companies == w.companies
      && (forall o | o in w.orgs :: g.orgs[o].name == w.orgs[o].name && (o != c.id ==> g.orgs[o] == w.orgs[o]))
      && (outcome == Finished ==> c.id in w.orgs && w.orgs[c.id].pending.Some?)
      && (outcome == Finished ==>
            var to := w.orgs[c.id].pending.value;
            && g.orgs[c.id].path == to && g.orgs[c.id].pending.None?
            && Holds(g.live, to, c.id) && Holds(g.durable, to, c.id))
      && (outcome != Finished ==> g.orgs == w.orgs)
  {
    hide Move, Sound;
    if c.id in w.orgs && w.orgs[c.id].pending.Some? { MoveSound(w, c.id, c.fault, c.kept); }
  }

  /** A reset that does not finish changes no row but the demo's recorded destination. */
  lemma UnfinishedReset(w: World, c: Command)
    requires c.DemoReset? && Attempt(w, c).1 != Finished
    ensures var g := Step(w, c);
      && g.orgs.Keys == w.orgs.Keys && g.companies == w.companies
      && (forall o | o in w.orgs && !w.orgs[o].demo :: g.orgs[o] == w.orgs[o])
      && (forall o | o in w.orgs :: g.orgs[o] == w.orgs[o].(pending := g.orgs[o].pending))
  {
    hide Move, MayReset, AfterCrash, Replace;
    if HasDemo(w) {
      var id := DemoOf(w);
      var recorded := Recorded(w, id, Destination(w.orgs[id], c.reset.trash));
      MoveRows(recorded, id, c.fault, c.kept);
      CrashRows(recorded, c.kept);
      var moved := Move(recorded, id, w.orgs[id].path, Destination(w.orgs[id], c.reset.trash), c.fault, c.kept).0;
      ReplaceNames(moved, WithoutOrganization(moved, id), c);
    } else {
      ReplaceNames(w, w, c);
    }
  }

  /**
   One that does replaces the demo's row by a new one under the seed's name, which nobody else then has, and no
   other.
   */
  lemma ResetNames(w: World, c: Command)
    requires c.DemoReset? && Fresh(w, c) && Attempt(w, c).1 == Finished
    ensures var g := Step(w, c);
      && c.reset.organization in g.orgs
      && g.orgs[c.reset.organization] == Organization(SEED_NAME, c.reset.home, None, true)
      && c.reset.company in g.companies && g.companies[c.reset.company] == Company(c.reset.organization, true, false)
      && (forall o | o in w.orgs && !w.orgs[o].demo :: o in g.orgs && g.orgs[o] == w.orgs[o])
      && (forall o | o in g.orgs && o != c.reset.organization ::
            o in w.orgs && g.orgs[o] == w.orgs[o] && g.orgs[o].name != SEED_NAME)
  {
    hide Move, MayReset, AfterCrash, Replace, Fresh;
    NewIds(w, c);
    if HasDemo(w) {
      var id := DemoOf(w);
      var recorded := Recorded(w, id, Destination(w.orgs[id], c.reset.trash));
      MoveRows(recorded, id, c.fault, c.kept);
      var moved := Move(recorded, id, w.orgs[id].path, Destination(w.orgs[id], c.reset.trash), c.fault, c.kept).0;
      ReplaceNames(moved, WithoutOrganization(moved, id), c);
    } else {
      ReplaceNames(w, w, c);
    }
  }

  lemma NewIds(w: World, c: Command)
    requires c.DemoReset? && Fresh(w, c)
    ensures c.reset.organization !in w.orgs && c.reset.company !in w.companies
  {
  }

  lemma ReplaceNames(before: World, emptied: World, c: Command)
    requires c.DemoReset?
    ensures var (g, outcome) := Replace(before, emptied, c.reset, c.fault, c.kept);
      && (outcome != Finished ==> g.orgs == before.orgs && g.companies == before.companies)
      && (outcome == Finished ==>
            && g.orgs == emptied.orgs[c.reset.organization := Organization(SEED_NAME, c.reset.home, None, true)]
            && g.companies == emptied.companies[c.reset.company := Company(c.reset.organization, true, false)]
            && forall o | o in emptied.orgs :: emptied.orgs[o].name != SEED_NAME)
  {
  }

  /**
   It is refused permission exactly with a live company the demo did not create inside the demo, or anywhere
   unless forced.
   */
  lemma ResetRefusedExactly(w: World, c: Command)
    requires c.DemoReset?
    ensures Attempt(w, c).1 == Permission <==>
      exists x | x in w.companies :: !w.companies[x].demo && !w.companies[x].trashed
        && (!c.reset.forced || (w.companies[x].organization in w.orgs && w.orgs[w.companies[x].organization].demo))
    ensures Attempt(w, c).1 == Permission ==> Step(w, c) == w
  {
    hide Move, NameHeld;
    if HasDemo(w) { NotPermission(Recorded(w, DemoOf(w), Destination(w.orgs[DemoOf(w)], c.reset.trash)), c); }
    if RealInDemo(w) {
      var x :| x in w.companies && Real(w.companies[x]) && IsDemo(w.orgs, w.companies[x].organization);
    }
  }

  lemma NotPermission(w: World, c: Command)
    requires c.DemoReset?
    ensures forall id, src, dst :: Move(w, id, src, dst, c.fault, c.kept).1 != Permission
  {
  }

  /** No two organizations share a name. */
  ghost predicate NamesDistinct(orgs: map<Id, Organization>) {
    forall a, b | a in orgs && b in orgs && orgs[a].name == orgs[b].name :: a == b
  }

  lemma SameNames(w: World, g: World)
    requires NamesDistinct(w.orgs) && g.orgs.Keys == w.orgs.Keys
    requires forall o | o in w.orgs :: g.orgs[o].name == w.orgs[o].name
    ensures NamesDistinct(g.orgs)
  {
  }

  lemma StepNames(w: World, c: Command)
    requires Sound(w) && Fresh(w, c) && NamesDistinct(w.orgs)
    ensures NamesDistinct(Step(w, c).orgs)
  {
    hide Sound, Fresh, RenameStep, RecoverStep, ResetStep;
    var g := Step(w, c);
    if c.Rename? { RenameNames(w, c); }
    else if c.Recover? { RecoverPlaces(w, c); SameNames(w, g); }
    else if c.DemoReset? {
      if Attempt(w, c).1 == Finished {
        ResetNames(w, c);
      } else {
        UnfinishedReset(w, c);
        SameNames(w, g);
      }
    }
  }

  /** Over every run, whatever stops its commands, no two organizations share a name. */
  lemma {:induction false} RunNames(w: World, commands: seq<Command>)
    requires Sound(w) && Admissible(w, commands) && NamesDistinct(w.orgs)
    ensures NamesDistinct(Run(w, commands).orgs)
    decreases |commands|
  {
    hide Sound, Step, Fresh, Settles, NamesDistinct;
    if commands != [] {
      StepSound(w, commands[0]);
      StepNames(w, commands[0]);
      RunNames(Step(w, commands[0]), commands[1..]);
    }
  }

  /** Only a rename changes a name: a move finished or not, a recovery, a reset, a crash or a refusal never does. */
  lemma NamesKept(w: World, c: Command, o: Id)
    requires Sound(w) && Fresh(w, c) && o in w.orgs && o in Step(w, c).orgs
    requires !(c.Rename? && c.id == o && Renamable(w, c) && c.fault != FirstCommitFails)
    ensures Step(w, c).orgs[o].name == w.orgs[o].name
  {
    hide Sound, RenameStep, RecoverStep, ResetStep;
    if c.Rename? { RenameNames(w, c); }
    else if c.Recover? { RecoverPlaces(w, c); }
    else if c.DemoReset? { if Attempt(w, c).1 == Finished { ResetNames(w, c); } else { UnfinishedReset(w, c); } }
  }

  // ---------------------------------------------------------------- the registry in place

  /** The data root: its registry rows and its folders, changed step by step. */
  class DataRoot {
    var orgs: map<Id, Organization>
    var companies: map<Id, Company>
    var live: Disk
    var durable: Disk

    function State(): World
      reads this
    {
      World(orgs, companies, live, durable)
    }

    constructor ()
      ensures State() == World(map[], map[], map[], map[])
    {
      orgs, companies, live, durable := map[], map[], map[], map[];
    }

    /** The power goes: the folders are as they stand, or as they were last synchronized. */
    method Fail(kept: bool)
      modifies this`live, this`durable
      ensures State() == AfterCrash(old(State()), kept)
    {
      if kept { durable := live; } else { live := durable; }
    }

    method MoveFolder(id: Id, src: Path, dst: Path, fault: Fault, kept: bool) returns (outcome: Outcome)
      modifies this`live, this`durable
      ensures (State(), outcome) == Move(old(State()), id, src, dst, fault, kept)
    {
      if src in live {
        if dst in live || fault == RenameFails { return Incomplete; }
        live := Renamed(live, src, dst);
      } else if dst !in live {
        return Missing;
      } else if live[dst] != Some(id) {
        return Incomplete;
      }
      if fault == CrashBeforeSync {
        Fail(kept);
        return Crashed;
      }
      if fault == SyncFails { return Incomplete; }
      durable := live;
      if fault == CrashAfterSync {
        Fail(kept);
        return Crashed;
      }
      return Finished;
    }

    method FindDemo() returns (found: Option<Id>)
      requires OneDemo(orgs)
      ensures found == if HasDemo(State()) then Some(DemoOf(State())) else None
    {
      var rest := orgs.Keys;
      while rest != {}
        invariant rest <= orgs.Keys
        invariant forall o | o in orgs && o !in rest :: !orgs[o].demo
      {
        var o :| o in rest;
        if orgs[o].demo {
          assert IsDemo(orgs, o);
          return Some(o);
        }
        rest := rest - {o};
      }
      return None;
    }

    /** No live company the demo did not create inside the demo, and none elsewhere unless forced. */
    method DemoOnlyRoot(forced: bool) returns (ok: bool)
      ensures ok <==> MayReset(State(), forced)
    {
      var rest := companies.Keys;
      var books := false;
      while rest != {}
        invariant rest <= companies.Keys
        invariant books <==> exists c :: c in companies && c !in rest && Real(companies[c])
        invariant forall c | c in companies && c !in rest && Real(companies[c]) ::
            !IsDemo(orgs, companies[c].organization)
      {
        var c :| c in rest;
        if Real(companies[c]) {
          if IsDemo(orgs, companies[c].organization) { return false; }
          books := true;
        }
        rest := rest - {c};
      }
      return !books || forced;
    }

    method NameIsHeld(name: Name, except: Option<Id>) returns (held: bool)
      ensures held <==> exists o :: o in orgs && Some(o) != except && orgs[o].name == name
    {
      var rest := orgs.Keys;
      while rest != {}
        invariant rest <= orgs.Keys
        invariant forall o | o in orgs && o !in rest && Some(o) != except :: orgs[o].name != name
      {
        var o :| o in rest;
        if Some(o) != except && orgs[o].name == name { return true; }
        rest := rest - {o};
      }
      return false;
    }

    /** Deletes the organization's companies one by one, then its own row. */
    method DeleteOrganizationRows(id: Id)
      modifies this`orgs, this`companies
      ensures State() == WithoutOrganization(old(State()), id)
    {
      ghost var was := companies;
      var inside := CompaniesOf(companies, id);
      var rest := inside;
      while rest != {}
        invariant orgs == old(orgs) && companies == was - (inside - rest)
        invariant rest <= inside
      {
        var c :| c in rest;
        companies := companies - {c};
        rest := rest - {c};
      }
      assert inside - rest == inside;
      orgs := orgs - {id};
    }

    /** The last transaction of a reset; a refusal or a failed commit leaves the registry as it was. */
    method ReplaceDemo(existing: Option<Id>, r: Reset, fault: Fault, kept: bool) returns (outcome: Outcome)
      modifies this
      ensures var emptied := if existing.Some? then WithoutOrganization(old(State()), existing.value) else old(State());
        (State(), outcome) == Replace(old(State()), emptied, r, fault, kept)
    {
      var orgsBefore, companiesBefore := orgs, companies;
      if existing.Some? { DeleteOrganizationRows(existing.value); }
      var held := NameIsHeld(SEED_NAME, None);
      if held {
        orgs, companies := orgsBefore, companiesBefore;
        return NameTaken;
      }
      if fault == LastCommitFails {
        orgs, companies := orgsBefore, companiesBefore;
        return Failed;
      }
      live := live[r.home := Some(r.organization)];
      durable := live;
      if fault == CrashAfterCreate {
        orgs, companies := orgsBefore, companiesBefore;
        Fail(kept);
        return Crashed;
      }
      orgs := orgs[r.organization := Organization(SEED_NAME, r.home, None, true)];
      companies := companies[r.company := Company(r.organization, true, false)];
      return Finished;
    }

    method DemoReset(r: Reset, fault: Fault, kept: bool) returns (outcome: Outcome)
      requires OneDemo(orgs)
      modifies this
      ensures (State(), outcome) == ResetStep(old(State()), r, fault, kept)
    {
      hide Move, Replace, MayReset;
      var may := DemoOnlyRoot(r.forced);
      if !may { return Permission; }
      var existing := FindDemo();
      if existing.None? {
        outcome := ReplaceDemo(None, r, fault, kept);
        return;
      }
      var id := existing.value;
      var row := orgs[id];
      var dst := Destination(row, r.trash);
      if fault == FirstCommitFails { return Failed; }
      orgs := orgs[id := row.(pending := Some(dst))];
      if fault == CrashAfterFirstCommit {
        Fail(kept);
        return Crashed;
      }
      outcome := MoveFolder(id, row.path, dst, fault, kept);
      if outcome != Finished { return; }
      outcome := ReplaceDemo(Some(id), r, fault, kept);
    }

    method FinishMove(id: Id, fault: Fault, kept: bool) returns (outcome: Outcome)
      requires id in orgs && orgs[id].pending.Some?
      modifies this`orgs, this`live, this`durable
      ensures (State(), outcome) == CompleteMove(old(State()), id, fault, kept)
    {
      hide Move;
      var row := orgs[id];
      MoveRows(State(), id, fault, kept);
      outcome := MoveFolder(id, row.path, row.pending.value, fault, kept);
      if outcome != Finished { return; }
      if fault == LastCommitFails { return Failed; }
      orgs := orgs[id := row.(path := row.pending.value, pending := None)];
    }

    method Rename(id: Id, name: Name, target: Path, move: bool, fault: Fault, kept: bool) returns (outcome: Outcome)
      modifies this`orgs, this`live, this`durable
      ensures (State(), outcome) == RenameStep(old(State()), id, name, target, move, fault, kept)
    {
      hide CompleteMove;
      if id !in orgs { return NotFound; }
      var held := NameIsHeld(name, Some(id));
      if held { return NameTaken; }
      var row := orgs[id];
      if InTrash(row.pending) { return Incomplete; }
      if fault == FirstCommitFails { return Failed; }
      var pending := row.pending;
      if move && pending.None? && target != row.path { pending := Some(target); }
      orgs := orgs[id := row.(name := name, pending := pending)];
      if fault == CrashAfterFirstCommit {
        Fail(kept);
        return Crashed;
      }
      if !move || pending.None? { return Finished; }
      outcome := FinishMove(id, fault, kept);
    }
  }
}
