/**
 The company attachment store: content-addressed bodies, versioned link occurrences, import files and
 their staleness, item and group pictures, and the collection of unlinked bodies with a crash allowed
 between any two of its steps.
 */
module Attachments {
  import opened Options

  type Id = nat
  type Digest = nat
  type Person = nat

  const IMPORT_FILE := "import_file"
  const IMPORT_FILE_DAYS := 7
  const DAY := 86400000
  const ITEM := "item"
  const PICTURE_CAPTION := "Item picture"
  const THUMBNAIL_CAPTION := "Item picture thumbnail"
  const IMAGE_TYPES := {"image/jpeg", "image/png", "image/webp"}

  datatype Attachment = Attachment(sha: Digest, size: nat, media: string, collected: bool, version: nat)

  /** An occurrence; `audited` is its activity as the audit entry of each of its versions shows it. */
  datatype Link = Link(attachment: Id, recordType: string, record: Id, caption: string,
                       linkedBy: Person, linkedAt: int, active: bool, version: nat, audited: seq<bool>)

  /** The picture chosen for an item and the small copy shown beside it. */
  datatype Shown = Shown(picture: Option<Id>, thumbnail: Option<Id>)

  datatype Progress = Previewed | Running | Stopped | Waiting | Done | Cancelled | RolledBack | Failed

  /** An import run: landed once it has a batch of records. */
  datatype ImportRun = ImportRun(attachment: Id, landed: bool, progress: Progress)

  /** A body to collect, with the row that owned it when the intent was written; an orphan has none. */
  datatype Candidate = Candidate(sha: Digest, owner: Option<Id>, row: Attachment)

  datatype Files = Files(attachments: map<Id, Attachment>, links: map<Id, Link>, items: map<Id, Shown>,
                         groups: map<Id, Id>, runs: map<Id, ImportRun>, bodies: set<Digest>,
                         pending: Option<seq<Candidate>>)

  datatype Upload = Upload(sha: Digest, size: nat, media: string)

  datatype Fault = Busy | Io | Validation | ValueRange | RecordNotFound | VersionConflict | RecordInUse

  /** What is answered outside these tables: is the item known, are the two files images, may the item change. */
  datatype Checks = Checks(known: bool, image: Option<Fault>, thumbnail: Option<Fault>, item: Option<Fault>)

  datatype Kind = AttachmentRow | LinkRow

  /** One audited row change: no version before a row is created. */
  datatype Touched = Touched(kind: Kind, id: Id, before: Option<nat>, after: nat)

  /** Who writes an occurrence, and when. */
  datatype Writer = Writer(actor: Person, now: int)

  datatype Command =
    | Add(upload: Upload, recordType: string, record: Id, caption: string, writer: Writer, newAttachment: Id,
          newLink: Id)
    | FailedUpload(upload: Upload)
    | AddLink(attachment: Id, recordType: string, record: Id, caption: string, writer: Writer, newLink: Id)
    | Unlink(link: Id, expected: nat)
    | SetItemPicture(item: Id, upload: Upload, thumbnail: Option<Id>, caption: string, checks: Checks, writer: Writer,
                     newAttachment: Id, newLink: Id, newThumbnail: Id)
    | UseItemPicture(item: Id, attachment: Id, thumbnail: Option<Id>, checks: Checks, writer: Writer,
                     newLink: Id, newThumbnail: Id)
    | ClearItemPicture(item: Id, keepFile: bool, fallback: Option<Id>, checks: Checks)
    | SetGroupPicture(box: Id, upload: Upload, newAttachment: Id)
    | UseGroupPicture(box: Id, attachment: Id)
    | ClearGroups(boxes: set<Id>)
    | SetRun(run: Id, state: ImportRun)
    | Collect(candidates: seq<Candidate>)
    | RemoveBody(index: nat)
    | Finish

  /** What an attempt leaves behind; a fault may still have changed files on disk. */
  datatype Outcome = Outcome(files: Files, touched: set<Touched>, fault: Option<Fault>)

  function Applied(f: Files, touched: set<Touched>): Outcome { Outcome(f, touched, None) }

  function Refused(f: Files, fault: Fault): Outcome { Outcome(f, {}, Some(fault)) }

  // ---------------------------------------------------------------- lookups

  predicate Owns(f: Files, id: Id, sha: Digest) { id in f.attachments && f.attachments[id].sha == sha }

  ghost predicate Known(f: Files, sha: Digest) { exists id :: Owns(f, id, sha) }

  ghost function OwnerOf(f: Files, sha: Digest): Id
    requires Known(f, sha)
  {
    var id :| Owns(f, id, sha);
    id
  }

  predicate Joins(links: map<Id, Link>, link: Id, attachment: Id, recordType: string, record: Id) {
    && link in links && links[link].active
    && links[link].attachment == attachment && links[link].recordType == recordType && links[link].record == record
  }

  ghost predicate Joined(links: map<Id, Link>, attachment: Id, recordType: string, record: Id) {
    exists l :: Joins(links, l, attachment, recordType, record)
  }

  ghost predicate Linked(f: Files, attachment: Id) {
    exists l :: l in f.links && f.links[l].active && f.links[l].attachment == attachment
  }

  ghost predicate Pictured(f: Files, attachment: Id) {
    exists b :: b in f.groups && f.groups[b] == attachment
  }

  predicate Available(f: Files, attachment: Id) {
    && attachment in f.attachments && !f.attachments[attachment].collected
    && f.attachments[attachment].sha in f.bodies
  }

  function ShownBy(items: map<Id, Shown>, item: Id): Shown {
    if item in items then items[item] else Shown(None, None)
  }

  function Ids(id: Option<Id>): set<Id> { if id.Some? then {id.value} else {} }

  /** The files an item refers to. */
  function Refers(shown: Shown): set<Id> { Ids(shown.picture) + Ids(shown.thumbnail) }

  predicate RunUses(run: ImportRun, attachment: Id) {
    run.attachment == attachment && (run.landed || run.progress == Running || run.progress == Stopped)
  }

  ghost predicate Used(f: Files, attachment: Id) {
    exists r :: r in f.runs && RunUses(f.runs[r], attachment)
  }

  /** Is this import file given up as another is added: replaced by it or too old, with no run that needs it? */
  ghost predicate Stale(f: Files, l: Link, keep: Id, caption: string, writer: Writer) {
    && l.recordType == IMPORT_FILE && l.active && l.attachment != keep
    && ((l.linkedBy == writer.actor && l.caption == caption) || l.linkedAt < writer.now - IMPORT_FILE_DAYS * DAY)
    && !Used(f, l.attachment)
  }

  ghost function StaleLinks(f: Files, keep: Id, caption: string, writer: Writer): set<Id> {
    set l | l in f.links && Stale(f, f.links[l], keep, caption, writer)
  }

  /** The active occurrences joining an item to any of these files. */
  ghost function ItemLinks(links: map<Id, Link>, item: Id, gone: set<Id>): set<Id> {
    set l | l in links && links[l].active && links[l].recordType == ITEM && links[l].record == item
      && links[l].attachment in gone
  }

  /** The active occurrences of an item's small copy that are not yet captioned as one. */
  ghost function Uncaptioned(links: map<Id, Link>, thumbnail: Id, item: Id): set<Id> {
    set l | l in links && Joins(links, l, thumbnail, ITEM, item) && links[l].caption != THUMBNAIL_CAPTION
  }

  // ---------------------------------------------------------------- what each command does

  function NewLink(attachment: Id, recordType: string, record: Id, caption: string, writer: Writer): Link {
    Link(attachment, recordType, record, caption, writer.actor, writer.now, true, 1, [true])
  }

  function Retired(l: Link): Link {
    l.(active := false, version := l.version + 1, audited := l.audited + [false])
  }

  function Recaptioned(l: Link): Link {
    l.(caption := THUMBNAIL_CAPTION, version := l.version + 1, audited := l.audited + [l.active])
  }

  function Restored(a: Attachment): Attachment {
    if a.collected then a.(collected := false, version := a.version + 1) else a
  }

  function Collected(a: Attachment): Attachment { a.(collected := true, version := a.version + 1) }

  ghost function RetireAll(links: map<Id, Link>, gone: set<Id>): map<Id, Link> {
    map l | l in links :: if l in gone then Retired(links[l]) else links[l]
  }

  ghost function RecaptionAll(links: map<Id, Link>, plain: set<Id>): map<Id, Link> {
    map l | l in links :: if l in plain then Recaptioned(links[l]) else links[l]
  }

  /** The entries of these links, each one version on. */
  ghost function LinkTouches(links: map<Id, Link>, changed: set<Id>): set<Touched> {
    set l | l in changed && l in links :: Touched(LinkRow, l, Some(links[l].version), links[l].version + 1)
  }

  /** Links after a change to them, and the entries written for it. */
  datatype Relinked = Relinked(links: map<Id, Link>, touched: set<Touched>)

  /** A link occurrence for a record: the active one if there is one, otherwise a new one. */
  ghost function Associate(links: map<Id, Link>, attachment: Id, recordType: string, record: Id, caption: string,
                           writer: Writer, newLink: Id): Relinked {
    if Joined(links, attachment, recordType, record) then Relinked(links, {})
    else Relinked(links[newLink := NewLink(attachment, recordType, record, caption, writer)],
                  {Touched(LinkRow, newLink, None, 1)})
  }

  ghost function Retire(links: map<Id, Link>, gone: set<Id>): Relinked {
    Relinked(RetireAll(links, gone), LinkTouches(links, gone))
  }

  /** An item's small copy: linked under its own caption, an active occurrence recaptioned if it has another. */
  ghost function AsThumbnail(links: map<Id, Link>, thumbnail: Id, item: Id, writer: Writer, newLink: Id): Relinked {
    var plain := Uncaptioned(links, thumbnail, item);
    if plain != {} then Relinked(RecaptionAll(links, plain), LinkTouches(links, plain))
    else Associate(links, thumbnail, ITEM, item, THUMBNAIL_CAPTION, writer, newLink)
  }

  /** The row an upload belongs to and the tables with it: created, brought back, or as it is. */
  ghost function Received(f: Files, up: Upload, newAttachment: Id): (Id, Outcome) {
    if !Known(f, up.sha) then
      (newAttachment,
       Applied(f.(attachments := f.attachments[newAttachment := Attachment(up.sha, up.size, up.media, false, 1)]),
               {Touched(AttachmentRow, newAttachment, None, 1)}))
    else
      var id := OwnerOf(f, up.sha);
      var row := f.attachments[id];
      (id, Applied(f.(attachments := f.attachments[id := Restored(row)]),
                   if row.collected then {Touched(AttachmentRow, id, Some(row.version), row.version + 1)} else {}))
  }

  ghost predicate SizeDiffers(f: Files, up: Upload) {
    Known(f, up.sha) && f.attachments[OwnerOf(f, up.sha)].size != up.size
  }

  ghost function StaleFor(f: Files, c: Command, keep: Id): set<Id>
    requires c.Add?
  {
    if c.recordType == IMPORT_FILE then StaleLinks(f, keep, c.caption, c.writer) else {}
  }

  ghost function AddStep(f: Files, c: Command): Outcome
    requires c.Add?
  {
    if f.pending.Some? then Refused(f, Busy)
    else if SizeDiffers(f, c.upload) then Refused(f, Io)
    else
      var (id, first) := Received(f, c.upload, c.newAttachment);
      var retired := Retire(f.links, StaleFor(f, c, id));
      var linked := Associate(retired.links, id, c.recordType, c.record, c.caption, c.writer, c.newLink);
      Applied(first.files.(bodies := f.bodies + {c.upload.sha}, links := linked.links),
              first.touched + (retired.touched + linked.touched))
  }

  ghost function LinkStep(f: Files, c: Command): Outcome
    requires c.AddLink?
  {
    if c.recordType == IMPORT_FILE then Refused(f, Validation)
    else if f.pending.Some? then Refused(f, Busy)
    else if c.attachment !in f.attachments then Refused(f, RecordNotFound)
    else if !Available(f, c.attachment) then Refused(f, Io)
    else
      var linked := Associate(f.links, c.attachment, c.recordType, c.record, c.caption, c.writer, c.newLink);
      Applied(f.(links := linked.links), linked.touched)
  }

  /** Did a version after the expected one change whether the link is active, or leave no entry to tell? */
  ghost predicate ActivityChangedSince(l: Link, expected: nat)
    requires 1 <= expected < l.version
  {
    |l.audited| < l.version || exists k | expected <= k < l.version :: l.audited[k] != l.audited[k - 1]
  }

  /** Unlinking changes only whether the link is active, so it merges over every later version that did not. */
  ghost predicate Conflicts(l: Link, expected: nat)
    requires expected >= 1
  {
    expected > l.version || (expected < l.version && ActivityChangedSince(l, expected))
  }

  ghost function UnlinkStep(f: Files, c: Command): Outcome
    requires c.Unlink?
  {
    if c.expected == 0 then Refused(f, Validation)
    else if f.pending.Some? then Refused(f, Busy)
    else if c.link !in f.links then Refused(f, RecordNotFound)
    else
      var l := f.links[c.link];
      if Conflicts(l, c.expected) then Refused(f, VersionConflict)
      else if !l.active then Applied(f, {})
      else if l.recordType == ITEM && l.attachment in Refers(ShownBy(f.items, l.record)) then Refused(f, Validation)
      else
        var retired := Retire(f.links, {c.link});
        Applied(f.(links := retired.links), retired.touched)
  }

  /** The refusals of choosing a picture once its own file is known: the small copy's first, the item's next. */
  function ChoiceFault(f: Files, picture: Id, thumbnail: Option<Id>, checks: Checks): Option<Fault> {
    if thumbnail.None? then checks.item
    else if thumbnail.value !in f.attachments then Some(RecordNotFound)
    else if thumbnail.value == picture then Some(Validation)
    else if !Available(f, thumbnail.value) then Some(Io)
    else if checks.thumbnail.Some? then checks.thumbnail
    else checks.item
  }

  /** Links the picture and its small copy to the item and unlinks those they replace. */
  ghost function ChooseLinks(links: map<Id, Link>, item: Id, was: Shown, shown: Shown, caption: string, writer: Writer,
                             newLink: Id, newThumbnail: Id): Relinked
    requires shown.picture.Some?
  {
    var one := Associate(links, shown.picture.value, ITEM, item, caption, writer, newLink);
    var two := if shown.thumbnail.None? then Relinked(one.links, {})
               else AsThumbnail(one.links, shown.thumbnail.value, item, writer, newThumbnail);
    var three := Retire(two.links, ItemLinks(two.links, item, Refers(was) - Refers(shown)));
    Relinked(three.links, one.touched + two.touched + three.touched)
  }

  ghost function SetItemStep(f: Files, c: Command): Outcome
    requires c.SetItemPicture?
  {
    if f.pending.Some? then Refused(f, Busy)
    else if !c.checks.known then Refused(f, RecordNotFound)
    else if c.checks.image.Some? then Refused(f, c.checks.image.value)
    else
      var (id, first) := Received(f, c.upload, c.newAttachment);
      var fault := ChoiceFault(f, id, c.thumbnail, c.checks);
      if fault.Some? then Refused(f, fault.value)
      else
        var shown := Shown(Some(id), c.thumbnail);
        var chosen := ChooseLinks(f.links, c.item, ShownBy(f.items, c.item), shown, c.caption, c.writer, c.newLink,
                                  c.newThumbnail);
        Applied(first.files.(bodies := f.bodies + {c.upload.sha}, links := chosen.links,
                             items := f.items[c.item := shown]),
                first.touched + chosen.touched)
  }

  ghost function UseItemStep(f: Files, c: Command): Outcome
    requires c.UseItemPicture?
  {
    if f.pending.Some? then Refused(f, Busy)
    else if !c.checks.known || c.attachment !in f.attachments then Refused(f, RecordNotFound)
    else if !Available(f, c.attachment) then Refused(f, Io)
    else if c.checks.image.Some? then Refused(f, c.checks.image.value)
    else
      var fault := ChoiceFault(f, c.attachment, c.thumbnail, c.checks);
      if fault.Some? then Refused(f, fault.value)
      else
        var shown := Shown(Some(c.attachment), c.thumbnail);
        var chosen := ChooseLinks(f.links, c.item, ShownBy(f.items, c.item), shown, PICTURE_CAPTION, c.writer,
                                  c.newLink, c.newThumbnail);
        Applied(f.(links := chosen.links, items := f.items[c.item := shown]), chosen.touched)
  }

  /**
   What leaves an item as its picture is cleared: the small copy, and the picture it shows unless the file is
   kept.
   */
  function Cleared(shown: Shown, keepFile: bool, fallback: Option<Id>): set<Id> {
    Ids(shown.thumbnail) + if keepFile then {} else Ids(if shown.picture.Some? then shown.picture else fallback)
  }

  ghost function ClearItemStep(f: Files, c: Command): Outcome
    requires c.ClearItemPicture?
  {
    if f.pending.Some? then Refused(f, Busy)
    else if !c.checks.known then Refused(f, RecordNotFound)
    else if c.checks.item.Some? then Refused(f, c.checks.item.value)
    else
      var gone := Cleared(ShownBy(f.items, c.item), c.keepFile, c.fallback);
      var retired := Retire(f.links, ItemLinks(f.links, c.item, gone));
      Applied(f.(links := retired.links, items := f.items[c.item := Shown(None, None)]), retired.touched)
  }

  /**
   A group picture is uploaded like an attachment and referred to without a link; its media type follows the
   image.
   */
  ghost function SetGroupStep(f: Files, c: Command): Outcome
    requires c.SetGroupPicture?
  {
    if f.pending.Some? then Refused(f, Busy)
    else
      var known := Known(f, c.upload.sha);
      var id := if known then OwnerOf(f, c.upload.sha) else c.newAttachment;
      var row :=
        if !known then Attachment(c.upload.sha, c.upload.size, c.upload.media, false, 1)
        else
          var was := f.attachments[id];
          if was.collected || was.media != c.upload.media
          then was.(collected := false, media := c.upload.media, version := was.version + 1) else was;
      var touched :=
        if !known then {Touched(AttachmentRow, id, None, 1)}
        else if row != f.attachments[id] then {Touched(AttachmentRow, id, Some(f.attachments[id].version), row.version)}
        else {};
      Applied(f.(attachments := f.attachments[id := row], groups := f.groups[c.box := id],
                 bodies := f.bodies + {c.upload.sha}), touched)
  }

  ghost function UseGroupStep(f: Files, c: Command): Outcome
    requires c.UseGroupPicture?
  {
    if f.pending.Some? then Refused(f, Busy)
    else if c.attachment !in f.attachments then Refused(f, RecordNotFound)
    else if !Available(f, c.attachment) then Refused(f, Io)
    else Applied(f.(groups := f.groups[c.box := c.attachment]), {})
  }

  // ---------------------------------------------------------------- collection

  /** May this body be collected: its row has no link and no picture, or no row keeps it. */
  ghost predicate Collectable(f: Files, item: Candidate) {
    && (forall id | Owns(f, id, item.sha) :: !Linked(f, id) && !Pictured(f, id))
    && match item.owner
       case Some(id) =>
         id in f.attachments && f.attachments[id] == item.row && item.row.sha == item.sha && !item.row.collected
       case None => forall id | Owns(f, id, item.sha) :: f.attachments[id].collected
  }

  ghost predicate DistinctOwners(items: seq<Candidate>) {
    forall i, j | 0 <= i < j < |items| :: items[i].owner.Some? ==> items[i].owner != items[j].owner
  }

  function Shas(items: seq<Candidate>): set<Digest> {
    set i | 0 <= i < |items| :: items[i].sha
  }

  function Owners(items: seq<Candidate>): set<Id> {
    set i | 0 <= i < |items| && items[i].owner.Some? :: items[i].owner.value
  }

  ghost predicate NoLinkNow(f: Files, sha: Digest) {
    forall id | Owns(f, id, sha) :: !Linked(f, id) && !Pictured(f, id)
  }

  ghost predicate OwnerUnchanged(f: Files, item: Candidate) {
    item.owner.Some? ==>
      item.owner.value in f.attachments && f.attachments[item.owner.value].version == item.row.version
      && !f.attachments[item.owner.value].collected
  }

  ghost function MarkAll(attachments: map<Id, Attachment>, owned: set<Id>): map<Id, Attachment> {
    map id | id in attachments :: if id in owned then Collected(attachments[id]) else attachments[id]
  }

  ghost function MarkTouches(attachments: map<Id, Attachment>, owned: set<Id>): set<Touched> {
    set id | id in owned && id in attachments ::
      Touched(AttachmentRow, id, Some(attachments[id].version), attachments[id].version + 1)
  }

  ghost function CollectStep(f: Files, candidates: seq<Candidate>): Outcome {
    if f.pending.Some? then Refused(f, Busy)
    else if DistinctOwners(candidates) && forall i | 0 <= i < |candidates| :: Collectable(f, candidates[i])
    then Applied(f.(pending := Some(candidates)), {}) else Refused(f, Io)
  }

  /** The bodies go first; the rows are marked and the intent deleted in one transaction after that. */
  ghost function FinishStep(f: Files): Outcome {
    if f.pending.None? then Refused(f, Io)
    else
      var items := f.pending.value;
      if !(forall i | 0 <= i < |items| :: NoLinkNow(f, items[i].sha)) then Refused(f, Io)
      else if !(forall i | 0 <= i < |items| :: OwnerUnchanged(f, items[i]))
      then Refused(f.(bodies := f.bodies - Shas(items)), Io)
      else
        var owned := Owners(items);
        Applied(f.(bodies := f.bodies - Shas(items), attachments := MarkAll(f.attachments, owned), pending := None),
                MarkTouches(f.attachments, owned))
  }

  // ---------------------------------------------------------------- one step

  ghost function Attempt(f: Files, c: Command): Outcome {
    if c.Add? then AddStep(f, c)
    else if c.FailedUpload? then
      if f.pending.Some? then Refused(f, Busy) else Refused(f.(bodies := f.bodies + {c.upload.sha}), Io)
    else if c.AddLink? then LinkStep(f, c)
    else if c.Unlink? then UnlinkStep(f, c)
    else if c.SetItemPicture? then SetItemStep(f, c)
    else if c.UseItemPicture? then UseItemStep(f, c)
    else if c.ClearItemPicture? then ClearItemStep(f, c)
    else if c.SetGroupPicture? then SetGroupStep(f, c)
    else if c.UseGroupPicture? then UseGroupStep(f, c)
    else if c.ClearGroups? then Applied(f.(groups := f.groups - c.boxes), {})
    else if c.SetRun? then Applied(f.(runs := f.runs[c.run := c.state]), {})
    else if c.Collect? then CollectStep(f, c.candidates)
    else if c.RemoveBody? then
      if f.pending.Some? && c.index < |f.pending.value|
      then Applied(f.(bodies := f.bodies - {f.pending.value[c.index].sha}), {}) else Refused(f, Io)
    else FinishStep(f)
  }

  /** The ids a command mints are new. */
  predicate Fresh(f: Files, c: Command) {
    match c
    case Add(_, _, _, _, _, newAttachment, newLink) => newAttachment !in f.attachments && newLink !in f.links
    case AddLink(_, _, _, _, _, newLink) => newLink !in f.links
    case SetItemPicture(_, _, _, _, _, _, newAttachment, newLink, newThumbnail) =>
      newAttachment !in f.attachments && newLink !in f.links && newThumbnail !in f.links && newLink != newThumbnail
    case UseItemPicture(_, _, _, _, _, newLink, newThumbnail) =>
      newLink !in f.links && newThumbnail !in f.links && newLink != newThumbnail
    case SetGroupPicture(_, _, newAttachment) => newAttachment !in f.attachments
    case _ => true
  }

  ghost function Step(f: Files, c: Command): Files { Attempt(f, c).files }

  ghost function Run(f: Files, commands: seq<Command>): Files
    decreases |commands|
  {
    if commands == [] then f else Run(Step(f, commands[0]), commands[1..])
  }

  ghost predicate AllFresh(f: Files, commands: seq<Command>)
    decreases |commands|
  {
    commands == [] || (Fresh(f, commands[0]) && AllFresh(Step(f, commands[0]), commands[1..]))
  }

  // ---------------------------------------------------------------- what every step keeps

  ghost predicate DistinctShas(f: Files) {
    forall a, b | a in f.attachments && b in f.attachments && f.attachments[a].sha == f.attachments[b].sha :: a == b
  }

  predicate SameTarget(l: Link, m: Link) {
    l.attachment == m.attachment && l.recordType == m.recordType && l.record == m.record
  }

  ghost predicate OneActive(links: map<Id, Link>) {
    forall l, m | l in links && m in links && links[l].active && links[m].active && SameTarget(links[l], links[m]) ::
      l == m
  }

  /** The attachments something still refers to. */
  ghost predicate Held(f: Files, id: Id) { Linked(f, id) || Pictured(f, id) }

  ghost predicate HeldAvailable(f: Files) {
    forall id | Held(f, id) :: id in f.attachments && !f.attachments[id].collected
  }

  ghost predicate Pending(f: Files, sha: Digest) {
    f.pending.Some? && sha in Shas(f.pending.value)
  }

  ghost predicate BodiesStored(f: Files) {
    forall id | id in f.attachments && !f.attachments[id].collected ::
      f.attachments[id].sha in f.bodies || Pending(f, f.attachments[id].sha)
  }

  ghost predicate PendingSound(f: Files) {
    f.pending.Some? ==>
      DistinctOwners(f.pending.value)
      && forall i | 0 <= i < |f.pending.value| :: Collectable(f, f.pending.value[i])
  }

  /** Every version is audited, and only the last can have changed the link's activity. */
  ghost predicate Audited(l: Link) {
    && |l.audited| == l.version >= 1
    && (l.active || l.version >= 2)
    && forall k | 0 <= k < l.version :: l.audited[k] == (k < l.version - 1 || l.active)
  }

  ghost predicate Versions(f: Files) {
    && (forall l | l in f.links :: Audited(f.links[l]))
    && forall a | a in f.attachments :: f.attachments[a].version >= 1
  }

  ghost predicate Stocked(f: Files) {
    DistinctShas(f) && OneActive(f.links) && HeldAvailable(f) && BodiesStored(f) && PendingSound(f) && Versions(f)
  }

  ghost predicate ItemLinked(links: map<Id, Link>, item: Id, shown: Shown) {
    forall a | a in Refers(shown) :: Joined(links, a, ITEM, item)
  }

  /** An item's chosen picture and small copy are linked to it. */
  ghost predicate ChosenLinked(links: map<Id, Link>, items: map<Id, Shown>) {
    forall item | item in items :: ItemLinked(links, item, items[item])
  }

  ghost predicate Sound(f: Files) {
    Stocked(f) && ChosenLinked(f.links, f.items)
  }

  /** Every active link's file is available: not collected, and its bytes are in the store. */
  lemma ActiveReadable(f: Files, l: Id)
    requires Stocked(f) && l in f.links && f.links[l].active
    ensures Available(f, f.links[l].attachment)
  {
    HeldReadable(f, f.links[l].attachment);
  }

  /** So is every picture and small copy an item refers to. */
  lemma ChosenReadable(f: Files, item: Id, attachment: Id)
    requires Sound(f) && attachment in Refers(ShownBy(f.items, item))
    ensures Available(f, attachment) && Joined(f.links, attachment, ITEM, item)
  {
    hide Stocked, Available;
    assert ItemLinked(f.links, item, f.items[item]);
    var l :| Joins(f.links, l, attachment, ITEM, item);
    ActiveReadable(f, l);
  }

  lemma PendingUnheld(f: Files, sha: Digest)
    requires PendingSound(f)
    ensures Pending(f, sha) ==> forall id | Owns(f, id, sha) :: !Held(f, id)
  {
    if Pending(f, sha) {
      var i :| 0 <= i < |f.pending.value| && f.pending.value[i].sha == sha;
      assert Collectable(f, f.pending.value[i]);
    }
  }

  lemma HeldReadable(f: Files, id: Id)
    requires Stocked(f) && Held(f, id)
    ensures Available(f, id)
  {
    PendingUnheld(f, f.attachments[id].sha);
    assert Owns(f, id, f.attachments[id].sha);
  }

  /**
   An unlinking with a stale version conflicts exactly when the link has been unlinked since or the version is
   yet to come.
   */
  lemma ConflictsExactly(l: Link, expected: nat)
    requires Audited(l) && expected >= 1
    ensures Conflicts(l, expected) <==> expected > l.version || (!l.active && expected < l.version)
  {
    if expected < l.version {
      assert !l.active ==> l.audited[l.version - 1] != l.audited[l.version - 2];
      assert l.active ==> forall k | expected <= k < l.version :: l.audited[k] == l.audited[k - 1];
    }
  }

  /** Refused for its version exactly then, or as an item's chosen file; otherwise the link is left unlinked. */
  lemma UnlinkExactly(f: Files, c: Command)
    requires Sound(f) && c.Unlink? && c.expected >= 1 && f.pending.None? && c.link in f.links
    ensures var l, fault := f.links[c.link], UnlinkStep(f, c).fault;
      && (fault == Some(VersionConflict) <==> c.expected > l.version || (!l.active && c.expected < l.version))
      && (fault == Some(Validation) <==>
          c.expected <= l.version && l.active && l.recordType == ITEM
            && l.attachment in Refers(ShownBy(f.items, l.record)))
    ensures var l, o := f.links[c.link], UnlinkStep(f, c);
      o.fault.None? ==> o.files.links == f.links[c.link := if l.active then Retired(l) else l]
  {
    ConflictsExactly(f.links[c.link], c.expected);
    RetireOne(f.links, c.link);
  }

  lemma RetireOne(links: map<Id, Link>, l: Id)
    requires l in links
    ensures RetireAll(links, {l}) == links[l := Retired(links[l])]
    ensures LinkTouches(links, {l}) == {Touched(LinkRow, l, Some(links[l].version), links[l].version + 1)}
  {
  }

  // ---------------------------------------------------------------- edits of the links

  /**
   A link keeps what it joins; while active it may be captioned as a small copy or retired, and then it never
   changes.
   */
  predicate LinkLater(l: Link, m: Link) {
    m == l || (l.active && (m == Retired(l) || m == Recaptioned(l)))
  }

  ghost predicate LinksLater(f: map<Id, Link>, g: map<Id, Link>) {
    && (forall l | l in f :: l in g && LinkLater(f[l], g[l]))
    && (forall l | l in g && l !in f :: g[l].active && g[l].version == 1 && g[l].audited == [true])
  }

  predicate LinkTold(was: map<Id, Link>, now: map<Id, Link>, t: Touched) {
    && t.id in now && (t.id in was ==> was[t.id] != now[t.id])
    && t.after == now[t.id].version
    && t.before == if t.id in was then Some(was[t.id].version) else None
  }

  predicate Moved(was: map<Id, Link>, now: map<Id, Link>, l: Id) {
    l in now && (l in was ==> was[l] != now[l])
  }

  /** A change of links of these files alone, with an entry for each link changed and for no other. */
  ghost predicate Edit(was: map<Id, Link>, now: map<Id, Link>, touched: set<Touched>, about: set<Id>) {
    && LinksLater(was, now)
    && (forall t :: t in touched <==> t.kind == LinkRow && LinkTold(was, now, t))
    && (forall l | Moved(was, now, l) :: now[l].attachment in about)
  }

  lemma NoEdit(links: map<Id, Link>, about: set<Id>)
    ensures Edit(links, links, {}, about)
  {
  }

  lemma EditTwice(a: map<Id, Link>, b: map<Id, Link>, c: map<Id, Link>, first: set<Touched>, next: set<Touched>,
                  x: set<Id>, y: set<Id>)
    requires Edit(a, b, first, x) && Edit(b, c, next, y) && x !! y
    ensures Edit(a, c, first + next, x + y)
  {
    hide Retired, Recaptioned;
    forall l | l in b ensures !Moved(a, b, l) || !Moved(b, c, l) { KeepsAttachment(b, c, l); }
    forall t ensures t in first + next <==> t.kind == LinkRow && LinkTold(a, c, t) { ToldTwice(a, b, c, t); }
    forall l | Moved(a, c, l) ensures c[l].attachment in x + y { if l in b { KeepsAttachment(b, c, l); } }
  }

  lemma KeepsAttachment(b: map<Id, Link>, c: map<Id, Link>, l: Id)
    requires LinksLater(b, c) && l in b
    ensures l in c && SameTarget(b[l], c[l])
  {
  }

  lemma ToldTwice(a: map<Id, Link>, b: map<Id, Link>, c: map<Id, Link>, t: Touched)
    requires LinksLater(a, b) && LinksLater(b, c)
    requires t.id in b ==> !Moved(a, b, t.id) || !Moved(b, c, t.id)
    ensures LinkTold(a, c, t) <==> LinkTold(a, b, t) || LinkTold(b, c, t)
  {
    hide Retired, Recaptioned;
  }

  lemma AssociateEdit(links: map<Id, Link>, attachment: Id, recordType: string, record: Id, caption: string,
                      writer: Writer, newLink: Id)
    requires newLink !in links
    ensures var r := Associate(links, attachment, recordType, record, caption, writer, newLink);
      Edit(links, r.links, r.touched, {attachment})
  {
    hide Joined, Retired, Recaptioned;
  }

  predicate ActiveAbout(links: map<Id, Link>, some: set<Id>, about: set<Id>) {
    forall l | l in some :: l in links && links[l].active && links[l].attachment in about
  }

  lemma RetireEdit(links: map<Id, Link>, gone: set<Id>, about: set<Id>)
    requires ActiveAbout(links, gone, about)
    ensures Edit(links, Retire(links, gone).links, Retire(links, gone).touched, about)
  {
  }

  lemma RecaptionEdit(links: map<Id, Link>, plain: set<Id>, about: set<Id>)
    requires ActiveAbout(links, plain, about)
    ensures Edit(links, RecaptionAll(links, plain), LinkTouches(links, plain), about)
  {
  }

  lemma ThumbnailEdit(links: map<Id, Link>, thumbnail: Id, item: Id, writer: Writer, newLink: Id)
    requires newLink !in links
    ensures var r := AsThumbnail(links, thumbnail, item, writer, newLink); Edit(links, r.links, r.touched, {thumbnail})
  {
    hide Edit, Associate, RecaptionAll, LinkTouches;
    RecaptionEdit(links, Uncaptioned(links, thumbnail, item), {thumbnail});
    AssociateEdit(links, thumbnail, ITEM, item, THUMBNAIL_CAPTION, writer, newLink);
  }

  // ---------------------------------------------------------------- rows over time and their audit

  /** An attachment keeps its digest and size; each change counts one version. */
  predicate AttachmentLater(a: Attachment, b: Attachment) {
    b.sha == a.sha && b.size == a.size && (b == a || b.version == a.version + 1)
  }

  ghost predicate AttachmentsLater(f: map<Id, Attachment>, g: map<Id, Attachment>) {
    && (forall a | a in f :: a in g && AttachmentLater(f[a], g[a]))
    && (forall a | a in g && a !in f :: g[a].version == 1 && !g[a].collected)
  }

  ghost predicate Later(f: Files, g: Files) {
    LinksLater(f.links, g.links) && AttachmentsLater(f.attachments, g.attachments)
  }

  predicate AttachmentTold(was: map<Id, Attachment>, now: map<Id, Attachment>, t: Touched) {
    && t.id in now && (t.id in was ==> was[t.id] != now[t.id])
    && t.after == now[t.id].version
    && t.before == if t.id in was then Some(was[t.id].version) else None
  }

  /** A change of attachment rows, with an entry for each row changed and for no other. */
  ghost predicate RowEdit(was: map<Id, Attachment>, now: map<Id, Attachment>, touched: set<Touched>) {
    && AttachmentsLater(was, now)
    && (forall t :: t in touched <==> t.kind == AttachmentRow && AttachmentTold(was, now, t))
  }

  lemma NoRowEdit(attachments: map<Id, Attachment>)
    ensures RowEdit(attachments, attachments, {})
  {
  }

  /** The entry names a row that changed, with its version before and after. */
  predicate Tells(f: Files, g: Files, t: Touched) {
    if t.kind == LinkRow then LinkTold(f.links, g.links, t) else AttachmentTold(f.attachments, g.attachments, t)
  }

  /** The audited entries are the row changes, all of them and nothing else. */
  ghost predicate Exact(f: Files, o: Outcome) {
    forall t :: t in o.touched <==> Tells(f, o.files, t)
  }

  ghost predicate Recorded(f: Files, o: Outcome) { Later(f, o.files) && Exact(f, o) }

  lemma Together(f: Files, o: Outcome, rows: set<Touched>, relinked: set<Touched>, about: set<Id>)
    requires RowEdit(f.attachments, o.files.attachments, rows)
    requires Edit(f.links, o.files.links, relinked, about)
    requires o.touched == rows + relinked
    ensures Recorded(f, o)
  {
    hide AttachmentsLater, LinksLater, LinkTold, AttachmentTold;
  }

  lemma Unwritten(f: Files, o: Outcome)
    requires o.files.attachments == f.attachments && o.files.links == f.links && o.touched == {}
    ensures Recorded(f, o)
  {
    hide RowEdit, Edit, Recorded;
    NoEdit(f.links, {});
    NoRowEdit(f.attachments);
    Together(f, o, {}, {}, {});
  }

  lemma ReceivedEdit(f: Files, up: Upload, newAttachment: Id)
    requires newAttachment !in f.attachments
    ensures var first := Received(f, up, newAttachment).1;
      && RowEdit(f.attachments, first.files.attachments, first.touched)
      && first.files == f.(attachments := first.files.attachments)
  {
    hide RowEdit;
    if Known(f, up.sha) {
      var id := OwnerOf(f, up.sha);
      if f.attachments[id].collected {
        UpdateRow(f.attachments, id, Restored(f.attachments[id]));
      } else {
        assert f.attachments[id := f.attachments[id]] == f.attachments;
        NoRowEdit(f.attachments);
      }
    } else {
      InsertRow(f.attachments, newAttachment, Attachment(up.sha, up.size, up.media, false, 1));
    }
  }

  lemma InsertRow(attachments: map<Id, Attachment>, id: Id, row: Attachment)
    requires id !in attachments && row.version == 1 && !row.collected
    ensures RowEdit(attachments, attachments[id := row], {Touched(AttachmentRow, id, None, 1)})
  {
  }

  lemma UpdateRow(attachments: map<Id, Attachment>, id: Id, row: Attachment)
    requires id in attachments && row != attachments[id] && AttachmentLater(attachments[id], row)
    ensures RowEdit(attachments, attachments[id := row],
                    {Touched(AttachmentRow, id, Some(attachments[id].version), row.version)})
  {
  }

  function OtherThan(links: map<Id, Link>, keep: Id): set<Id> {
    set l | l in links && links[l].attachment != keep :: links[l].attachment
  }

  lemma StaleActive(f: Files, c: Command, keep: Id)
    requires c.Add?
    ensures ActiveAbout(f.links, StaleFor(f, c, keep), OtherThan(f.links, keep))
    ensures forall l | l in StaleFor(f, c, keep) ::
        l in f.links && f.links[l].active && f.links[l].recordType == IMPORT_FILE
  {
    hide Used;
  }

  lemma AddRecorded(f: Files, c: Command)
    requires c.Add? && Fresh(f, c)
    ensures Recorded(f, AddStep(f, c))
  {
    hide Recorded, RowEdit, Edit, Received, StaleFor, Associate, SizeDiffers, Retire, Known;
    var (id, first) := Received(f, c.upload, c.newAttachment);
    ReceivedEdit(f, c.upload, c.newAttachment);
    StaleActive(f, c, id);
    var others := OtherThan(f.links, id);
    var retired := Retire(f.links, StaleFor(f, c, id));
    RetireEdit(f.links, StaleFor(f, c, id), others);
    assert retired.links.Keys == f.links.Keys by { RetireKeys(f.links, StaleFor(f, c, id)); }
    AssociateEdit(retired.links, id, c.recordType, c.record, c.caption, c.writer, c.newLink);
    var linked := Associate(retired.links, id, c.recordType, c.record, c.caption, c.writer, c.newLink);
    EditTwice(f.links, retired.links, linked.links, retired.touched, linked.touched, others, {id});
    var o := AddStep(f, c);
    if o.fault.None? {
      Together(f, o, first.touched, retired.touched + linked.touched, others + {id});
    } else {
      Unwritten(f, o);
    }
  }

  lemma RetireKeys(links: map<Id, Link>, gone: set<Id>)
    ensures Retire(links, gone).links.Keys == links.Keys
  {
  }

  lemma LinkRecorded(f: Files, c: Command)
    requires c.AddLink? && Fresh(f, c)
    ensures Recorded(f, LinkStep(f, c))
  {
    hide Recorded, RowEdit, Edit, Associate, Available;
    NoRowEdit(f.attachments);
    AssociateEdit(f.links, c.attachment, c.recordType, c.record, c.caption, c.writer, c.newLink);
    var o := LinkStep(f, c);
    if o.fault.None? { Together(f, o, {}, o.touched, {c.attachment}); } else { Unwritten(f, o); }
  }

  lemma UnlinkRecorded(f: Files, c: Command)
    requires c.Unlink?
    ensures Recorded(f, UnlinkStep(f, c))
  {
    hide Recorded, RowEdit, Edit, Conflicts, Refers, ShownBy, Retire;
    NoRowEdit(f.attachments);
    var o := UnlinkStep(f, c);
    if o.fault.None? && f.links[c.link].active {
      RetireEdit(f.links, {c.link}, {f.links[c.link].attachment});
      Together(f, o, {}, o.touched, {f.links[c.link].attachment});
    } else {
      Unwritten(f, o);
    }
  }

  lemma ItemLinksActive(links: map<Id, Link>, item: Id, gone: set<Id>)
    ensures ActiveAbout(links, ItemLinks(links, item, gone), gone)
  {
  }

  /** Choosing a picture changes links of the picture, its small copy and those they replace, each once. */
  lemma ChooseEdit(links: map<Id, Link>, item: Id, was: Shown, shown: Shown, caption: string, writer: Writer,
                   newLink: Id, newThumbnail: Id)
    requires shown.picture.Some? && shown.picture != shown.thumbnail
    requires newLink !in links && newThumbnail !in links && newLink != newThumbnail
    ensures var r := ChooseLinks(links, item, was, shown, caption, writer, newLink, newThumbnail);
      Edit(links, r.links, r.touched, Refers(shown) + (Refers(was) - Refers(shown)))
  {
    hide Edit, Associate, AsThumbnail, Retire, ItemLinks;
    var picture := shown.picture.value;
    var one := Associate(links, picture, ITEM, item, caption, writer, newLink);
    AssociateEdit(links, picture, ITEM, item, caption, writer, newLink);
    AssociateKeys(links, picture, ITEM, item, caption, writer, newLink);
    var two := if shown.thumbnail.None? then Relinked(one.links, {})
               else AsThumbnail(one.links, shown.thumbnail.value, item, writer, newThumbnail);
    NoEdit(one.links, {});
    if shown.thumbnail.Some? { ThumbnailEdit(one.links, shown.thumbnail.value, item, writer, newThumbnail); }
    EditTwice(links, one.links, two.links, one.touched, two.touched, {picture}, Ids(shown.thumbnail));
    var gone := Refers(was) - Refers(shown);
    var three := Retire(two.links, ItemLinks(two.links, item, gone));
    ItemLinksActive(two.links, item, gone);
    RetireEdit(two.links, ItemLinks(two.links, item, gone), gone);
    EditTwice(links, two.links, three.links, one.touched + two.touched, three.touched, Refers(shown), gone);
  }

  lemma AssociateKeys(links: map<Id, Link>, attachment: Id, recordType: string, record: Id, caption: string,
                      writer: Writer, newLink: Id)
    ensures var r := Associate(links, attachment, recordType, record, caption, writer, newLink);
      r.links.Keys <= links.Keys + {newLink}
  {
  }

  lemma SetItemRecorded(f: Files, c: Command)
    requires c.SetItemPicture? && Fresh(f, c)
    ensures Recorded(f, SetItemStep(f, c))
  {
    hide Recorded, RowEdit, Edit, Received, ChooseLinks, Available, Refers, ShownBy;
    var (id, first) := Received(f, c.upload, c.newAttachment);
    ReceivedEdit(f, c.upload, c.newAttachment);
    var o := SetItemStep(f, c);
    if o.fault.None? {
      var shown := Shown(Some(id), c.thumbnail);
      ChooseEdit(f.links, c.item, ShownBy(f.items, c.item), shown, c.caption, c.writer, c.newLink, c.newThumbnail);
      var chosen := ChooseLinks(f.links, c.item, ShownBy(f.items, c.item), shown, c.caption, c.writer, c.newLink,
                                c.newThumbnail);
      Together(f, o, first.touched, chosen.touched, Refers(shown) + (Refers(ShownBy(f.items, c.item)) - Refers(shown)));
    } else {
      Unwritten(f, o);
    }
  }

  lemma UseItemRecorded(f: Files, c: Command)
    requires c.UseItemPicture? && Fresh(f, c)
    ensures Recorded(f, UseItemStep(f, c))
  {
    hide Recorded, RowEdit, Edit, ChooseLinks, Available, Refers, ShownBy;
    NoRowEdit(f.attachments);
    var o := UseItemStep(f, c);
    if o.fault.None? {
      var shown := Shown(Some(c.attachment), c.thumbnail);
      ChooseEdit(f.links, c.item, ShownBy(f.items, c.item), shown, PICTURE_CAPTION, c.writer, c.newLink,
                 c.newThumbnail);
      Together(f, o, {}, o.touched, Refers(shown) + (Refers(ShownBy(f.items, c.item)) - Refers(shown)));
    } else {
      Unwritten(f, o);
    }
  }

  lemma ClearItemRecorded(f: Files, c: Command)
    requires c.ClearItemPicture?
    ensures Recorded(f, ClearItemStep(f, c))
  {
    hide Recorded, RowEdit, Edit, Retire, ItemLinks, Cleared, ShownBy;
    NoRowEdit(f.attachments);
    var o := ClearItemStep(f, c);
    if o.fault.None? {
      var gone := Cleared(ShownBy(f.items, c.item), c.keepFile, c.fallback);
      ItemLinksActive(f.links, c.item, gone);
      RetireEdit(f.links, ItemLinks(f.links, c.item, gone), gone);
      Together(f, o, {}, o.touched, gone);
    } else {
      Unwritten(f, o);
    }
  }

  lemma SetGroupEdit(f: Files, c: Command)
    requires c.SetGroupPicture? && Fresh(f, c)
    ensures RowEdit(f.attachments, SetGroupStep(f, c).files.attachments, SetGroupStep(f, c).touched)
  {
    hide RowEdit;
    NoRowEdit(f.attachments);
    if f.pending.None? {
      if Known(f, c.upload.sha) {
        var id := OwnerOf(f, c.upload.sha);
        var row := SetGroupStep(f, c).files.attachments[id];
        if row != f.attachments[id] { UpdateRow(f.attachments, id, row); }
        else { assert f.attachments[id := row] == f.attachments; }
      } else {
        InsertRow(f.attachments, c.newAttachment, Attachment(c.upload.sha, c.upload.size, c.upload.media, false, 1));
      }
    }
  }

  lemma SetGroupRecorded(f: Files, c: Command)
    requires c.SetGroupPicture? && Fresh(f, c)
    ensures Recorded(f, SetGroupStep(f, c))
  {
    hide Edit, RowEdit, Recorded;
    NoEdit(f.links, {});
    SetGroupEdit(f, c);
    Together(f, SetGroupStep(f, c), SetGroupStep(f, c).touched, {}, {});
  }

  lemma FinishRecorded(f: Files)
    ensures Recorded(f, FinishStep(f))
  {
    hide NoLinkNow, OwnerUnchanged, Shas, Edit, RowEdit, Recorded, MarkAll, MarkTouches;
    NoEdit(f.links, {});
    NoRowEdit(f.attachments);
    var o := FinishStep(f);
    if o.fault.None? { MarkEdit(f, Owners(f.pending.value)); }
    Together(f, o, o.touched, {}, {});
  }

  lemma MarkEdit(f: Files, owned: set<Id>)
    ensures RowEdit(f.attachments, MarkAll(f.attachments, owned), MarkTouches(f.attachments, owned))
  {
  }

  lemma StepRecorded(f: Files, c: Command)
    requires Fresh(f, c)
    ensures Recorded(f, Attempt(f, c))
  {
    hide Recorded, AddStep, LinkStep, UnlinkStep, SetItemStep, UseItemStep, ClearItemStep, SetGroupStep, FinishStep;
    if c.Add? { AddRecorded(f, c); }
    else if c.AddLink? { LinkRecorded(f, c); }
    else if c.Unlink? { UnlinkRecorded(f, c); }
    else if c.SetItemPicture? { SetItemRecorded(f, c); }
    else if c.UseItemPicture? { UseItemRecorded(f, c); }
    else if c.ClearItemPicture? { ClearItemRecorded(f, c); }
    else if c.SetGroupPicture? { SetGroupRecorded(f, c); }
    else if c.Finish? { FinishRecorded(f); }
    else { Unwritten(f, Attempt(f, c)); }
  }

  /** No command removes a row, brings a retired link back, or counts a version it did not make. */
  lemma StepLater(f: Files, c: Command)
    requires Fresh(f, c)
    ensures Later(f, Step(f, c))
  {
    hide Attempt, Later, Exact;
    StepRecorded(f, c);
  }

  /** Every step's audit names exactly the attachment and link rows the step changed. */
  lemma StepTold(f: Files, c: Command)
    requires Fresh(f, c)
    ensures Exact(f, Attempt(f, c))
  {
    hide Attempt, Later, Exact;
    StepRecorded(f, c);
  }

  /** What a later state still shows of an earlier one, over any number of steps. */
  ghost predicate Descends(f: Files, g: Files) {
    && (forall l | l in f.links ::
          l in g.links && SameTarget(f.links[l], g.links[l]) && f.links[l].version <= g.links[l].version
          && (!f.links[l].active ==> g.links[l] == f.links[l])
          && (f.links[l].caption == THUMBNAIL_CAPTION ==> g.links[l].caption == THUMBNAIL_CAPTION))
    && (forall a | a in f.attachments ::
          a in g.attachments && g.attachments[a].sha == f.attachments[a].sha
            && f.attachments[a].version <= g.attachments[a].version)
  }

  /** Over any run inactive links never return, rows never go, and a digest keeps its attachment. */
  lemma {:induction false} RunDescends(f: Files, commands: seq<Command>)
    requires AllFresh(f, commands)
    ensures Descends(f, Run(f, commands))
    decreases |commands|
  {
    hide Step, Fresh;
    if commands != [] {
      StepLater(f, commands[0]);
      RunDescends(Step(f, commands[0]), commands[1..]);
    }
  }

  /** A digest keeps its one attachment through every unlinking, collection and restoration. */
  lemma OwnerForever(f: Files, commands: seq<Command>, sha: Digest)
    requires Sound(f) && AllFresh(f, commands) && Known(f, sha)
    ensures Known(Run(f, commands), sha) && OwnerOf(Run(f, commands), sha) == OwnerOf(f, sha)
  {
    hide Run, AllFresh, OneActive, HeldAvailable, BodiesStored, PendingSound, Versions, ChosenLinked;
    RunSound(f, commands);
    RunDescends(f, commands);
    assert Owns(Run(f, commands), OwnerOf(f, sha), sha);
  }

  // ---------------------------------------------------------------- item pictures

  /** Was the file ever linked to an item as a small copy? */
  ghost predicate WasThumbnail(links: map<Id, Link>, attachment: Id) {
    exists l :: l in links && links[l].attachment == attachment && links[l].recordType == ITEM
      && links[l].caption == THUMBNAIL_CAPTION
  }

  /** May an item fall back to this file as its newest image? */
  ghost predicate FallsBack(f: Files, item: Id, attachment: Id) {
    && Joined(f.links, attachment, ITEM, item)
    && attachment in f.attachments && !f.attachments[attachment].collected
    && f.attachments[attachment].media in IMAGE_TYPES
    && !WasThumbnail(f.links, attachment)
    && forall other | other in f.items :: f.items[other].thumbnail != Some(attachment)
  }

  /** Is it the picture chosen for an item merged into this one, which this one inherits? */
  predicate Inherits(f: Files, merged: set<Id>, attachment: Id) {
    exists other | other in merged :: ShownBy(f.items, other).picture == Some(attachment)
  }

  /** Is the file there to be shown in place of a picture, where none was chosen? */
  ghost predicate StandsIn(f: Files, item: Id, merged: set<Id>, attachment: Id) {
    && ShownBy(f.items, item).picture.None?
    && (FallsBack(f, item, attachment) || Inherits(f, merged, attachment))
  }

  /**
   A file that was ever a small copy is never an item's newest image again, linked again or not; it stands in for
   a picture exactly where an item merged into this one was given it as its own.
   */
  lemma ThumbnailForever(f: Files, commands: seq<Command>, item: Id, merged: set<Id>, attachment: Id)
    requires AllFresh(f, commands) && WasThumbnail(f.links, attachment)
    ensures var g := Run(f, commands);
      && WasThumbnail(g.links, attachment) && !FallsBack(g, item, attachment)
      && (StandsIn(g, item, merged, attachment) <==>
          ShownBy(g.items, item).picture.None? && Inherits(g, merged, attachment))
  {
    hide Run, AllFresh, Joined, Inherits;
    RunDescends(f, commands);
    var l :| l in f.links && f.links[l].attachment == attachment && f.links[l].recordType == ITEM
      && f.links[l].caption == THUMBNAIL_CAPTION;
    assert SameTarget(f.links[l], Run(f, commands).links[l]);
  }

  /** Whatever stands in for a picture can be read, inherited or not. */
  lemma StandInReadable(f: Files, item: Id, merged: set<Id>, attachment: Id)
    requires Sound(f) && StandsIn(f, item, merged, attachment)
    ensures Available(f, attachment)
  {
    hide Stocked, ChosenLinked, Available;
    if FallsBack(f, item, attachment) {
      var l :| Joins(f.links, l, attachment, ITEM, item);
      ActiveReadable(f, l);
    } else {
      var other :| other in merged && ShownBy(f.items, other).picture == Some(attachment);
      ChosenReadable(f, other, attachment);
    }
  }

  // ---------------------------------------------------------------- keeping the store stocked

  /** Writing the row of a digest no other row holds keeps digests distinct. */
  lemma RowWritten(f: Files, id: Id, row: Attachment)
    requires DistinctShas(f) && Versions(f) && row.version >= 1
    requires forall a | Owns(f, a, row.sha) :: a == id
    ensures DistinctShas(f.(attachments := f.attachments[id := row]))
        && Versions(f.(attachments := f.attachments[id := row]))
  {
    var g := f.(attachments := f.attachments[id := row]);
    forall a, b | a in g.attachments && b in g.attachments && g.attachments[a].sha == g.attachments[b].sha
      ensures a == b {
      if a != id && b == id { assert Owns(f, a, row.sha); }
      if b != id && a == id { assert Owns(f, b, row.sha); }
    }
  }

  lemma OneOwner(f: Files, sha: Digest)
    requires DistinctShas(f)
    ensures Known(f, sha) ==> forall a | Owns(f, a, sha) :: a == OwnerOf(f, sha)
    ensures !Known(f, sha) ==> forall a :: !Owns(f, a, sha)
  {
  }

  lemma ReceivedRows(f: Files, up: Upload, newAttachment: Id)
    requires DistinctShas(f) && Versions(f) && newAttachment !in f.attachments
    ensures var (id, first) := Received(f, up, newAttachment);
      && DistinctShas(first.files) && Versions(first.files)
      && Owns(first.files, id, up.sha) && !first.files.attachments[id].collected
  {
    hide DistinctShas, Audited;
    OneOwner(f, up.sha);
    var id := Received(f, up, newAttachment).0;
    RowWritten(f, id, Received(f, up, newAttachment).1.files.attachments[id]);
  }

  lemma ReceivedAvailable(f: Files, up: Upload, newAttachment: Id)
    requires HeldAvailable(f) && BodiesStored(f) && f.pending.None? && newAttachment !in f.attachments
    ensures var g := Received(f, up, newAttachment).1.files;
      HeldAvailable(g) && BodiesStored(g.(bodies := f.bodies + {up.sha}))
  {
    hide Held;
    var g := Received(f, up, newAttachment).1.files;
    SameHeld(f, g);
  }

  lemma SameHeld(f: Files, g: Files)
    requires g.links == f.links && g.groups == f.groups
    ensures forall id :: Held(g, id) <==> Held(f, id)
  {
  }

  lemma ReceivedStocked(f: Files, up: Upload, newAttachment: Id)
    requires Stocked(f) && f.pending.None? && newAttachment !in f.attachments
    ensures var (id, first) := Received(f, up, newAttachment);
      && Stocked(first.files.(bodies := f.bodies + {up.sha}))
      && Owns(first.files, id, up.sha) && !first.files.attachments[id].collected
      && first.files == f.(attachments := first.files.attachments)
  {
    hide DistinctShas, Versions, HeldAvailable, BodiesStored, OneActive, Received;
    ReceivedRows(f, up, newAttachment);
    ReceivedAvailable(f, up, newAttachment);
    ReceivedEdit(f, up, newAttachment);
    var g := Received(f, up, newAttachment).1.files;
    SameRows(g, g.(bodies := g.bodies + {up.sha}));
  }

  lemma SameRows(f: Files, g: Files)
    requires g.attachments == f.attachments && g.links == f.links && g.groups == f.groups
    ensures DistinctShas(g) <==> DistinctShas(f)
    ensures Versions(g) <==> Versions(f)
    ensures HeldAvailable(g) <==> HeldAvailable(f)
  {
    assert forall id :: Held(g, id) <==> Held(f, id);
  }

  lemma SameCollectable(f: Files, g: Files)
    requires g.attachments == f.attachments && g.links == f.links && g.groups == f.groups
    ensures forall item :: Collectable(g, item) <==> Collectable(f, item)
  {
    assert forall id :: Linked(g, id) <==> Linked(f, id);
    assert forall id :: Pictured(g, id) <==> Pictured(f, id);
    assert forall id, sha :: Owns(g, id, sha) <==> Owns(f, id, sha);
  }

  /** The invariant of the store reads neither the items nor the runs. */
  lemma OutsideStocked(f: Files, items: map<Id, Shown>, runs: map<Id, ImportRun>)
    requires Stocked(f)
    ensures Stocked(f.(items := items, runs := runs))
  {
    hide Versions, OneActive, DistinctShas, Collectable;
    var g := f.(items := items, runs := runs);
    SameRows(f, g);
    SameCollectable(f, g);
  }

  /** More bodies disturb nothing. */
  lemma MoreBodiesStocked(f: Files, bodies: set<Digest>)
    requires Stocked(f) && f.bodies <= bodies && f.pending.None?
    ensures Stocked(f.(bodies := bodies))
  {
    hide Versions, OneActive, DistinctShas;
    SameRows(f, f.(bodies := bodies));
  }

  /** Links that change in place, staying as active as they were or less, keep the store stocked. */
  lemma RelinkedStocked(f: Files, links: map<Id, Link>)
    requires Stocked(f) && f.pending.None?
    requires links.Keys == f.links.Keys
    requires forall l | l in links ::
        SameTarget(links[l], f.links[l]) && (links[l].active ==> f.links[l].active) && Audited(links[l])
    ensures Stocked(f.(links := links))
  {
    hide DistinctShas, Audited;
    var g := f.(links := links);
    forall id | Linked(g, id) ensures Linked(f, id) {
      var l :| l in links && links[l].active && links[l].attachment == id;
      assert SameTarget(links[l], f.links[l]);
    }
    assert forall id | Held(g, id) :: Held(f, id);
    SameShas(f, g);
  }

  lemma SameShas(f: Files, g: Files)
    requires g.attachments == f.attachments
    ensures DistinctShas(g) <==> DistinctShas(f)
  {
  }

  lemma RetireStocked(f: Files, gone: set<Id>)
    requires Stocked(f) && f.pending.None?
    requires forall l | l in gone && l in f.links :: f.links[l].active
    ensures Stocked(f.(links := RetireAll(f.links, gone)))
  {
    hide DistinctShas, OneActive, HeldAvailable, BodiesStored;
    RelinkedStocked(f, RetireAll(f.links, gone));
  }

  lemma RecaptionStocked(f: Files, plain: set<Id>)
    requires Stocked(f) && f.pending.None?
    requires forall l | l in plain && l in f.links :: f.links[l].active
    ensures Stocked(f.(links := RecaptionAll(f.links, plain)))
  {
    hide DistinctShas, OneActive, HeldAvailable, BodiesStored;
    RelinkedStocked(f, RecaptionAll(f.links, plain));
  }

  predicate Uncollected(f: Files, attachment: Id) {
    attachment in f.attachments && !f.attachments[attachment].collected
  }

  lemma InsertStocked(f: Files, newLink: Id, l: Link)
    requires Stocked(f) && f.pending.None? && newLink !in f.links && Uncollected(f, l.attachment)
    requires l.active && Audited(l) && !Joined(f.links, l.attachment, l.recordType, l.record)
    ensures Stocked(f.(links := f.links[newLink := l]))
  {
    hide Audited, DistinctShas;
    var g := f.(links := f.links[newLink := l]);
    forall b | b in f.links && f.links[b].active ensures !SameTarget(f.links[b], l) {
      assert !Joins(f.links, b, l.attachment, l.recordType, l.record);
    }
    forall id | Held(g, id) ensures id in g.attachments && !g.attachments[id].collected {
      if id != l.attachment { assert Held(f, id); }
    }
    SameShas(f, g);
  }

  lemma AssociateStocked(f: Files, attachment: Id, recordType: string, record: Id, caption: string, writer: Writer,
                         newLink: Id)
    requires Stocked(f) && f.pending.None? && newLink !in f.links && Uncollected(f, attachment)
    ensures Stocked(f.(links := Associate(f.links, attachment, recordType, record, caption, writer, newLink).links))
  {
    hide Stocked, Joined;
    if !Joined(f.links, attachment, recordType, record) {
      InsertStocked(f, newLink, NewLink(attachment, recordType, record, caption, writer));
    } else {
      assert f.(links := f.links) == f;
    }
  }

  lemma ThumbnailStocked(f: Files, thumbnail: Id, item: Id, writer: Writer, newLink: Id)
    requires Stocked(f) && f.pending.None? && newLink !in f.links && Uncollected(f, thumbnail)
    ensures Stocked(f.(links := AsThumbnail(f.links, thumbnail, item, writer, newLink).links))
  {
    hide Stocked, Associate, RecaptionAll, LinkTouches;
    RecaptionStocked(f, Uncaptioned(f.links, thumbnail, item));
    AssociateStocked(f, thumbnail, ITEM, item, THUMBNAIL_CAPTION, writer, newLink);
  }

  lemma ChooseStocked(f: Files, item: Id, was: Shown, shown: Shown, caption: string, writer: Writer, newLink: Id,
                      newThumbnail: Id)
    requires Stocked(f) && f.pending.None? && shown.picture.Some?
    requires newLink !in f.links && newThumbnail !in f.links && newLink != newThumbnail
    requires forall a | a in Refers(shown) :: Uncollected(f, a)
    ensures Stocked(f.(links := ChooseLinks(f.links, item, was, shown, caption, writer, newLink, newThumbnail).links))
  {
    hide Stocked, Associate, AsThumbnail, RetireAll, LinkTouches;
    var picture := shown.picture.value;
    assert Uncollected(f, picture);
    var one := Associate(f.links, picture, ITEM, item, caption, writer, newLink);
    AssociateStocked(f, picture, ITEM, item, caption, writer, newLink);
    AssociateKeys(f.links, picture, ITEM, item, caption, writer, newLink);
    var g := f.(links := one.links);
    var two := if shown.thumbnail.None? then Relinked(one.links, {})
               else AsThumbnail(one.links, shown.thumbnail.value, item, writer, newThumbnail);
    if shown.thumbnail.Some? {
      assert Uncollected(f, shown.thumbnail.value) && Uncollected(g, shown.thumbnail.value);
      ThumbnailStocked(g, shown.thumbnail.value, item, writer, newThumbnail);
    }
    assert g.(links := two.links) == f.(links := two.links);
    RetireStocked(f.(links := two.links), ItemLinks(two.links, item, Refers(was) - Refers(shown)));
  }

  lemma AddStocked(f: Files, c: Command)
    requires Stocked(f) && c.Add? && Fresh(f, c)
    ensures Stocked(AddStep(f, c).files)
  {
    hide Stocked, Associate, Received, StaleFor, SizeDiffers, RetireAll, LinkTouches;
    if f.pending.None? {
      ReceivedStocked(f, c.upload, c.newAttachment);
      var (id, first) := Received(f, c.upload, c.newAttachment);
      var g := first.files.(bodies := f.bodies + {c.upload.sha});
      StaleActive(f, c, id);
      RetireStocked(g, StaleFor(f, c, id));
      RetireKeys(f.links, StaleFor(f, c, id));
      AssociateStocked(g.(links := RetireAll(f.links, StaleFor(f, c, id))), id, c.recordType, c.record, c.caption,
                       c.writer, c.newLink);
    }
  }

  lemma LinkStocked(f: Files, c: Command)
    requires Stocked(f) && c.AddLink? && Fresh(f, c)
    ensures Stocked(LinkStep(f, c).files)
  {
    hide Stocked, Associate;
    if f.pending.None? && Uncollected(f, c.attachment) {
      AssociateStocked(f, c.attachment, c.recordType, c.record, c.caption, c.writer, c.newLink);
    }
  }

  lemma UnlinkStocked(f: Files, c: Command)
    requires Stocked(f) && c.Unlink?
    ensures Stocked(UnlinkStep(f, c).files)
  {
    hide Stocked, Conflicts, Refers, ShownBy, RetireAll, LinkTouches;
    if f.pending.None? && c.link in f.links && f.links[c.link].active { RetireStocked(f, {c.link}); }
  }

  lemma SetItemStocked(f: Files, c: Command)
    requires Stocked(f) && c.SetItemPicture? && Fresh(f, c)
    ensures Stocked(SetItemStep(f, c).files)
  {
    hide Stocked, ChooseLinks, Received, ShownBy;
    if SetItemStep(f, c).fault.None? {
      ReceivedStocked(f, c.upload, c.newAttachment);
      var (id, first) := Received(f, c.upload, c.newAttachment);
      var g := first.files.(bodies := f.bodies + {c.upload.sha});
      ReceivedOthers(f, c.upload, c.newAttachment);
      var shown := Shown(Some(id), c.thumbnail);
      assert forall a | Uncollected(first.files, a) :: Uncollected(g, a);
      ChooseStocked(g, c.item, ShownBy(f.items, c.item), shown, c.caption, c.writer, c.newLink, c.newThumbnail);
      var h := g.(links := ChooseLinks(g.links, c.item, ShownBy(f.items, c.item), shown, c.caption, c.writer,
                                       c.newLink, c.newThumbnail).links);
      OutsideStocked(h, f.items[c.item := shown], f.runs);
    }
  }

  lemma ReceivedOthers(f: Files, up: Upload, newAttachment: Id)
    requires newAttachment !in f.attachments
    ensures forall a | Uncollected(f, a) :: Uncollected(Received(f, up, newAttachment).1.files, a)
  {
  }

  lemma UseItemStocked(f: Files, c: Command)
    requires Stocked(f) && c.UseItemPicture? && Fresh(f, c)
    ensures Stocked(UseItemStep(f, c).files)
  {
    hide Stocked, ChooseLinks, ShownBy;
    if UseItemStep(f, c).fault.None? {
      var shown := Shown(Some(c.attachment), c.thumbnail);
      ChooseStocked(f, c.item, ShownBy(f.items, c.item), shown, PICTURE_CAPTION, c.writer, c.newLink, c.newThumbnail);
      var h := f.(links := ChooseLinks(f.links, c.item, ShownBy(f.items, c.item), shown, PICTURE_CAPTION, c.writer,
                                       c.newLink, c.newThumbnail).links);
      OutsideStocked(h, f.items[c.item := shown], f.runs);
    }
  }

  lemma ClearItemStocked(f: Files, c: Command)
    requires Stocked(f) && c.ClearItemPicture?
    ensures Stocked(ClearItemStep(f, c).files)
  {
    hide Stocked, ShownBy, Cleared, RetireAll, LinkTouches;
    if ClearItemStep(f, c).fault.None? {
      var gone := ItemLinks(f.links, c.item, Cleared(ShownBy(f.items, c.item), c.keepFile, c.fallback));
      RetireStocked(f, gone);
      OutsideStocked(f.(links := RetireAll(f.links, gone)), f.items[c.item := Shown(None, None)], f.runs);
    }
  }

  lemma OldVersions(f: Files)
    requires Versions(f)
    ensures forall a | a in f.attachments :: f.attachments[a].version >= 1
  {
  }

  lemma SetGroupRows(f: Files, c: Command)
    requires DistinctShas(f) && Versions(f) && c.SetGroupPicture? && Fresh(f, c) && f.pending.None?
    ensures DistinctShas(SetGroupStep(f, c).files) && Versions(SetGroupStep(f, c).files)
  {
    hide DistinctShas, Versions;
    OneOwner(f, c.upload.sha);
    var id := if Known(f, c.upload.sha) then OwnerOf(f, c.upload.sha) else c.newAttachment;
    var g := SetGroupStep(f, c).files;
    OldVersions(f);
    RowWritten(f, id, g.attachments[id]);
    OnlyGroups(f.(attachments := f.attachments[id := g.attachments[id]]), g);
  }

  lemma SetGroupStocked(f: Files, c: Command)
    requires Stocked(f) && c.SetGroupPicture? && Fresh(f, c)
    ensures Stocked(SetGroupStep(f, c).files)
  {
    if f.pending.None? {
      SetGroupRows(f, c);
      GroupAvailable(f, SetGroupStep(f, c).files, c.box, c.upload.sha);
    }
  }

  lemma GroupAvailable(f: Files, g: Files, box: Id, sha: Digest)
    requires Stocked(f) && f.pending.None? && g.pending.None? && DistinctShas(g) && Versions(g) && g.links == f.links
    requires box in g.groups && Owns(g, g.groups[box], sha) && !g.attachments[g.groups[box]].collected
    requires g.bodies == f.bodies + {sha}
    requires forall b | b in g.groups && b != box :: b in f.groups && f.groups[b] == g.groups[b]
    requires forall a | a in f.attachments :: a in g.attachments && g.attachments[a].sha == f.attachments[a].sha
    requires forall a | a in g.attachments && a != g.groups[box] ::
        a in f.attachments && g.attachments[a] == f.attachments[a]
    ensures Stocked(g)
  {
    hide DistinctShas, Versions;
    assert forall id | Linked(g, id) :: Linked(f, id);
    assert forall id | Pictured(g, id) :: id == g.groups[box] || Pictured(f, id);
    forall id | Held(g, id) ensures id in g.attachments && !g.attachments[id].collected {
      if id != g.groups[box] { assert Held(f, id); }
    }
  }

  lemma UseGroupStocked(f: Files, c: Command)
    requires Stocked(f) && c.UseGroupPicture?
    ensures Stocked(UseGroupStep(f, c).files)
  {
    hide DistinctShas, Versions, OneActive;
    var g := UseGroupStep(f, c).files;
    if f.pending.None? && Available(f, c.attachment) {
      forall id | Held(g, id) ensures id in g.attachments && !g.attachments[id].collected {
        if id != c.attachment { assert Held(f, id); }
      }
      OnlyGroups(f, g);
    }
  }

  lemma OnlyGroups(f: Files, g: Files)
    requires g.attachments == f.attachments && g.links == f.links
    ensures DistinctShas(g) <==> DistinctShas(f)
    ensures Versions(g) <==> Versions(f)
  {
  }

  lemma ClearGroupsStocked(f: Files, boxes: set<Id>)
    requires Stocked(f)
    ensures Stocked(f.(groups := f.groups - boxes))
  {
    hide DistinctShas, Versions, OneActive;
    var g := f.(groups := f.groups - boxes);
    assert forall id | Held(g, id) :: Held(f, id);
    OnlyGroups(f, g);
    FewerCollectable(f, g);
  }

  /** What nothing referred to is still referred to by nothing. */
  lemma FewerCollectable(f: Files, g: Files)
    requires g.attachments == f.attachments && g.links == f.links
    requires forall b | b in g.groups :: b in f.groups && f.groups[b] == g.groups[b]
    ensures forall item | Collectable(f, item) :: Collectable(g, item)
  {
    assert forall id :: Linked(g, id) <==> Linked(f, id);
    assert forall id :: Pictured(g, id) ==> Pictured(f, id);
    assert forall id, sha :: Owns(g, id, sha) <==> Owns(f, id, sha);
  }

  lemma IntentStocked(f: Files, items: seq<Candidate>)
    requires Stocked(f) && f.pending.None? && DistinctOwners(items)
    requires forall i | 0 <= i < |items| :: Collectable(f, items[i])
    ensures Stocked(f.(pending := Some(items)))
  {
    hide Versions, OneActive, DistinctShas, Collectable;
    var g := f.(pending := Some(items));
    SameRows(f, g);
    SameCollectable(f, g);
  }

  lemma FewerBodiesStocked(f: Files, index: nat)
    requires Stocked(f) && f.pending.Some? && index < |f.pending.value|
    ensures Stocked(f.(bodies := f.bodies - {f.pending.value[index].sha}))
  {
    hide Versions, OneActive, DistinctShas, Collectable;
    var g := f.(bodies := f.bodies - {f.pending.value[index].sha});
    SameRows(f, g);
    SameCollectable(f, g);
  }

  /** A sound intent always finishes: nothing it named was touched since. */
  lemma FinishSucceeds(f: Files)
    requires Stocked(f) && f.pending.Some?
    ensures FinishStep(f).fault == None
  {
    assert forall i | 0 <= i < |f.pending.value| :: Collectable(f, f.pending.value[i]);
  }

  lemma OwnerUnheld(f: Files, id: Id)
    requires PendingSound(f) && f.pending.Some?
    ensures id in Owners(f.pending.value) ==> !Held(f, id)
  {
    if id in Owners(f.pending.value) {
      var i :| 0 <= i < |f.pending.value| && f.pending.value[i].owner == Some(id);
      assert Collectable(f, f.pending.value[i]) && Owns(f, id, f.pending.value[i].sha);
    }
  }

  lemma FinishStocked(f: Files)
    requires Stocked(f) && f.pending.Some?
    ensures Stocked(FinishStep(f).files)
  {
    FinishSucceeds(f);
    var items, g := f.pending.value, FinishStep(f).files;
    forall id | Held(g, id) ensures id in g.attachments && !g.attachments[id].collected {
      OwnerUnheld(f, id);
      assert Held(f, id);
    }
    forall id | id in g.attachments && !g.attachments[id].collected ensures g.attachments[id].sha in g.bodies {
      var sha := f.attachments[id].sha;
      assert Owns(f, id, sha);
      if sha in Shas(items) {
        var i :| 0 <= i < |items| && items[i].sha == sha;
        assert Collectable(f, items[i]);
        CandidateOwns(f, items[i], id);
      }
    }
  }

  /** A candidate's digest belongs to no uncollected row but its own. */
  lemma CandidateOwns(f: Files, item: Candidate, id: Id)
    requires DistinctShas(f) && Collectable(f, item) && Owns(f, id, item.sha) && !f.attachments[id].collected
    ensures item.owner == Some(id)
  {
  }

  lemma OtherStocked(f: Files, c: Command)
    requires Stocked(f)
    requires c.FailedUpload? || c.ClearGroups? || c.SetRun? || c.Collect? || c.RemoveBody? || c.Finish?
    ensures Stocked(Step(f, c))
  {
    hide Stocked, Collectable, DistinctOwners, FinishStep;
    if c.FailedUpload? { if f.pending.None? { MoreBodiesStocked(f, f.bodies + {c.upload.sha}); } }
    else if c.ClearGroups? { ClearGroupsStocked(f, c.boxes); }
    else if c.SetRun? { OutsideStocked(f, f.items, f.runs[c.run := c.state]); }
    else if c.Collect? {
      if f.pending.None? && DistinctOwners(c.candidates)
        && (forall i | 0 <= i < |c.candidates| :: Collectable(f, c.candidates[i])) {
        IntentStocked(f, c.candidates);
      }
    }
    else if c.RemoveBody? { if f.pending.Some? && c.index < |f.pending.value| { FewerBodiesStocked(f, c.index); } }
    else if f.pending.Some? { FinishStocked(f); }
    else { NoFinish(f); }
  }

  lemma NoFinish(f: Files)
    requires f.pending.None?
    ensures FinishStep(f).files == f
  {
  }

  lemma StepStocked(f: Files, c: Command)
    requires Stocked(f) && Fresh(f, c)
    ensures Stocked(Step(f, c))
  {
    hide Stocked, Fresh, AddStep, LinkStep, UnlinkStep, SetItemStep, UseItemStep, ClearItemStep, SetGroupStep,
      UseGroupStep, FinishStep, CollectStep;
    if c.Add? { AddStocked(f, c); }
    else if c.AddLink? { LinkStocked(f, c); }
    else if c.Unlink? { UnlinkStocked(f, c); }
    else if c.SetItemPicture? { SetItemStocked(f, c); }
    else if c.UseItemPicture? { UseItemStocked(f, c); }
    else if c.ClearItemPicture? { ClearItemStocked(f, c); }
    else if c.SetGroupPicture? { SetGroupStocked(f, c); }
    else if c.UseGroupPicture? { UseGroupStocked(f, c); }
    else { OtherStocked(f, c); }
  }

  // ---------------------------------------------------------------- keeping the chosen pictures linked

  /** Of the active links to items, only those of some item to some files may be gone. */
  ghost predicate OnlyGone(was: map<Id, Link>, now: map<Id, Link>, item: Id, gone: set<Id>) {
    forall l | l in was && was[l].active && was[l].recordType == ITEM
      && !(was[l].record == item && was[l].attachment in gone) ::
      l in now && now[l].active && SameTarget(was[l], now[l])
  }

  lemma StillJoined(was: map<Id, Link>, now: map<Id, Link>, item: Id, gone: set<Id>, attachment: Id, other: Id)
    requires OnlyGone(was, now, item, gone) && Joined(was, attachment, ITEM, other)
    requires other != item || attachment !in gone
    ensures Joined(now, attachment, ITEM, other)
  {
    var l :| Joins(was, l, attachment, ITEM, other);
    assert Joins(now, l, attachment, ITEM, other);
  }

  /**
   Links that only go from one item leave every other item's chosen files linked, and its own if they are not
   among the gone.
   */
  lemma ChosenKept(was: map<Id, Link>, now: map<Id, Link>, items: map<Id, Shown>, item: Id, gone: set<Id>, shown: Shown)
    requires ChosenLinked(was, items) && OnlyGone(was, now, item, gone)
    requires forall a | a in Refers(shown) :: Joined(now, a, ITEM, item)
    ensures ChosenLinked(now, items[item := shown])
  {
    hide OnlyGone, Refers, Joined;
    forall other | other in items && other != item ensures ItemLinked(now, other, items[other]) {
      assert ItemLinked(was, other, items[other]);
      forall a | a in Refers(items[other]) ensures Joined(now, a, ITEM, other) {
        StillJoined(was, now, item, gone, a, other);
      }
    }
  }

  /** Where no file an item refers to is among the gone, the item itself is served too. */
  lemma ChosenUntouched(was: map<Id, Link>, now: map<Id, Link>, items: map<Id, Shown>, item: Id, gone: set<Id>)
    requires ChosenLinked(was, items) && OnlyGone(was, now, item, gone)
    requires gone !! Refers(ShownBy(items, item))
    ensures ChosenLinked(now, items)
  {
    hide OnlyGone, Refers, Joined;
    forall other | other in items ensures ItemLinked(now, other, items[other]) {
      assert ItemLinked(was, other, items[other]);
      forall a | a in Refers(items[other]) ensures Joined(now, a, ITEM, other) {
        StillJoined(was, now, item, gone, a, other);
      }
    }
  }

  lemma AssociateGone(links: map<Id, Link>, attachment: Id, recordType: string, record: Id, caption: string,
                      writer: Writer, newLink: Id)
    requires newLink !in links
    ensures var now := Associate(links, attachment, recordType, record, caption, writer, newLink).links;
      && (forall item :: OnlyGone(links, now, item, {}))
      && Joined(now, attachment, recordType, record)
  {
    var now := Associate(links, attachment, recordType, record, caption, writer, newLink).links;
    if !Joined(links, attachment, recordType, record) { assert Joins(now, newLink, attachment, recordType, record); }
  }

  lemma RecaptionGone(links: map<Id, Link>, thumbnail: Id, item: Id)
    ensures var now := RecaptionAll(links, Uncaptioned(links, thumbnail, item));
      && OnlyGone(links, now, item, {})
      && (Joined(links, thumbnail, ITEM, item) ==> Joined(now, thumbnail, ITEM, item))
  {
    var now := RecaptionAll(links, Uncaptioned(links, thumbnail, item));
    if l :| Joins(links, l, thumbnail, ITEM, item) { assert Joins(now, l, thumbnail, ITEM, item); }
  }

  lemma ThumbnailGone(links: map<Id, Link>, thumbnail: Id, item: Id, writer: Writer, newLink: Id)
    requires newLink !in links
    ensures var now := AsThumbnail(links, thumbnail, item, writer, newLink).links;
      OnlyGone(links, now, item, {}) && Joined(now, thumbnail, ITEM, item)
  {
    hide OnlyGone, Associate, RecaptionAll, LinkTouches;
    RecaptionGone(links, thumbnail, item);
    AssociateGone(links, thumbnail, ITEM, item, THUMBNAIL_CAPTION, writer, newLink);
  }

  lemma RetireGone(links: map<Id, Link>, item: Id, gone: set<Id>)
    ensures OnlyGone(links, RetireAll(links, ItemLinks(links, item, gone)), item, gone)
  {
  }

  lemma OnlyGoneTwice(a: map<Id, Link>, b: map<Id, Link>, c: map<Id, Link>, item: Id, x: set<Id>, y: set<Id>)
    requires OnlyGone(a, b, item, x) && OnlyGone(b, c, item, y)
    ensures OnlyGone(a, c, item, x + y)
  {
  }

  /** Choosing a picture links it and its small copy to the item and takes from the item only what they replace. */
  lemma ChooseGone(links: map<Id, Link>, item: Id, was: Shown, shown: Shown, caption: string, writer: Writer,
                   newLink: Id, newThumbnail: Id)
    requires shown.picture.Some?
    requires newLink !in links && newThumbnail !in links && newLink != newThumbnail
    ensures var r := ChooseLinks(links, item, was, shown, caption, writer, newLink, newThumbnail);
      && OnlyGone(links, r.links, item, Refers(was) - Refers(shown))
      && ItemLinked(r.links, item, shown)
      && (forall a | a in Refers(was) - Refers(shown) :: !Joined(r.links, a, ITEM, item))
  {
    hide OnlyGone, Associate, AsThumbnail, Joined, RetireAll;
    var picture := shown.picture.value;
    var one := Associate(links, picture, ITEM, item, caption, writer, newLink);
    AssociateGone(links, picture, ITEM, item, caption, writer, newLink);
    AssociateKeys(links, picture, ITEM, item, caption, writer, newLink);
    var two := if shown.thumbnail.None? then Relinked(one.links, {})
               else AsThumbnail(one.links, shown.thumbnail.value, item, writer, newThumbnail);
    if shown.thumbnail.Some? {
      ThumbnailGone(one.links, shown.thumbnail.value, item, writer, newThumbnail);
      OnlyGoneTwice(links, one.links, two.links, item, {}, {});
      StillJoined(one.links, two.links, item, {}, picture, item);
    }
    var gone := Refers(was) - Refers(shown);
    var three := RetireAll(two.links, ItemLinks(two.links, item, gone));
    RetireGone(two.links, item, gone);
    var none: set<Id> := {};
    assert none + none == none && none + gone == gone;
    OnlyGoneTwice(links, two.links, three, item, {}, gone);
    forall a | a in Refers(shown) ensures Joined(three, a, ITEM, item) {
      StillJoined(two.links, three, item, gone, a, item);
    }
    forall a | a in gone ensures !Joined(three, a, ITEM, item) { NotJoined(two.links, item, gone, a); }
  }

  lemma NotJoined(links: map<Id, Link>, item: Id, gone: set<Id>, attachment: Id)
    requires attachment in gone
    ensures !Joined(RetireAll(links, ItemLinks(links, item, gone)), attachment, ITEM, item)
  {
  }

  lemma AddChosen(f: Files, c: Command)
    requires Sound(f) && c.Add? && Fresh(f, c)
    ensures ChosenLinked(AddStep(f, c).files.links, AddStep(f, c).files.items)
  {
    hide Stocked, ChosenLinked, OnlyGone, Associate, Received, StaleFor, SizeDiffers, RetireAll, LinkTouches, Refers;
    var (id, first) := Received(f, c.upload, c.newAttachment);
    ReceivedEdit(f, c.upload, c.newAttachment);
    StaleActive(f, c, id);
    var retired := RetireAll(f.links, StaleFor(f, c, id));
    StaleGone(f.links, StaleFor(f, c, id));
    RetireKeys(f.links, StaleFor(f, c, id));
    AssociateGone(retired, id, c.recordType, c.record, c.caption, c.writer, c.newLink);
    var now := Associate(retired, id, c.recordType, c.record, c.caption, c.writer, c.newLink).links;
    OnlyGoneTwice(f.links, retired, now, 0, {}, {});
    ChosenUntouched(f.links, now, f.items, 0, {} + {});
  }

  lemma StaleGone(links: map<Id, Link>, stale: set<Id>)
    requires forall l | l in stale :: l in links && links[l].active && links[l].recordType == IMPORT_FILE
    ensures forall item :: OnlyGone(links, RetireAll(links, stale), item, {})
  {
  }

  lemma LinkChosen(f: Files, c: Command)
    requires Sound(f) && c.AddLink? && Fresh(f, c)
    ensures ChosenLinked(LinkStep(f, c).files.links, LinkStep(f, c).files.items)
  {
    hide Stocked, ChosenLinked, OnlyGone, Associate, Refers;
    AssociateGone(f.links, c.attachment, c.recordType, c.record, c.caption, c.writer, c.newLink);
    var now := Associate(f.links, c.attachment, c.recordType, c.record, c.caption, c.writer, c.newLink).links;
    ChosenUntouched(f.links, now, f.items, 0, {});
  }

  lemma UnlinkChosen(f: Files, c: Command)
    requires Sound(f) && c.Unlink?
    ensures ChosenLinked(UnlinkStep(f, c).files.links, UnlinkStep(f, c).files.items)
  {
    hide Stocked, ChosenLinked, OnlyGone, Conflicts, Refers, ShownBy, RetireAll, LinkTouches;
    var o := UnlinkStep(f, c);
    if c.link in f.links && o.files.links != f.links {
      var l := f.links[c.link];
      OneGone(f.links, c.link);
      if l.recordType == ITEM {
        ChosenUntouched(f.links, o.files.links, f.items, l.record, {l.attachment});
      } else {
        ChosenUntouched(f.links, o.files.links, f.items, l.record, {});
      }
    }
  }

  lemma OneGone(links: map<Id, Link>, l: Id)
    requires l in links
    ensures var gone := if links[l].recordType == ITEM then {links[l].attachment} else {};
      OnlyGone(links, RetireAll(links, {l}), links[l].record, gone)
  {
  }

  lemma SetItemChosen(f: Files, c: Command)
    requires Sound(f) && c.SetItemPicture? && Fresh(f, c)
    ensures ChosenLinked(SetItemStep(f, c).files.links, SetItemStep(f, c).files.items)
  {
    hide Stocked, ChosenLinked, OnlyGone, ChooseLinks, Received, ShownBy, Refers;
    if SetItemStep(f, c).fault.None? {
      var shown := Shown(Some(Received(f, c.upload, c.newAttachment).0), c.thumbnail);
      var was := ShownBy(f.items, c.item);
      ChooseGone(f.links, c.item, was, shown, c.caption, c.writer, c.newLink, c.newThumbnail);
      var now := ChooseLinks(f.links, c.item, was, shown, c.caption, c.writer, c.newLink, c.newThumbnail).links;
      ChosenKept(f.links, now, f.items, c.item, Refers(was) - Refers(shown), shown);
    }
  }

  lemma UseItemChosen(f: Files, c: Command)
    requires Sound(f) && c.UseItemPicture? && Fresh(f, c)
    ensures ChosenLinked(UseItemStep(f, c).files.links, UseItemStep(f, c).files.items)
  {
    hide Stocked, ChosenLinked, OnlyGone, ChooseLinks, ShownBy, Refers;
    if UseItemStep(f, c).fault.None? {
      var shown := Shown(Some(c.attachment), c.thumbnail);
      var was := ShownBy(f.items, c.item);
      ChooseGone(f.links, c.item, was, shown, PICTURE_CAPTION, c.writer, c.newLink, c.newThumbnail);
      var now := ChooseLinks(f.links, c.item, was, shown, PICTURE_CAPTION, c.writer, c.newLink, c.newThumbnail).links;
      ChosenKept(f.links, now, f.items, c.item, Refers(was) - Refers(shown), shown);
    }
  }

  lemma ClearItemChosen(f: Files, c: Command)
    requires Sound(f) && c.ClearItemPicture?
    ensures ChosenLinked(ClearItemStep(f, c).files.links, ClearItemStep(f, c).files.items)
  {
    hide Stocked, ChosenLinked, OnlyGone, ShownBy, Cleared, RetireAll, LinkTouches;
    if ClearItemStep(f, c).fault.None? {
      var gone := Cleared(ShownBy(f.items, c.item), c.keepFile, c.fallback);
      RetireGone(f.links, c.item, gone);
      ChosenKept(f.links, RetireAll(f.links, ItemLinks(f.links, c.item, gone)), f.items, c.item, gone,
                 Shown(None, None));
    }
  }

  lemma StepChosen(f: Files, c: Command)
    requires Sound(f) && Fresh(f, c)
    ensures ChosenLinked(Step(f, c).links, Step(f, c).items)
  {
    hide Stocked, ChosenLinked, Fresh, AddStep, LinkStep, UnlinkStep, SetItemStep, UseItemStep, ClearItemStep;
    hide Known, OwnerOf, Available, Collectable, DistinctOwners, Shas, Owners, MarkAll, MarkTouches, NoLinkNow,
      OwnerUnchanged;
    if c.Add? { AddChosen(f, c); }
    else if c.AddLink? { LinkChosen(f, c); }
    else if c.Unlink? { UnlinkChosen(f, c); }
    else if c.SetItemPicture? { SetItemChosen(f, c); }
    else if c.UseItemPicture? { UseItemChosen(f, c); }
    else if c.ClearItemPicture? { ClearItemChosen(f, c); }
  }

  lemma StepSound(f: Files, c: Command)
    requires Sound(f) && Fresh(f, c)
    ensures Sound(Step(f, c))
  {
    hide Stocked, ChosenLinked, Step, Fresh;
    StepStocked(f, c);
    StepChosen(f, c);
  }

  /** From a sound store every run of commands, faults and interruptions leaves a sound store. */
  lemma {:induction false} RunSound(f: Files, commands: seq<Command>)
    requires Sound(f) && AllFresh(f, commands)
    ensures Sound(Run(f, commands))
    decreases |commands|
  {
    hide Sound, Step, Fresh;
    if commands != [] {
      StepSound(f, commands[0]);
      RunSound(Step(f, commands[0]), commands[1..]);
    }
  }

  /** A picture set or used is shown with its small copy, both readable, and what they replace is off the item. */
  lemma PictureChosen(f: Files, c: Command)
    requires Sound(f) && Fresh(f, c) && (c.SetItemPicture? || c.UseItemPicture?) && Attempt(f, c).fault.None?
    ensures var g := Step(f, c);
      && c.item in g.items && g.items[c.item].picture.Some? && g.items[c.item].thumbnail == c.thumbnail
      && (c.UseItemPicture? ==> g.items[c.item].picture == Some(c.attachment))
      && (c.SetItemPicture? ==> Owns(g, g.items[c.item].picture.value, c.upload.sha))
      && (forall a | a in Refers(g.items[c.item]) :: Available(g, a) && Joined(g.links, a, ITEM, c.item))
      && (forall a | a in Refers(ShownBy(f.items, c.item)) && a !in Refers(g.items[c.item]) ::
        !Joined(g.links, a, ITEM, c.item))
      && (forall other | other != c.item :: ShownBy(g.items, other) == ShownBy(f.items, other))
  {
    hide Sound, Stocked, ChooseLinks, Received, Available, Joined, Refers, ChoiceFault;
    StepSound(f, c);
    var g := Step(f, c);
    var was := ShownBy(f.items, c.item);
    if c.SetItemPicture? {
      var (id, first) := Received(f, c.upload, c.newAttachment);
      ReceivedOwner(f, c.upload, c.newAttachment);

      ChooseGone(f.links, c.item, was, Shown(Some(id), c.thumbnail), c.caption, c.writer, c.newLink, c.newThumbnail);
    } else {
      ChooseGone(f.links, c.item, was, Shown(Some(c.attachment), c.thumbnail), PICTURE_CAPTION, c.writer, c.newLink,
                 c.newThumbnail);
    }
    forall a | a in Refers(g.items[c.item]) ensures Available(g, a) && Joined(g.links, a, ITEM, c.item) {
      ChosenReadable(g, c.item, a);
    }
  }

  lemma ReceivedOwner(f: Files, up: Upload, newAttachment: Id)
    ensures var (id, first) := Received(f, up, newAttachment); Owns(first.files, id, up.sha)
  {
  }

  lemma ThumbnailMarks(links: map<Id, Link>, thumbnail: Id, item: Id, writer: Writer, newLink: Id)
    requires newLink !in links
    ensures WasThumbnail(AsThumbnail(links, thumbnail, item, writer, newLink).links, thumbnail)
  {
    var now := AsThumbnail(links, thumbnail, item, writer, newLink).links;
    var plain := Uncaptioned(links, thumbnail, item);
    if l :| l in plain {
      assert now[l] == Recaptioned(links[l]);
    } else if Joined(links, thumbnail, ITEM, item) {
      var l: Id :| Joins(links, l, thumbnail, ITEM, item);
      assert l !in plain;
      assert now == links;
    } else {
      assert now[newLink].caption == THUMBNAIL_CAPTION;
    }
  }

  lemma RetireMarks(links: map<Id, Link>, gone: set<Id>, attachment: Id)
    requires WasThumbnail(links, attachment)
    ensures WasThumbnail(RetireAll(links, gone), attachment)
  {
    var l :| l in links && links[l].attachment == attachment && links[l].recordType == ITEM
      && links[l].caption == THUMBNAIL_CAPTION;
    assert RetireAll(links, gone)[l].caption == THUMBNAIL_CAPTION;
  }

  lemma ChooseMarks(links: map<Id, Link>, item: Id, was: Shown, shown: Shown, caption: string, writer: Writer,
                    newLink: Id, newThumbnail: Id)
    requires shown.picture.Some? && shown.thumbnail.Some?
    requires newLink !in links && newThumbnail !in links && newLink != newThumbnail
    ensures WasThumbnail(ChooseLinks(links, item, was, shown, caption, writer, newLink, newThumbnail).links,
                         shown.thumbnail.value)
  {
    hide WasThumbnail, Associate, AsThumbnail, RetireAll, LinkTouches;
    var one := Associate(links, shown.picture.value, ITEM, item, caption, writer, newLink);
    AssociateKeys(links, shown.picture.value, ITEM, item, caption, writer, newLink);
    ThumbnailMarks(one.links, shown.thumbnail.value, item, writer, newThumbnail);
    var two := AsThumbnail(one.links, shown.thumbnail.value, item, writer, newThumbnail);
    RetireMarks(two.links, ItemLinks(two.links, item, Refers(was) - Refers(shown)), shown.thumbnail.value);
  }

  /** The small copy of a chosen picture is captioned as one from then on. */
  lemma ThumbnailMarked(f: Files, c: Command)
    requires Sound(f) && Fresh(f, c) && (c.SetItemPicture? || c.UseItemPicture?) && Attempt(f, c).fault.None?
        && c.thumbnail.Some?
    ensures WasThumbnail(Step(f, c).links, c.thumbnail.value)
  {
    hide Sound, Received, ChooseLinks, ChoiceFault, Available, WasThumbnail;
    var was := ShownBy(f.items, c.item);
    if c.SetItemPicture? {
      var id := Received(f, c.upload, c.newAttachment).0;
      ChooseMarks(f.links, c.item, was, Shown(Some(id), c.thumbnail), c.caption, c.writer, c.newLink, c.newThumbnail);
    } else {
      ChooseMarks(f.links, c.item, was, Shown(Some(c.attachment), c.thumbnail), PICTURE_CAPTION, c.writer, c.newLink,
                  c.newThumbnail);
    }
  }

  /**
   Clearing leaves nothing chosen and takes the small copy off the item, and unless the file is kept the picture
   too, chosen or stood in for; every other file stays on the item or off it as it was.
   */
  lemma PictureCleared(f: Files, c: Command)
    requires Sound(f) && c.ClearItemPicture? && ClearItemStep(f, c).fault.None?
    ensures var was, g := ShownBy(f.items, c.item), ClearItemStep(f, c).files;
      && ShownBy(g.items, c.item) == Shown(None, None)
      && (was.thumbnail.Some? ==> !Joined(g.links, was.thumbnail.value, ITEM, c.item))
      && (was.picture.Some? && was.picture != was.thumbnail ==>
            (Joined(g.links, was.picture.value, ITEM, c.item) <==> c.keepFile))
      && (was.picture.None? && c.fallback.Some? && !c.keepFile ==> !Joined(g.links, c.fallback.value, ITEM, c.item))
      && (forall a | a !in Cleared(was, c.keepFile, c.fallback) ::
            Joined(g.links, a, ITEM, c.item) <==> Joined(f.links, a, ITEM, c.item))
      && g.attachments == f.attachments && g.bodies == f.bodies
  {
    hide OnlyGone, Stocked, RetireAll, LinkTouches, Joined;
    var was, g := ShownBy(f.items, c.item), ClearItemStep(f, c).files;
    var gone := Cleared(was, c.keepFile, c.fallback);
    RetireGone(f.links, c.item, gone);
    forall a | a in gone ensures !Joined(g.links, a, ITEM, c.item) { NotJoined(f.links, c.item, gone, a); }
    forall a | a !in gone ensures Joined(g.links, a, ITEM, c.item) <==> Joined(f.links, a, ITEM, c.item) {
      RetireJoins(f.links, ItemLinks(f.links, c.item, gone), a, c.item);
      if Joined(f.links, a, ITEM, c.item) { StillJoined(f.links, g.links, c.item, gone, a, c.item); }
    }
    if was.picture.Some? { assert ItemLinked(f.links, c.item, was); }
  }

  lemma RetireJoins(links: map<Id, Link>, gone: set<Id>, attachment: Id, item: Id)
    ensures Joined(RetireAll(links, gone), attachment, ITEM, item) ==> Joined(links, attachment, ITEM, item)
  {
    if Joined(RetireAll(links, gone), attachment, ITEM, item) {
      var l: Id :| Joins(RetireAll(links, gone), l, attachment, ITEM, item);
      assert Joins(links, l, attachment, ITEM, item);
    }
  }

  // ---------------------------------------------------------------- adding files

  /** After an import file is added no unused one stays that it replaces, nor one past its days. */
  lemma NoStaleLeft(f: Files, c: Command, l: Id)
    requires c.Add? && Fresh(f, c) && c.recordType == IMPORT_FILE && AddStep(f, c).fault.None?
    requires var g := AddStep(f, c).files;
      && l in g.links && g.links[l].active && g.links[l].recordType == IMPORT_FILE
      && !Owns(g, g.links[l].attachment, c.upload.sha)
      && ((g.links[l].linkedBy == c.writer.actor && g.links[l].caption == c.caption)
          || g.links[l].linkedAt < c.writer.now - IMPORT_FILE_DAYS * DAY)
    ensures Used(AddStep(f, c).files, AddStep(f, c).files.links[l].attachment)
  {
    hide Used, LinkTouches, Received, SizeDiffers, Joined;
    var g := AddStep(f, c).files;
    var id := Received(f, c.upload, c.newAttachment).0;
    ReceivedEdit(f, c.upload, c.newAttachment);
    ReceivedOwner(f, c.upload, c.newAttachment);
    assert Owns(g, id, c.upload.sha);
    assert l in f.links && l !in StaleFor(f, c, id) && g.links[l] == f.links[l];
    assert !Stale(f, f.links[l], id, c.caption, c.writer);
    SameUse(f, g, f.links[l].attachment);
  }

  lemma SameUse(f: Files, g: Files, attachment: Id)
    requires g.runs == f.runs
    ensures Used(g, attachment) <==> Used(f, attachment)
  {
  }

  /**
   The staleness rule never takes a file that a run is using or landed records from, nor another person's fresh
   one.
   */
  lemma UsedKept(f: Files, c: Command, l: Id)
    requires c.Add? && Fresh(f, c) && l in f.links && f.links[l].active
    requires Used(f, f.links[l].attachment) || c.recordType != IMPORT_FILE || f.links[l].recordType != IMPORT_FILE
          || (f.links[l].linkedBy != c.writer.actor && f.links[l].linkedAt >= c.writer.now - IMPORT_FILE_DAYS * DAY)
    ensures Step(f, c).links[l] == f.links[l]
  {
    hide Used, LinkTouches, Received, SizeDiffers, Joined;
    var id := Received(f, c.upload, c.newAttachment).0;
    assert l !in StaleFor(f, c, id);
  }

  /** A run that is going or stopped half way has the file, or one that landed records from it. */
  ghost predicate HeldByRun(f: Files, attachment: Id) {
    exists r | r in f.runs && f.runs[r].attachment == attachment ::
      f.runs[r].landed || f.runs[r].progress.Running? || f.runs[r].progress.Stopped?
  }

  /**
   An add unlinks exactly the import files of other bytes it replaces, its writer's under the same caption, and those
   more than seven days old, where no run holds them, and only when an import file is added.
   */
  lemma UnlinkedExactly(f: Files, c: Command, l: Id)
    requires Sound(f) && c.Add? && Fresh(f, c) && AddStep(f, c).fault.None? && l in f.links && f.links[l].active
    ensures var g, was := AddStep(f, c).files, f.links[l];
      && l in g.links && (g.links[l].active ==> g.links[l] == was)
      && (!g.links[l].active ==> g.links[l].version == was.version + 1 && g.links[l].caption == was.caption)
      && (!g.links[l].active <==>
            && c.recordType == "import_file" && was.recordType == "import_file"
            && !Owns(g, was.attachment, c.upload.sha) && !HeldByRun(f, was.attachment)
            && ((was.linkedBy == c.writer.actor && was.caption == c.caption)
                || was.linkedAt < c.writer.now - 7 * 24 * 3600 * 1000))
  {
    hide LinkTouches, Received, SizeDiffers, Joined, RunUses, Used, HeldAvailable, BodiesStored, PendingSound, Versions,
      OneActive, ChosenLinked, HeldByRun;
    var g := AddStep(f, c).files;
    var id := Received(f, c.upload, c.newAttachment).0;
    AddStocked(f, c);
    ReceivedEdit(f, c.upload, c.newAttachment);
    ReceivedOwner(f, c.upload, c.newAttachment);
    assert Owns(g, id, c.upload.sha);
    UsedIsHeld(f, f.links[l].attachment);
    assert Owns(g, f.links[l].attachment, c.upload.sha) <==> f.links[l].attachment == id;
  }

  lemma UsedIsHeld(f: Files, attachment: Id)
    ensures Used(f, attachment) <==> HeldByRun(f, attachment)
  {
  }

  lemma AssociateJoins(links: map<Id, Link>, attachment: Id, recordType: string, record: Id, caption: string,
                       writer: Writer, newLink: Id)
    returns (l: Id)
    requires newLink !in links
    ensures var now := Associate(links, attachment, recordType, record, caption, writer, newLink).links;
      Joins(now, l, attachment, recordType, record)
        && (l in links || now[l] == NewLink(attachment, recordType, record, caption, writer))
    ensures var now := Associate(links, attachment, recordType, record, caption, writer, newLink).links;
      if Joined(links, attachment, recordType, record) then now == links
      else l == newLink && now == links[newLink := NewLink(attachment, recordType, record, caption, writer)]
  {
    l := newLink;
    if Joined(links, attachment, recordType, record) { l :| Joins(links, l, attachment, recordType, record); }
  }

  lemma ReceivedRow(f: Files, up: Upload, newAttachment: Id)
    requires !SizeDiffers(f, up)
    ensures var (id, first) := Received(f, up, newAttachment);
      && (Known(f, up.sha) ==> id == OwnerOf(f, up.sha))
      && first.files.attachments[id].size == up.size
      && (!Known(f, up.sha) ==> first.files.attachments[id].media == up.media)
  {
  }

  /** A new occurrence says who linked the file, when and under what caption, and starts active at its first version. */
  predicate Minted(l: Link, caption: string, writer: Writer) {
    && l.caption == caption && l.linkedBy == writer.actor && l.linkedAt == writer.now
    && l.active && l.version == 1 && l.audited == [true]
  }

  /** A collected file comes back under its own row when its bytes are uploaded again. */
  lemma AddAvailable(f: Files, c: Command) returns (l: Id)
    requires Sound(f) && c.Add? && Fresh(f, c) && AddStep(f, c).fault.None?
    ensures var g := AddStep(f, c).files;
      && Known(g, c.upload.sha) && Available(g, OwnerOf(g, c.upload.sha))
      && (Known(f, c.upload.sha) ==> OwnerOf(g, c.upload.sha) == OwnerOf(f, c.upload.sha))
      && g.attachments[OwnerOf(g, c.upload.sha)].size == c.upload.size
      && (!Known(f, c.upload.sha) ==> g.attachments[OwnerOf(g, c.upload.sha)].media == c.upload.media)
      && Joins(g.links, l, OwnerOf(g, c.upload.sha), c.recordType, c.record)
      && (l in f.links || Minted(g.links[l], c.caption, c.writer))
  {
    hide StaleFor, RetireAll, LinkTouches, HeldAvailable, BodiesStored, PendingSound, Versions, OneActive, Associate,
      Received, SizeDiffers, Joined;
    var (id, first) := Received(f, c.upload, c.newAttachment);
    var g := AddStep(f, c).files;
    AddStocked(f, c);
    ReceivedStocked(f, c.upload, c.newAttachment);
    ReceivedRow(f, c.upload, c.newAttachment);
    assert Owns(g, id, c.upload.sha);
    RetireKeys(f.links, StaleFor(f, c, id));
    l := AssociateJoins(RetireAll(f.links, StaleFor(f, c, id)), id, c.recordType, c.record, c.caption, c.writer,
                        c.newLink);
  }

  // ---------------------------------------------------------------- what each command is accepted for, and leaves

  /** Some row holds the digest at another size. */
  ghost predicate StoredAtAnotherSize(f: Files, up: Upload) {
    exists id :: Owns(f, id, up.sha) && f.attachments[id].size != up.size
  }

  /** An upload is accepted exactly with no collection pending and no row of its digest at another size. */
  lemma AddAcceptedExactly(f: Files, c: Command)
    requires Sound(f) && c.Add?
    ensures var fault := AddStep(f, c).fault;
      && (fault.None? <==> f.pending.None? && !StoredAtAnotherSize(f, c.upload))
      && (fault.Some? ==> AddStep(f, c) == Outcome(f, {}, Some(if f.pending.Some? then Busy else Io)))
  {
    hide Received, StaleFor, Retire, Associate, ChosenLinked, OneActive, HeldAvailable, BodiesStored, PendingSound,
      Versions;
    SizeDiffersExactly(f, c.upload);
  }

  lemma SizeDiffersExactly(f: Files, up: Upload)
    requires DistinctShas(f)
    ensures SizeDiffers(f, up) <==> StoredAtAnotherSize(f, up)
  {
    OneOwner(f, up.sha);
    if id :| Owns(f, id, up.sha) && f.attachments[id].size != up.size { assert Known(f, up.sha); }
  }

  /** Linking is accepted exactly for an ordinary record and a stored, uncollected file with no collection pending. */
  lemma LinkAcceptedExactly(f: Files, c: Command)
    requires c.AddLink?
    ensures var o := LinkStep(f, c);
      && (o.fault.None? <==> c.recordType != "import_file" && f.pending.None? && Available(f, c.attachment))
      && (o.fault.Some? ==> o == Outcome(f, {}, Some(
            if c.recordType == "import_file" then Validation else if f.pending.Some? then Busy
            else if c.attachment !in f.attachments then RecordNotFound else Io)))
  {
    hide Associate;
  }

  /**
   It leaves the file linked to the record, by the occurrence there was or a new one with the caption, writer
   and time given, and nothing else changed.
   */
  lemma LinkGives(f: Files, c: Command) returns (l: Id)
    requires c.AddLink? && Fresh(f, c) && LinkStep(f, c).fault.None?
    ensures var g := LinkStep(f, c).files;
      && g == f.(links := g.links) && Joins(g.links, l, c.attachment, c.recordType, c.record)
      && (l in f.links ==> g.links == f.links) && (l !in f.links ==> Minted(g.links[l], c.caption, c.writer))
      && (forall k | k in f.links :: k in g.links && g.links[k] == f.links[k])
      && (forall k | k in g.links && k !in f.links :: k == l)
  {
    hide Joined, Available;
    l := AssociateJoins(f.links, c.attachment, c.recordType, c.record, c.caption, c.writer, c.newLink);
  }

  /** What refuses a small copy: unknown, the picture itself, not stored, not an image. */
  predicate SmallCopyFits(f: Files, thumbnail: Option<Id>, picture: Id, checks: Checks) {
    thumbnail.None? || (Available(f, thumbnail.value) && thumbnail.value != picture && checks.thumbnail.None?)
  }

  /** A stored file is accepted as a picture exactly when it, the small copy and the item all may be. */
  lemma UseItemAcceptedExactly(f: Files, c: Command)
    requires c.UseItemPicture?
    ensures var o := UseItemStep(f, c);
      && (o.fault.None? <==>
            && f.pending.None? && c.checks.known && Available(f, c.attachment) && c.checks.image.None?
            && SmallCopyFits(f, c.thumbnail, c.attachment, c.checks) && c.checks.item.None?)
      && (o.fault.Some? ==> o.files == f && o.touched == {})
  {
    hide ChooseLinks;
  }

  /** So is an uploaded one, whatever row its digest has. */
  lemma SetItemAcceptedExactly(f: Files, c: Command)
    requires DistinctShas(f) && c.SetItemPicture? && Fresh(f, c)
    ensures var o := SetItemStep(f, c);
      && (o.fault.None? <==>
            && f.pending.None? && c.checks.known && c.checks.image.None? && c.checks.item.None?
            && (c.thumbnail.None? ||
                (Available(f, c.thumbnail.value) && !Owns(f, c.thumbnail.value, c.upload.sha)
                  && c.checks.thumbnail.None?)))
      && (o.fault.Some? ==> o.files == f && o.touched == {})
  {
    hide ChooseLinks, DistinctShas, Restored;
    OneOwner(f, c.upload.sha);
  }

  /** Clearing is accepted exactly for a known item that may change, with no collection pending. */
  lemma ClearItemAcceptedExactly(f: Files, c: Command)
    requires c.ClearItemPicture?
    ensures var o := ClearItemStep(f, c);
      && (o.fault.None? <==> f.pending.None? && c.checks.known && c.checks.item.None?)
      && (o.fault.Some? ==> o.files == f && o.touched == {})
  {
    hide Retire, ItemLinks;
  }

  /** A new picture's link carries the caption asked for, or the plain one, and its writer and time. */
  lemma PictureMinted(f: Files, c: Command, l: Id)
    requires Fresh(f, c) && (c.SetItemPicture? || c.UseItemPicture?) && Attempt(f, c).fault.None?
    requires l in Step(f, c).links && l !in f.links
    ensures var g := Step(f, c);
      && c.item in g.items && g.items[c.item].picture.Some?
      && g.links[l].recordType == "item" && g.links[l].record == c.item
      && (g.links[l].attachment == g.items[c.item].picture.value ==>
            Minted(g.links[l], if c.SetItemPicture? then c.caption else "Item picture", c.writer))
      && (g.links[l].attachment != g.items[c.item].picture.value ==>
            c.thumbnail == Some(g.links[l].attachment) && Minted(g.links[l], "Item picture thumbnail", c.writer))
  {
    hide Received, Joined, RetireAll, LinkTouches, RecaptionAll, ChoiceFault, Available;
    var shown := if c.SetItemPicture? then Shown(Some(Received(f, c.upload, c.newAttachment).0), c.thumbnail)
                 else Shown(Some(c.attachment), c.thumbnail);
    var caption := if c.SetItemPicture? then c.caption else PICTURE_CAPTION;
    ChoiceDistinct(f, shown.picture.value, c.thumbnail, c.checks);
    ChooseMinted(f.links, c.item, ShownBy(f.items, c.item), shown, caption, c.writer, c.newLink, c.newThumbnail, l);
  }

  lemma ChoiceDistinct(f: Files, picture: Id, thumbnail: Option<Id>, checks: Checks)
    ensures ChoiceFault(f, picture, thumbnail, checks).None? ==> thumbnail != Some(picture)
  {
  }

  /** Links made in choosing are of the picture under its caption or of the small copy under its own. */
  lemma ChooseMinted(links: map<Id, Link>, item: Id, was: Shown, shown: Shown, caption: string, writer: Writer,
                     newLink: Id, newThumbnail: Id, l: Id)
    requires shown.picture.Some? && shown.picture != shown.thumbnail
    requires newLink !in links && newThumbnail !in links && newLink != newThumbnail
    requires l !in links
    ensures var r := ChooseLinks(links, item, was, shown, caption, writer, newLink, newThumbnail);
      l in r.links ==>
        && r.links[l].recordType == ITEM && r.links[l].record == item
        && (r.links[l].attachment == shown.picture.value ==> Minted(r.links[l], caption, writer))
        && (r.links[l].attachment != shown.picture.value ==>
              shown.thumbnail == Some(r.links[l].attachment) && Minted(r.links[l], THUMBNAIL_CAPTION, writer))
  {
    hide Joined, LinkTouches;
    var picture := shown.picture.value;
    var one := Associate(links, picture, ITEM, item, caption, writer, newLink);
    var two := if shown.thumbnail.None? then Relinked(one.links, {})
               else AsThumbnail(one.links, shown.thumbnail.value, item, writer, newThumbnail);
    MintedNow(links, one.links, l, picture, item, caption, writer, newLink);
    if shown.thumbnail.Some? { ThumbnailMinted(one.links, shown.thumbnail.value, item, writer, newThumbnail, l); }
  }

  lemma MintedNow(links: map<Id, Link>, now: map<Id, Link>, l: Id, attachment: Id, item: Id, caption: string,
                  writer: Writer, newLink: Id)
    requires now == Associate(links, attachment, ITEM, item, caption, writer, newLink).links && l !in links
    ensures l in now ==> now[l] == NewLink(attachment, ITEM, item, caption, writer)
  {
    hide Joined;
  }

  lemma ThumbnailMinted(links: map<Id, Link>, thumbnail: Id, item: Id, writer: Writer, newLink: Id, l: Id)
    requires newLink !in links
    ensures var now := AsThumbnail(links, thumbnail, item, writer, newLink).links;
      && (l !in links && l in now ==> now[l] == NewLink(thumbnail, ITEM, item, THUMBNAIL_CAPTION, writer))
      && (l in links && links[l].attachment != thumbnail ==> l in now && now[l] == links[l])
  {
    hide Joined;
  }

  /**
   A group's uploaded picture is stored under its own media type and is that group's, and no other group's
   changes.
   */
  lemma GroupPictureSet(f: Files, c: Command)
    requires Sound(f) && c.SetGroupPicture? && Fresh(f, c)
    ensures var (o, g) := (SetGroupStep(f, c), SetGroupStep(f, c).files);
      && (o.fault.None? <==> f.pending.None?) && (o.fault.Some? ==> g == f)
      && (o.fault.None? ==>
            && c.box in g.groups && Owns(g, g.groups[c.box], c.upload.sha) && Available(g, g.groups[c.box])
            && g.attachments[g.groups[c.box]].media == c.upload.media
            && g.groups == f.groups[c.box := g.groups[c.box]]
            && g == f.(groups := g.groups, attachments := g.attachments, bodies := f.bodies + {c.upload.sha})
            && (forall a | a in f.attachments && a != g.groups[c.box] ::
              a in g.attachments && g.attachments[a] == f.attachments[a]))
  {
  }

  /**
   A stored file becomes a group's picture exactly when it is available and no collection is pending; clearing
   takes exactly the groups named.
   */
  lemma GroupPictureUsed(f: Files, c: Command)
    requires c.UseGroupPicture? || c.ClearGroups?
    ensures var o := Attempt(f, c);
      && (c.UseGroupPicture? ==>
            && (o.fault.None? <==> f.pending.None? && Available(f, c.attachment))
            && o.files == if o.fault.None? then f.(groups := f.groups[c.box := c.attachment]) else f)
      && (c.ClearGroups? ==> o.fault.None? && o.files == f.(groups := f.groups - c.boxes))
  {
  }

  /** Nothing refers to the file: no active link and no group. */
  ghost predicate Unreferred(f: Files, attachment: Id) {
    && (forall l | l in f.links && f.links[l].active :: f.links[l].attachment != attachment)
    && (forall b | b in f.groups :: f.groups[b] != attachment)
  }

  /**
   A collection begins exactly with bodies nothing refers to, each with the uncollected row it has, once, or
   none that keeps it.
   */
  lemma CollectAcceptedExactly(f: Files, candidates: seq<Candidate>)
    ensures var o := CollectStep(f, candidates);
      && (o.fault.None? <==>
            && f.pending.None?
            && (forall i, j | 0 <= i < j < |candidates| && candidates[i].owner.Some? ::
              candidates[i].owner != candidates[j].owner)
            && (forall i | 0 <= i < |candidates| ::
                  && (forall id | Owns(f, id, candidates[i].sha) :: Unreferred(f, id))
                  && (candidates[i].owner.Some? ==>
                        Owns(f, candidates[i].owner.value, candidates[i].sha)
                        && f.attachments[candidates[i].owner.value] == candidates[i].row
                          && !candidates[i].row.collected)
                  && (candidates[i].owner.None? ==> forall id | Owns(f, id, candidates[i].sha) ::
                    f.attachments[id].collected)))
      && o.files == if o.fault.None? then f.(pending := Some(candidates)) else f
  {
    forall id ensures Unreferred(f, id) <==> !Linked(f, id) && !Pictured(f, id) {}
    hide Linked, Pictured, Unreferred;
    forall i | 0 <= i < |candidates| ensures Collectable(f, candidates[i]) <==>
      (&& (forall id | Owns(f, id, candidates[i].sha) :: Unreferred(f, id))
       && (candidates[i].owner.Some? ==>
             Owns(f, candidates[i].owner.value, candidates[i].sha)
             && f.attachments[candidates[i].owner.value] == candidates[i].row && !candidates[i].row.collected)
       && (candidates[i].owner.None? ==> forall id | Owns(f, id, candidates[i].sha) :: f.attachments[id].collected))
    {
    }
  }

  /**
   A finished collection leaves every named body gone and every named row collected at its next version; all
   else stands.
   */
  lemma FinishCollects(f: Files)
    requires Sound(f) && f.pending.Some?
    ensures var (g, named) := (FinishStep(f).files, f.pending.value);
      && g.pending.None? && g == f.(pending := None, bodies := g.bodies, attachments := g.attachments)
      && (forall sha :: sha in g.bodies <==> sha in f.bodies && forall i | 0 <= i < |named| :: named[i].sha != sha)
      && g.attachments.Keys == f.attachments.Keys
      && (forall a | a in f.attachments :: g.attachments[a] ==
            if exists i | 0 <= i < |named| :: named[i].owner == Some(a)
            then f.attachments[a].(collected := true, version := f.attachments[a].version + 1) else f.attachments[a])
  {
    FinishSucceeds(f);
    hide NoLinkNow, OwnerUnchanged, Stocked, ChosenLinked;
    var named := f.pending.value;
    forall a ensures a in Owners(named) <==> exists i | 0 <= i < |named| :: named[i].owner == Some(a) {
      if i :| 0 <= i < |named| && named[i].owner == Some(a) { assert named[i].owner.value in Owners(named); }
    }
    forall sha ensures sha in Shas(named) <==> exists i | 0 <= i < |named| :: named[i].sha == sha {}
  }

  /** Removals and failed uploads touch the body folder alone; a run's state is what was set. */
  lemma BodiesMoved(f: Files, c: Command)
    requires c.RemoveBody? || c.FailedUpload? || c.SetRun?
    ensures var g := Step(f, c);
      && (c.RemoveBody? ==>
            g == f.(bodies := if f.pending.Some? && c.index < |f.pending.value|
                              then f.bodies - {f.pending.value[c.index].sha} else f.bodies))
      && (c.FailedUpload? ==> g == f.(bodies := if f.pending.Some? then f.bodies else f.bodies + {c.upload.sha}))
      && (c.SetRun? ==> g == f.(runs := f.runs[c.run := c.state]))
  {
  }

  // ---------------------------------------------------------------- recovery

  /** While an intent is pending no command but its completion writes a link, an item's picture or an attachment. */
  lemma PendingExcludes(f: Files, c: Command)
    requires f.pending.Some? && !c.Finish?
    ensures Waits(f, Step(f, c))
  {
    hide Available, Collectable, DistinctOwners, FinishStep, Received, ChooseLinks, Associate, Retire, Conflicts,
      Refers;
  }

  /**
   The later state still waits for the same collection, its bodies as they were or some of those named already
   gone.
   */
  ghost predicate Waits(f: Files, g: Files) {
    && g == f.(groups := g.groups, runs := g.runs, bodies := g.bodies)
    && f.pending.Some? && f.bodies - Shas(f.pending.value) <= g.bodies <= f.bodies
  }

  ghost predicate Unfinished(commands: seq<Command>) {
    forall i | 0 <= i < |commands| :: !commands[i].Finish?
  }

  lemma {:induction false} RunWaits(f: Files, commands: seq<Command>)
    requires f.pending.Some? && Unfinished(commands)
    ensures Waits(f, Run(f, commands))
    decreases |commands|
  {
    hide Step, Shas;
    if commands != [] {
      PendingExcludes(f, commands[0]);
      RunWaits(Step(f, commands[0]), commands[1..]);
    }
  }

  /**
   Interrupted after any of its removals, and whatever is attempted before it is resumed, a collection finishes
   in the same store.
   */
  lemma FinishResumed(f: Files, commands: seq<Command>)
    requires Sound(f) && AllFresh(f, commands) && f.pending.Some? && Unfinished(commands)
    ensures var late, now := FinishStep(Run(f, commands)), FinishStep(f);
      && late.fault.None? && late.touched == now.touched
      && late.files == now.files.(groups := late.files.groups, runs := late.files.runs)
  {
    hide Sound, Run, AllFresh, MarkAll, MarkTouches, NoLinkNow, OwnerUnchanged;
    RunWaits(f, commands);
    RunSound(f, commands);
    assert Stocked(f) && Stocked(Run(f, commands)) by { SoundStocked(f); SoundStocked(Run(f, commands)); }
    FinishSucceeds(f);
    FinishSucceeds(Run(f, commands));
  }

  lemma SoundStocked(f: Files)
    requires Sound(f)
    ensures Stocked(f)
  {
  }
}
