/**
 The attachment commands' planners and appliers over the tables and the body folder they update in place, each
 proved equal to the step the store's invariants are stated about.
 */
module AttachmentCommands {
  import opened Options
  import opened Attachments

  class AttachmentStore {
    var attachments: map<Id, Attachment>
    var links: map<Id, Link>
    var items: map<Id, Shown>
    var groups: map<Id, Id>
    var runs: map<Id, ImportRun>
    var bodies: set<Digest>
    var pending: Option<seq<Candidate>>

    function State(): Files
      reads this
    {
      Files(attachments, links, items, groups, runs, bodies, pending)
    }

    constructor ()
      ensures State() == Files(map[], map[], map[], map[], map[], {}, None)
    {
      attachments, links, items, groups, runs, bodies, pending := map[], map[], map[], map[], map[], {}, None;
    }

    /** The row holding a digest, if there is one. */
    method Find(sha: Digest) returns (found: Option<Id>)
      requires DistinctShas(State())
      ensures found.Some? <==> Known(State(), sha)
      ensures found.Some? ==> found.value == OwnerOf(State(), sha)
    {
      var rest := attachments.Keys;
      found := None;
      while rest != {}
        invariant rest <= attachments.Keys
        invariant forall id | id in attachments && id !in rest :: attachments[id].sha != sha
      {
        var id :| id in rest;
        if attachments[id].sha == sha {
          assert Owns(State(), id, sha);
          return Some(id);
        }
        rest := rest - {id};
      }
    }

    /** The active occurrence joining a file and a record, if there is one. */
    method FindLink(attachment: Id, recordType: string, record: Id) returns (found: Option<Id>)
      ensures found.Some? <==> Joined(links, attachment, recordType, record)
      ensures found.Some? ==> Joins(links, found.value, attachment, recordType, record)
    {
      var rest := links.Keys;
      while rest != {}
        invariant rest <= links.Keys
        invariant forall l | l in links && l !in rest :: !Joins(links, l, attachment, recordType, record)
      {
        var l :| l in rest;
        if Joins(links, l, attachment, recordType, record) { return Some(l); }
        rest := rest - {l};
      }
      return None;
    }

    /** Is the file used by a run that landed records from it, is running, or stopped? */
    method InUse(attachment: Id) returns (used: bool)
      ensures used <==> Used(State(), attachment)
    {
      var rest := runs.Keys;
      while rest != {}
        invariant rest <= runs.Keys
        invariant forall r | r in runs && r !in rest :: !RunUses(runs[r], attachment)
      {
        var r :| r in rest;
        if RunUses(runs[r], attachment) { return true; }
        rest := rest - {r};
      }
      return false;
    }

    /** The occurrences the staleness rule takes, found in one pass over the links. */
    method StaleImportFiles(keep: Id, caption: string, writer: Writer) returns (stale: set<Id>)
      ensures stale == StaleLinks(State(), keep, caption, writer)
    {
      var cutoff := writer.now - IMPORT_FILE_DAYS * DAY;
      var rest := links.Keys;
      stale := {};
      while rest != {}
        invariant rest <= links.Keys
        invariant stale == set l | l in links && l !in rest && Stale(State(), links[l], keep, caption, writer)
      {
        var l :| l in rest;
        var row := links[l];
        var used := InUse(row.attachment);
        if row.recordType == IMPORT_FILE && row.active && row.attachment != keep
          && ((row.linkedBy == writer.actor && row.caption == caption) || row.linkedAt < cutoff) && !used
        {
          stale := stale + {l};
        }
        rest := rest - {l};
      }
    }

    /** The active occurrences joining an item to any of the files. */
    method FindItemLinks(item: Id, gone: set<Id>) returns (found: set<Id>)
      ensures found == ItemLinks(links, item, gone)
    {
      var rest := links.Keys;
      found := {};
      while rest != {}
        invariant rest <= links.Keys
        invariant found == set l | l in ItemLinks(links, item, gone) && l !in rest
      {
        var l :| l in rest;
        var row := links[l];
        if row.recordType == ITEM && row.record == item && row.active && row.attachment in gone {
          found := found + {l};
        }
        rest := rest - {l};
      }
    }

    /** Unlinks the rows one update at a time. */
    method RetireLinks(gone: set<Id>) returns (touched: set<Touched>)
      requires gone <= links.Keys
      modifies this`links
      ensures Relinked(links, touched) == Retire(old(links), gone)
    {
      ghost var was := links;
      var rest := gone;
      touched := {};
      while rest != {}
        invariant rest <= gone
        invariant links == RetireAll(was, gone - rest)
        invariant touched == LinkTouches(was, gone - rest)
      {
        var l :| l in rest;
        var row := links[l];
        links := links[l := Retired(row)];
        touched := touched + {Touched(LinkRow, l, Some(row.version), row.version + 1)};
        rest := rest - {l};
      }
    }

    /** Writes the row an upload belongs to. */
    method Receive(up: Upload, found: Option<Id>, newAttachment: Id) returns (id: Id, touched: set<Touched>)
      requires found == if Known(State(), up.sha) then Some(OwnerOf(State(), up.sha)) else None
      modifies this`attachments
      ensures Received(old(State()), up, newAttachment) == (id, Applied(State(), touched))
    {
      id, touched := if found.Some? then found.value else newAttachment, {};
      if found.None? {
        attachments := attachments[id := Attachment(up.sha, up.size, up.media, false, 1)];
        touched := {Touched(AttachmentRow, id, None, 1)};
      } else if attachments[id].collected {
        touched := {Touched(AttachmentRow, id, Some(attachments[id].version), attachments[id].version + 1)};
        attachments := attachments[id := Restored(attachments[id])];
      } else {
        assert attachments[id := attachments[id]] == attachments;
      }
    }

    /** Inserts a new occurrence unless an active one joins the file and the record already. */
    method Occur(attachment: Id, recordType: string, record: Id, caption: string, writer: Writer, newLink: Id)
      returns (touched: set<Touched>)
      modifies this`links
      ensures Relinked(links, touched)
          == Associate(old(links), attachment, recordType, record, caption, writer, newLink)
    {
      touched := {};
      var found := FindLink(attachment, recordType, record);
      if found.None? {
        links := links[newLink := Link(attachment := attachment, recordType := recordType, record := record,
                                       caption := caption,
                                       linkedBy := writer.actor, linkedAt := writer.now, active := true, version := 1,
                                       audited := [true])];
        touched := {Touched(LinkRow, newLink, None, 1)};
      }
    }

    /** Links a small copy to the item, or captions its active occurrence as one. */
    method OccurAsThumbnail(thumbnail: Id, item: Id, writer: Writer, newLink: Id) returns (touched: set<Touched>)
      requires OneActive(links)
      modifies this`links
      ensures Relinked(links, touched) == AsThumbnail(old(links), thumbnail, item, writer, newLink)
    {
      touched := {};
      var found := FindLink(thumbnail, ITEM, item);
      if found.Some? {
        var l := found.value;
        var row := links[l];
        OnlyUncaptioned(links, l, thumbnail, item);
        if row.caption != THUMBNAIL_CAPTION {
          links := links[l := row.(caption := THUMBNAIL_CAPTION, version := row.version + 1,
                                   audited := row.audited + [true])];
          touched := {Touched(LinkRow, l, Some(row.version), row.version + 1)};
        }
      } else {
        assert Uncaptioned(links, thumbnail, item) == {};
        touched := Occur(thumbnail, ITEM, item, THUMBNAIL_CAPTION, writer, newLink);
      }
    }

    /** Publishes the bytes, then writes the attachment's row, the stale links and the new occurrence. */
    method Add(up: Upload, recordType: string, record: Id, caption: string, writer: Writer, newAttachment: Id,
               newLink: Id)
      returns (touched: set<Touched>, fault: Option<Fault>)
      requires DistinctShas(State())
      modifies this
      ensures Outcome(State(), touched, fault)
           == AddStep(old(State()), Command.Add(up, recordType, record, caption, writer, newAttachment, newLink))
    {
      hide StaleLinks, RetireAll, LinkTouches, Associate, DistinctShas;
      if pending.Some? { return {}, Some(Busy); }
      var found := Find(up.sha);
      if found.Some? && attachments[found.value].size != up.size { return {}, Some(Io); }
      ghost var was := State();
      var stale: set<Id> := {};
      if recordType == IMPORT_FILE {
        var keep := if found.Some? then found.value else newAttachment;
        stale := StaleImportFiles(keep, caption, writer);
        StaleKnown(was, keep, caption, writer);
      }
      var id, first := Receive(up, found, newAttachment);
      bodies := bodies + {up.sha};
      var retired := RetireLinks(stale);
      var linked := Occur(id, recordType, record, caption, writer, newLink);
      return first + (retired + linked), None;
    }

    /** Links a file that is stored to another record. */
    method AddLink(attachment: Id, recordType: string, record: Id, caption: string, writer: Writer, newLink: Id)
      returns (touched: set<Touched>, fault: Option<Fault>)
      modifies this`links
      ensures Outcome(State(), touched, fault)
           == LinkStep(old(State()), Command.AddLink(attachment, recordType, record, caption, writer, newLink))
    {
      hide Associate;
      if recordType == IMPORT_FILE { return {}, Some(Validation); }
      if pending.Some? { return {}, Some(Busy); }
      if attachment !in attachments { return {}, Some(RecordNotFound); }
      if attachments[attachment].collected || attachments[attachment].sha !in bodies { return {}, Some(Io); }
      touched := Occur(attachment, recordType, record, caption, writer, newLink);
      fault := None;
    }

    /** The version check of an unlinking: the later entries are read one by one for a change of activity. */
    method Check(link: Id, expected: nat) returns (conflict: bool)
      requires link in links && expected >= 1
      ensures conflict <==> Conflicts(links[link], expected)
    {
      var row := links[link];
      if expected >= row.version { return expected > row.version; }
      if |row.audited| < row.version { return true; }
      var v := expected;
      while v < row.version
        invariant expected <= v <= row.version
        invariant forall k | expected <= k < v :: row.audited[k] == row.audited[k - 1]
      {
        if row.audited[v] != row.audited[v - 1] { return true; }
        v := v + 1;
      }
      return false;
    }

    /** Unlinks an occurrence its caller read at some version, unless an item has chosen its file. */
    method Unlink(link: Id, expected: nat) returns (touched: set<Touched>, fault: Option<Fault>)
      modifies this`links
      ensures Outcome(State(), touched, fault) == UnlinkStep(old(State()), Command.Unlink(link, expected))
    {
      hide Conflicts;
      touched, fault := {}, None;
      if expected == 0 { return {}, Some(Validation); }
      if pending.Some? { return {}, Some(Busy); }
      if link !in links { return {}, Some(RecordNotFound); }
      var row := links[link];
      var conflict := Check(link, expected);
      if conflict { return {}, Some(VersionConflict); }
      if row.active {
        if row.recordType == ITEM && row.attachment in Refers(ShownBy(items, row.record)) {
          return {}, Some(Validation);
        }
        RetireOne(links, link);
        links := links[link := Retired(row)];
        touched := {Touched(LinkRow, link, Some(row.version), row.version + 1)};
      }
    }

    /** Writes the links of a chosen picture: its own, its small copy's, and those of what it replaces. */
    method ChoosePicture(item: Id, shown: Shown, caption: string, writer: Writer, newLink: Id, newThumbnail: Id)
      returns (touched: set<Touched>)
      requires Stocked(State()) && pending.None? && shown.picture.Some? && newLink !in links
      requires Uncollected(State(), shown.picture.value)
      modifies this`links, this`items
      ensures var chosen :=
          ChooseLinks(old(links), item, ShownBy(old(items), item), shown, caption, writer, newLink, newThumbnail);
        links == chosen.links && touched == chosen.touched && items == old(items)[item := shown]
    {
      hide Stocked, Associate, AsThumbnail, RetireAll, LinkTouches;
      ghost var was := State();
      var picture := shown.picture.value;
      AssociateStocked(was, picture, ITEM, item, caption, writer, newLink);
      var one := Occur(picture, ITEM, item, caption, writer, newLink);
      assert OneActive(links) by { StockedLinks(was.(links := links)); }
      var two: set<Touched> := {};
      if shown.thumbnail.Some? { two := OccurAsThumbnail(shown.thumbnail.value, item, writer, newThumbnail); }
      var found := FindItemLinks(item, Refers(ShownBy(items, item)) - Refers(shown));
      var three := RetireLinks(found);
      items := items[item := shown];
      return one + two + three;
    }

    /** What refuses the choice of a picture whose own file is known. */
    method CheckChoice(picture: Id, thumbnail: Option<Id>, checks: Checks) returns (fault: Option<Fault>)
      ensures fault == ChoiceFault(State(), picture, thumbnail, checks)
    {
      if thumbnail.Some? {
        var id := thumbnail.value;
        if id !in attachments { return Some(RecordNotFound); }
        if id == picture { return Some(Validation); }
        if attachments[id].collected || attachments[id].sha !in bodies { return Some(Io); }
        if checks.thumbnail.Some? { return checks.thumbnail; }
      }
      return checks.item;
    }

    /** Uploads a picture and chooses it. */
    method SetItemPicture(item: Id, up: Upload, thumbnail: Option<Id>, caption: string, checks: Checks, writer: Writer,
                          newAttachment: Id, newLink: Id, newThumbnail: Id)
      returns (touched: set<Touched>, fault: Option<Fault>)
      requires Stocked(State())
      requires Fresh(State(), Command.SetItemPicture(item, up, thumbnail, caption, checks, writer,
                                                     newAttachment, newLink, newThumbnail))
      modifies this
      ensures Outcome(State(), touched, fault)
           == SetItemStep(old(State()), Command.SetItemPicture(item, up, thumbnail, caption, checks, writer,
                                                               newAttachment, newLink, newThumbnail))
    {
      hide Stocked, Received, ChooseLinks, ChoiceFault;
      if pending.Some? { return {}, Some(Busy); }
      if !checks.known { return {}, Some(RecordNotFound); }
      if checks.image.Some? { return {}, checks.image; }
      ghost var was := State();
      assert DistinctShas(was) by { StockedLinks(was); }
      var found := Find(up.sha);
      ReceivedId(was, up, newAttachment);
      var picture := if found.Some? then found.value else newAttachment;
      fault := CheckChoice(picture, thumbnail, checks);
      if fault.Some? { return {}, fault; }
      ReceivedStocked(was, up, newAttachment);
      var id, first := Receive(up, found, newAttachment);
      bodies := bodies + {up.sha};
      var chosen := ChoosePicture(item, Shown(Some(id), thumbnail), caption, writer, newLink, newThumbnail);
      return first + chosen, None;
    }

    /** Chooses a stored file as the picture. */
    method UseItemPicture(item: Id, attachment: Id, thumbnail: Option<Id>, checks: Checks, writer: Writer,
                          newLink: Id, newThumbnail: Id)
      returns (touched: set<Touched>, fault: Option<Fault>)
      requires Stocked(State()) && newLink !in links
      modifies this`links, this`items
      ensures Outcome(State(), touched, fault)
           == UseItemStep(old(State()), Command.UseItemPicture(item, attachment, thumbnail, checks, writer,
                                                               newLink, newThumbnail))
    {
      hide Stocked, ChooseLinks, ChoiceFault;
      if pending.Some? { return {}, Some(Busy); }
      if !checks.known || attachment !in attachments { return {}, Some(RecordNotFound); }
      if attachments[attachment].collected || attachments[attachment].sha !in bodies { return {}, Some(Io); }
      if checks.image.Some? { return {}, checks.image; }
      fault := CheckChoice(attachment, thumbnail, checks);
      if fault.Some? { return {}, fault; }
      touched := ChoosePicture(item, Shown(Some(attachment), thumbnail), PICTURE_CAPTION, writer, newLink,
                               newThumbnail);
    }

    /** Takes the picture off the item. */
    method ClearItemPicture(item: Id, keepFile: bool, fallback: Option<Id>, checks: Checks)
      returns (touched: set<Touched>, fault: Option<Fault>)
      modifies this`links, this`items
      ensures Outcome(State(), touched, fault)
           == ClearItemStep(old(State()), Command.ClearItemPicture(item, keepFile, fallback, checks))
    {
      hide RetireAll, LinkTouches;
      if pending.Some? { return {}, Some(Busy); }
      if !checks.known { return {}, Some(RecordNotFound); }
      var shown := ShownBy(items, item);
      var gone := Ids(shown.thumbnail);
      if !keepFile { gone := gone + Ids(if shown.picture.Some? then shown.picture else fallback); }
      assert gone == Cleared(shown, keepFile, fallback);
      var found := FindItemLinks(item, gone);
      if checks.item.Some? { return {}, checks.item; }
      touched := RetireLinks(found);
      items := items[item := Shown(None, None)];
      fault := None;
    }

    /** Removes the named bodies one file at a time. */
    method RemoveBodies(candidates: seq<Candidate>)
      modifies this`bodies
      ensures bodies == old(bodies) - Shas(candidates)
    {
      for i := 0 to |candidates|
        invariant bodies == old(bodies) - Shas(candidates[..i])
      {
        bodies := bodies - {candidates[i].sha};
        assert candidates[..i + 1] == candidates[..i] + [candidates[i]];
        ShasGrow(candidates[..i], candidates[i]);
      }
      assert candidates[..|candidates|] == candidates;
    }

    /** Marks the named rows one update at a time. */
    method MarkRows(candidates: seq<Candidate>) returns (touched: set<Touched>)
      requires DistinctOwners(candidates) && Owners(candidates) <= attachments.Keys
      modifies this`attachments
      ensures attachments == MarkAll(old(attachments), Owners(candidates))
      ensures touched == MarkTouches(old(attachments), Owners(candidates))
    {
      ghost var was := attachments;
      touched := {};
      for i := 0 to |candidates|
        invariant attachments == MarkAll(was, Owners(candidates[..i]))
        invariant touched == MarkTouches(was, Owners(candidates[..i]))
      {
        assert candidates[..i + 1] == candidates[..i] + [candidates[i]];
        OwnersGrow(candidates[..i], candidates[i]);
        if candidates[i].owner.Some? {
          var id := candidates[i].owner.value;
          NotYetMarked(candidates, i);
          assert id in Owners(candidates);
          MarkOne(was, Owners(candidates[..i]), id);
          touched := touched + {Touched(AttachmentRow, id, Some(attachments[id].version), attachments[id].version + 1)};
          attachments := attachments[id := Collected(attachments[id])];
        }
      }
      assert candidates[..|candidates|] == candidates;
    }

    /** Removes every named body, then marks the rows and deletes the intent. */
    method FinishCollection() returns (touched: set<Touched>, fault: Option<Fault>)
      requires Stocked(State()) && pending.Some?
      modifies this
      ensures Outcome(State(), touched, fault) == FinishStep(old(State())) && fault.None?
    {
      FinishSucceeds(State());
      OwnersKnown(State());
      var candidates := pending.value;
      RemoveBodies(candidates);
      touched := MarkRows(candidates);
      fault, pending := None, None;
    }
  }

  lemma StaleKnown(f: Files, keep: Id, caption: string, writer: Writer)
    ensures StaleLinks(f, keep, caption, writer) <= f.links.Keys
  {
  }

  lemma StockedLinks(f: Files)
    requires Stocked(f)
    ensures DistinctShas(f) && OneActive(f.links)
  {
  }

  lemma ReceivedId(f: Files, up: Upload, newAttachment: Id)
    ensures Received(f, up, newAttachment).0 == if Known(f, up.sha) then OwnerOf(f, up.sha) else newAttachment
  {
  }

  /** With one active occurrence for a file and a record, at most that one can lack the caption. */
  lemma OnlyUncaptioned(links: map<Id, Link>, l: Id, thumbnail: Id, item: Id)
    requires OneActive(links) && Joins(links, l, thumbnail, ITEM, item)
    ensures Uncaptioned(links, thumbnail, item) == if links[l].caption != THUMBNAIL_CAPTION then {l} else {}
    ensures RecaptionAll(links, {l}) == links[l := Recaptioned(links[l])]
    ensures LinkTouches(links, {l}) == {Touched(LinkRow, l, Some(links[l].version), links[l].version + 1)}
  {
    forall m | m in Uncaptioned(links, thumbnail, item) ensures m == l { assert SameTarget(links[m], links[l]); }
  }

  lemma OwnersKnown(f: Files)
    requires PendingSound(f) && f.pending.Some?
    ensures Owners(f.pending.value) <= f.attachments.Keys
  {
    forall id | id in Owners(f.pending.value) ensures id in f.attachments {
      var i :| 0 <= i < |f.pending.value| && f.pending.value[i].owner == Some(id);
      assert Collectable(f, f.pending.value[i]);
    }
  }

  lemma MarkOne(attachments: map<Id, Attachment>, owned: set<Id>, id: Id)
    requires id in attachments && id !in owned
    ensures MarkAll(attachments, owned + {id}) == MarkAll(attachments, owned)[id := Collected(attachments[id])]
    ensures MarkTouches(attachments, owned + {id})
         == MarkTouches(attachments, owned)
            + {Touched(AttachmentRow, id, Some(attachments[id].version), attachments[id].version + 1)}
  {
  }

  lemma ShasGrow(items: seq<Candidate>, item: Candidate)
    ensures Shas(items + [item]) == Shas(items) + {item.sha}
  {
    var all := items + [item];
    assert all[|items|] == item;
    assert forall i | 0 <= i < |items| :: all[i] == items[i];
  }

  lemma OwnersGrow(items: seq<Candidate>, item: Candidate)
    ensures Owners(items + [item]) == Owners(items) + if item.owner.Some? then {item.owner.value} else {}
  {
    var all := items + [item];
    assert all[|items|] == item;
    assert forall i | 0 <= i < |items| :: all[i] == items[i];
  }

  lemma NotYetMarked(items: seq<Candidate>, i: nat)
    requires DistinctOwners(items) && i < |items| && items[i].owner.Some?
    ensures items[i].owner.value !in Owners(items[..i])
  {
  }
}
