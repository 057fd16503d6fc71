# Bookflow: verified models of its state machines, codecs and schedules

Bookflow keeps books for several companies under one data root. A *hub* database holds people,
organizations, memberships and agents; each company has its own database. Commands are planned and
applied under the data root's lock, so the model takes one command at a time, as one step.

Run `dafny verify dfyconfig.toml` here to check everything.

## What is modelled

**Company record (`CompanyUpdate.dfy`).** A sparse patch is laid over the stored row. A write is blind,
reads the current version, or reads an older one, and is then accepted only if no later version is seen
to have touched the fields it changes. The audit log the rule reads holds snapshots in which the tax id
is masked by a short tag. The main result says, for every run, that an accepted write leaves the patch
applied to the version it read followed by every later change — except exactly when it writes over a
later tax id whose tag did not change, and a concrete run shows that case. Which command is refused, and
why, is stated from the patch and the row alone; without the authority to move it the closing date never
changes.

**Agent authority (`AgentAuthority.dfy`).** Every edit of users, assignments or access compares each
agent's position before and after, suspends the agents that lost something, raises their epoch and
revokes their tokens in the same write. Over every run a suspension is final for the tokens of its time,
and a usable agent token means an active, unsuspended agent with an assigned principal and principals
that are all alike, administration of the installation included. Exactly which agents an edit suspends,
and for what reason, is stated from the tables before and after. Whom an agent acts for is decided by the
last accepted command about each person, and only administrators change it.

**Organization folders (`OrganizationFolders.dfy`).** `organization rename`, its recovery, and `demo
reset` record a destination, commit, move the folder and commit again. A crash or failure may come
between any two steps, and a crash before the directories are synchronized may undo the rename. Each
folder stays at exactly one place, and its row records that place. A rename past its first commit has
given the name asked for whatever fails later, and no two organizations ever share one. A recorded trash
destination is kept to. A reset that starts from a half-finished rename of the demo loses track of the
folder, unless it loses power early enough for the rename to be undone, and that is the only such start.
A hub administrator's session first tries to finish such a rename; an agent allowed to reset does not,
and a failed attempt is only a warning.

**Attachment store (`Attachments.dfy`, `AttachmentStore.dfy`).** Content-addressed bodies, link
occurrences, import files and their staleness, item and group pictures, and the two-phase collection of
unlinked bodies. Every active link's bytes stay in the store over every run of commands, failed uploads
and interrupted collections; every item's chosen picture and its small copy stay linked to it and
readable; and the audit names exactly the rows each step changed. An unlinking with an older version
merges over captions changed since and conflicts exactly when the link was unlinked since.

**Activity feed (`Activity.dfy`) and audit log (`AuditFeed.dfy`).** Pages of a log that goes on growing.
Both deliver exactly the filtered log. The activity feed stops short with more to show and no cursor
exactly when some entry is too large for any page even with its text emptied, which no entry within the
limits of the log is.

**Cursors (`Json.dfy`, `Base64Url.dfy`, `Cursors.dfy`, `Listings.dfy`).** Compact ASCII JSON (RFC 8259
section 7) in unpadded base64url (RFC 4648 sections 3.2 and 5) and back. Strings come back exactly when
no high surrogate is followed by a low one. A listing refuses its own cursor when that is longer than its
input admits: the membership listing at 1024 characters, which a scope name of 124 code points outside
ASCII is enough for, and the user listing at 512, which takes a username of 62.

**Schedules (`Rounding.dfy`, `Depreciation.dfy`, `DepreciationSwitch.dfy`, `LevelPayments.dfy`,
`Loans.dfy`).** Half-even rounding, depreciation with posted periods, loan schedules, payments with extra
principal, and the level payment, exact and rounded. The documented claim that a depreciation schedule
always sums to cost less salvage fails when salvage is raised above the book value that posted periods
left; the exact condition is proved. The documented reason for keeping the switch to straight line is
that its share then stays the larger. Of the rounded shares that need not be so: the exact condition is
proved from the state at the switch, for monthly and yearly periods, and while periods are whole the
share is never behind by more than a cent; the code keeps the switch either way. A loan is refused the
payment worked out for it, at first or for a new rate, exactly when that rounds to the interest then owed
and is not the last. Payments and changes of rate or payment keep a loan that can be drawn up so; voiding
a payment may not, and the exact condition is proved.

**Memberships (`Memberships.dfy`) and custom fields (`CustomFields.dfy`, `Sorting.dfy`).** The membership
table before permission activation, with the reach behind its listings: who may change a row, and that its
role and activity are those of the last accepted command about it. Planning with captured ids, applying
with replayed ones, and a multi-key sort made of stable passes.

`Options.dfy` holds the two result shapes. State that the program changes in place is a class whose
methods are proved equal to a specification function; the properties are lemmas about that function and
its runs. Identifiers and times are numbers, tables are maps or sequences, SHA-256 and validation are
function parameters, and integers are unbounded.

## Model

| member | source | states |
|---|---|---|
| CompanyUpdate.MergedRow | src/bookflow/commands/company_cmds.py:291-307 | The in-place patch writes every column the input sets, clears a whole address set to null, and leaves the rest as stored |
| CompanyUpdate.HistoryFromEntries | src/bookflow/core/versioning.py:122-148 | The loop over the audit entries is the history: each later version with its snapshot difference, baselines only resetting the comparison |
| CompanyUpdate.HistoryExact | src/bookflow/core/versioning.py:122-148 | On a faithful log, the history since a version is exactly the later versions, each with the columns its snapshot changed |
| CompanyUpdate.OverlapExact | src/bookflow/core/versioning.py:105-114 | A write overlaps the history exactly when some column seen to change since lies in one of its fields |
| CompanyUpdate.AcceptedExactly | src/bookflow/core/versioning.py:69-115 | A real change is accepted if and only if it is blind, current, or reads a covered version with no seen overlap; it then names every version it merged over |
| CompanyUpdate.BeforeTheLog | src/bookflow/core/versioning.py:109-111 | A version older than the log's first entry is never taken as covered |
| CompanyUpdate.RefusedExactly | src/bookflow/commands/company_cmds.py:434-446 | Null or a cleared address for a field that always holds a value is refused first, naming every such field; then exactly a given closing date that differs from the stored one, from a caller who may not move it; then exactly an invalid change; nothing is written |
| CompanyUpdate.ChangedIs | src/bookflow/commands/company_cmds.py:440 | The fields a write changes are those some given value of which differs from the stored one |
| CompanyUpdate.AdmissibleExactly | src/bookflow/commands/company_cmds.py:434-446 | The version rule decides exactly the commands none of those three refuse |
| CompanyUpdate.AcceptedWrites | src/bookflow/commands/company_cmds.py:484-500 | An accepted write leaves each column at the value given, null in a cleared address, or as it was, and one entry at the next version holding that row with its tax id tagged |
| CompanyUpdate.RunKeepsClosingDate | src/bookflow/commands/company_cmds.py:441-444 | Over any run of commands of callers without that authority the closing date never changes |
| CompanyUpdate.StepKeepsFaithful | src/bookflow/commands/company_cmds.py:484-500 | A write adds one version and one entry holding the snapshot of the row it leaves; a refused one changes nothing |
| CompanyUpdate.RunKeepsFaithful | src/bookflow/commands/company_cmds.py:434-500 | Over any run versions are gapless and no earlier entry or row is rewritten |
| CompanyUpdate.AcceptedReplays | src/bookflow/core/versioning.py:105-115 | An accepted versioned write equals its patch on the version it read followed by all later changes, if and only if it does not overwrite an unseen tax id |
| CompanyUpdate.NoLostUpdate | src/bookflow/commands/company_cmds.py:434-500 | Over any run whose consecutive tax ids have different tags, no accepted versioned write loses an update |
| CompanyUpdate.TagCollisionLosesUpdate | src/bookflow/core/audit.py:19-37 | Two tax ids with one tag are enough to lose an update: the stale write is accepted and overwrites the other |
| CompanyUpdate.CompanyInfo.Check | src/bookflow/core/versioning.py:69-115 | The check, with its loop over the versions that must be covered, decides as the rule does |
| CompanyUpdate.CompanyInfo.Update | src/bookflow/commands/company_cmds.py:434-500 | One update refuses in the program's order, or writes the row, its version and its entry, as the step function says |
| AgentAuthority.NotNeededLosesNothing | src/bookflow/hub/permission_policy.py:640-664 | An agent the comparison leaves alone lost neither its own standing nor any human it had, and they are still alike |
| AgentAuthority.AuthorizedIsFit | src/bookflow/hub/agent_authority.py:103-153 | An accepted authorization names an active agent acting for some humans, all alike, with the fresh context acknowledged where it was required |
| AgentAuthority.StepSound | src/bookflow/hub/identity_admin.py:388-528 | Every command keeps: unsuspended agents stand, unrevoked tokens are bound to the present, some administrator remains |
| AgentAuthority.RunSound | src/bookflow/hub/identity_admin.py:388-528 | So does every run |
| AgentAuthority.UsableExactly | src/bookflow/hub/credentials.py:84-111 | In a reachable hub a token works if and only if nobody has revoked it and it has not expired |
| AgentAuthority.UsableMeans | src/bookflow/hub/credentials.py:29-49 | A usable agent token means an active, unsuspended, authorized agent at the token's epoch, an eligible principal, and principals all alike, either all administrators or none |
| AgentAuthority.AuthorityMoves | src/bookflow/hub/agent_authority.py:103-153 | Epochs never fall, a suspension raises one, and only an authorization ends a suspension or, with its acknowledgement, the call for a fresh context |
| AgentAuthority.SuspensionIsFinal | src/bookflow/commands/agent_cmds.py:458-481 | A token held by an agent found suspended stays behind the agent's epoch, and revoked until it is swept away, whatever follows, re-authorization included |
| AgentAuthority.SweptWereSpent | src/bookflow/core/host.py:626-660 | The session sweep takes no token that could still be used, then or later |
| AgentAuthority.FreshContextNeedsAck | src/bookflow/commands/agent_cmds.py:466-491 | An agent whose authority was narrowed is unsuspended again only after an accepted authorization that acknowledges it |
| AgentAuthority.NarrowedNeedsFreshContext | src/bookflow/hub/agent_authority.py:103-153 | An edit by which an agent loses a principal, or it or a principal loses anything, suspends it, raises its epoch and calls for a fresh context |
| AgentAuthority.SuspendedExactly | src/bookflow/hub/agent_authority.py:103-153 | A command that edits users, assignments or access suspends an agent, one epoch later and for the first of these reasons, if and only if it loses a person, something is taken from a person it acts for or from itself, or it is moved and those it acts for stand unevenly; it revokes the tokens of those agents and of an account it retires, and no other |
| AgentAuthority.RetiredPersonIsCutOff | src/bookflow/commands/agent_cmds.py:630-655 | Retiring a person kills their tokens and those of every agent that acted for them, for every later run |
| AgentAuthority.ReactivatedStaysSuspended | src/bookflow/commands/agent_cmds.py:548-560 | A reactivated agent is still suspended and none of its tokens works |
| AgentAuthority.UnassignAcceptedExactly | src/bookflow/commands/agent_cmds.py:411-425 | An unassignment is accepted if and only if an administrator takes an active assigned person from an active agent at the version read |
| AgentAuthority.UnassignTakes | src/bookflow/hub/identity_admin.py:388-528 | It takes exactly that person: the agent is suspended one epoch later with a fresh context called for, all its tokens are revoked, and no other agent, user, assignment or token is touched |
| AgentAuthority.AssignAcceptedExactly | src/bookflow/commands/agent_cmds.py:388-401 | An assignment is accepted if and only if an administrator confirms the permitted use, for an active agent and person at the version read, and the person is no newcomer or all it would act for stand alike |
| AgentAuthority.AssignAdds | src/bookflow/hub/identity_admin.py:388-528 | It adds exactly that person, suspends nobody and revokes nothing |
| AgentAuthority.LastAssignmentStands | src/bookflow/commands/agent_cmds.py:388-425 | Over any run an agent acts for a person exactly as the last accepted command about the two says |
| AgentAuthority.OnlyAdministrators | src/bookflow/commands/agent_cmds.py:388-425 | No step by anyone but an active human administrator changes users or assignments, or an authority other than through a change of access, and nobody else mints or revokes a token of another user |
| AgentAuthority.StatusAcceptedExactly | src/bookflow/commands/agent_cmds.py:516-560 | An account is switched if and only if an administrator does so at the version read, not the system's and nobody their own off |
| AgentAuthority.StatusSets | src/bookflow/hub/identity_admin.py:388-528 | It sets that account's activity, and no other user, access or assignment changes |
| AgentAuthority.RetiredSuspends | src/bookflow/commands/agent_cmds.py:630-655 | Retiring a person suspends every agent acting for them, one epoch later, and calls each to a fresh context |
| AgentAuthority.AuthorizeAcceptedExactly | src/bookflow/commands/agent_cmds.py:466-491 | An authorization is accepted if and only if an administrator confirms the permitted use of an active agent that acts for some active people, all alike, at the version read, and acknowledges a fresh context called for |
| AgentAuthority.AuthorizeRestores | src/bookflow/hub/identity_admin.py:388-528 | It lifts the agent's suspension and call for a fresh context at the epoch it had; no token and no other agent changes |
| AgentAuthority.AccessWritten | src/bookflow/hub/identity_admin.py:388-528 | A change of access writes exactly the access given and no user or assignment |
| AgentAuthority.LostAccessSuspends | src/bookflow/hub/agent_authority.py:103-153 | Whoever it takes something from, the agents acting for them, or the agent itself, are suspended one epoch later |
| AgentAuthority.AddedExactly | src/bookflow/commands/agent_cmds.py:267-303 | A new account is made if and only if an administrator asks for a new id: active, without access, an agent suspended and acting for nobody |
| AgentAuthority.IssuedExactly | src/bookflow/commands/host_cmds.py:1631-1653 | A token is minted if and only if an active human asks for themselves, or an administrator for a user who may hold it; it is that one token at the epoch of the moment |
| AgentAuthority.RevokedExactly | src/bookflow/commands/host_cmds.py:1711-1747 | A token is revoked if and only if its user or an administrator asks, that one alone |
| AgentAuthority.SweptExactly | src/bookflow/core/host.py:626-660 | The sweep deletes exactly the browser sessions that ran out more than a day ago and changes nothing else |
| AgentAuthority.AuthorityStore.Reconcile | src/bookflow/hub/agent_authority.py:103-153 | The loop over the agents settles every one against the proposal and collects exactly those that lost something |
| AgentAuthority.AuthorityStore.RevokeTokens | src/bookflow/hub/agent_authority.py:156-162 | Revokes exactly the tokens of the named users |
| AgentAuthority.AuthorityStore.Edit | src/bookflow/hub/identity_admin.py:388-528 | One edit refuses with nothing written, or leaves the users, assignments, authorities and tokens of the specified hub |
| AgentAuthority.AuthorityStore.Assign | src/bookflow/commands/agent_cmds.py:388-425 | Assigning and unassigning refuse and write as the step function says |
| AgentAuthority.AuthorityStore.AddUser | src/bookflow/commands/agent_cmds.py:267-303 | Making an account refuses in the program's order, or leaves the users, access, authorities and assignments specified |
| AgentAuthority.AuthorityStore.IssueToken | src/bookflow/commands/host_cmds.py:1631-1653 | A token is minted only for an eligible binding, at the epoch it has now |
| AgentAuthority.AuthorityStore.Sweep | src/bookflow/core/host.py:626-660 | Deletes exactly the browser sessions that ran out more than a day ago |
| OrganizationFolders.RenamedSound | src/bookflow/core/moves.py:38-55 | A recorded move's rename takes the organization's own folder and leaves every other organization's where it was |
| OrganizationFolders.MoveSound | src/bookflow/hub/moves.py:48-83 | Whatever stops a recorded move, every folder stays at one recorded place; a finished one is durable |
| OrganizationFolders.MoveExactly | src/bookflow/core/moves.py:38-75 | A recorded move that can go on finishes if and only if nothing stops it before both directories are synchronized; the folder then stands at the destination, durably unless the synchronization failed or a crash undid the rename; one that cannot go on moves nothing |
| OrganizationFolders.FinishedUnhindered | src/bookflow/commands/hub_cmds.py:943-1004 | Nothing finishes past a fault that stops it |
| OrganizationFolders.CrashedStands | src/bookflow/hub/moves.py:48-83 | After a crash, in whatever command, the folders that stand are the durable ones |
| OrganizationFolders.ResetSound | src/bookflow/commands/hub_cmds.py:966-1004 | A reset from a settled demo keeps the invariant wherever it stops |
| OrganizationFolders.RenameSound | src/bookflow/commands/hub_cmds.py:313-360 | So does a rename and the completion of its move |
| OrganizationFolders.RunSound | src/bookflow/commands/hub_cmds.py:943-1004 | Over every run of renames, recoveries, resets and crashes each folder is at exactly one place, now and after a crash, and its row records it |
| OrganizationFolders.RunBound | src/bookflow/commands/hub_cmds.py:948-1004 | A recorded trash destination is kept by every later run; the row is deleted only with the folder durably there |
| OrganizationFolders.RenameNames | src/bookflow/commands/hub_cmds.py:337-360 | A rename past its first commit, whatever stops it later, leaves the organization the name asked for and every other row as it was; one refused or failed earlier changes nothing |
| OrganizationFolders.RenamePlaces | src/bookflow/commands/hub_cmds.py:337-360 | One that finishes has the folder durably at the place then registered, the target if it was asked to move it; one that does not records where it is going |
| OrganizationFolders.RenameFinishes | src/bookflow/commands/hub_cmds.py:313-360 | Undisturbed, it finishes if and only if it is accepted and the place it leaves and the one it moves to are not both occupied |
| OrganizationFolders.RecoverPlaces | src/bookflow/hub/moves.py:48-83 | A recovery keeps every name; when it finishes the recorded target is registered, the folder durably there, and otherwise no row changes |
| OrganizationFolders.NamesKept | src/bookflow/hub/moves.py:48-83 | No recovery, reset, crash or refused rename changes a name, and a rename no other organization's |
| OrganizationFolders.MadeExactly | src/bookflow/commands/hub_cmds.py:260-284 | A new organization is made exactly under a free name, its folder with it; that, a new company, one put in the trash or a foreign folder is all those commands change |
| OrganizationFolders.RunNames | src/bookflow/commands/hub_cmds.py:313-335 | Over every run organizations keep distinct names |
| OrganizationFolders.ResetFinishes | src/bookflow/commands/hub_cmds.py:984-1004 | An undisturbed reset finishes if and only if the two places are not both occupied and no other organization holds the seed's name |
| OrganizationFolders.FinishedReset | src/bookflow/commands/hub_cmds.py:1001-1004 | A finished reset leaves the old folder durably in its recorded place in trash, its row gone, and one new demo |
| OrganizationFolders.ResetNames | src/bookflow/commands/hub_cmds.py:984-1004 | It leaves the new demo under the seed's name, which no other organization has, and every row outside the demo as it was |
| OrganizationFolders.UnfinishedReset | src/bookflow/commands/hub_cmds.py:966-1004 | One that does not finish changes no row but the demo's recorded destination |
| OrganizationFolders.ResetRefusedExactly | src/bookflow/commands/hub_cmds.py:894-929 | A reset is refused permission if and only if a live company the demo did not create is in the demo's organization or, unless forced, anywhere |
| OrganizationFolders.StepKeepsReal | src/bookflow/commands/hub_cmds.py:894-929 | No command deletes a live company the demo did not create, nor the organization holding it |
| OrganizationFolders.HalfMovedExactly | src/bookflow/commands/hub_cmds.py:978-983 | Whatever stops it, a reset past its first commit keeps account of the demo's folder if and only if no half-finished rename had moved it, or power was lost before anything was synchronized and the rename was undone |
| OrganizationFolders.HalfMovedReachable | src/bookflow/commands/hub_cmds.py:337-360 | From any sound root a rename that loses power after moving the folder leaves such a start |
| OrganizationFolders.DataRoot.MoveFolder | src/bookflow/core/moves.py:58-75 | The move in place: rename unless done already, check the marker, synchronize, each fault where it can occur |
| OrganizationFolders.DataRoot.DemoOnlyRoot | src/bookflow/commands/hub_cmds.py:894-929 | The scan of the companies decides whether a reset may run at all |
| OrganizationFolders.DataRoot.DeleteOrganizationRows | src/bookflow/hub/companies.py:88-99 | Deletes exactly the organization and its companies |
| OrganizationFolders.DataRoot.DemoReset | src/bookflow/commands/hub_cmds.py:966-1004 | The reset step by step, for every fault, leaves the specified registry and folders |
| OrganizationFolders.DataRoot.Rename | src/bookflow/commands/hub_cmds.py:313-360 | The rename step by step, for every fault, leaves the specified registry and folders |
| Attachments.StepSound | src/bookflow/commands/attachment_cmds.py:268-405 | Every command keeps: one attachment per digest, one active link per file and record, held files uncollected, uncollected bodies stored or pending, every version of a link audited, chosen pictures linked to their items |
| Attachments.RunSound | src/bookflow/company/attachment_gc.py:232-343 | So does every run, failed uploads and interrupted collections included |
| Attachments.ActiveReadable | src/bookflow/commands/attachment_cmds.py:226-232 | Every active link's file is uncollected and its bytes are in the store |
| Attachments.ChosenReadable | src/bookflow/commands/item_picture_cmds.py:137-184 | Every item's chosen picture and small copy is linked to it, uncollected and stored |
| Attachments.PictureChosen | src/bookflow/commands/item_picture_cmds.py:203-282 | A picture set or used is shown with its small copy, both linked and readable; what they replace is off the item, and no other item changes |
| Attachments.PictureCleared | src/bookflow/commands/item_picture_cmds.py:292-313 | Clearing leaves nothing chosen, takes the small copy off the item and, unless the file is kept, the picture too, chosen or stood in for; every other file stays as it was, and no row and no bytes are deleted |
| Attachments.ThumbnailMarked | src/bookflow/commands/item_picture_cmds.py:93-106 | A small copy's link carries its caption, given to it if it was linked under another |
| Attachments.UseItemAcceptedExactly | src/bookflow/commands/item_picture_cmds.py:258-282 | Choosing a stored file is accepted if and only if no collection is pending, the item is known and may change, and the file and any small copy, another file, are available pictures; a refusal changes nothing |
| Attachments.SetItemAcceptedExactly | src/bookflow/commands/item_picture_cmds.py:187-247 | So is setting an uploaded one, whatever row its digest has |
| Attachments.ClearItemAcceptedExactly | src/bookflow/commands/item_picture_cmds.py:292-313 | Clearing is accepted if and only if no collection is pending and the item is known and may change |
| Attachments.PictureMinted | src/bookflow/commands/item_picture_cmds.py:87-106 | A link they make joins the item to the picture, under its caption, or to the small copy, under the fixed one, by the writer at the time |
| Attachments.GroupPictureSet | src/bookflow/commands/pos_box_cmds.py:80-132 | A group's uploaded picture is stored under the media type of its bytes and is that group's; no other group, row or link changes |
| Attachments.GroupPictureUsed | src/bookflow/company/pos_layout.py:119-126 | A stored file becomes a group's picture if and only if it is available and no collection is pending; clearing takes exactly the groups named |
| Attachments.ThumbnailForever | src/bookflow/company/item_pictures.py:133-164 | Over any run a file that was ever a small copy is never an item's newest image again, linked again or not; it stands in for a picture only where a merged item chose it |
| Attachments.StandInReadable | src/bookflow/company/item_pictures.py:142-164 | Whatever stands in for a picture, newest image or inherited, is uncollected and stored |
| Attachments.ConflictsExactly | src/bookflow/core/versioning.py:94-115 | Over the audited versions of a link, an unlinking with an older version conflicts if and only if the link has been unlinked since |
| Attachments.UnlinkExactly | src/bookflow/commands/attachment_cmds.py:369-396 | Exactly when an unlinking is refused, for its version or as an item's chosen file; otherwise the link is left unlinked, counting one version if it was active |
| Attachments.FinishSucceeds | src/bookflow/company/attachment_gc.py:232-287 | A sound pending collection always finishes: nothing it named was touched since |
| Attachments.FinishResumed | src/bookflow/company/attachment_gc.py:232-303 | Interrupted after any removals, and whatever commands are attempted before it is resumed, a collection finishes in the same store with the same audit |
| Attachments.CollectAcceptedExactly | src/bookflow/company/attachment_gc.py:165-229 | A collection begins if and only if none is pending and nothing refers to the bodies named, each with the one uncollected row it has |
| Attachments.FinishCollects | src/bookflow/company/attachment_gc.py:232-287 | A finished one leaves exactly the named bodies gone and the named rows collected at their next version, and all else as it was |
| Attachments.BodiesMoved | src/bookflow/company/attachment_gc.py:245-248 | A removal takes one named body, and a failed upload leaves its own, and neither touches a row |
| Attachments.StepLater | src/bookflow/commands/attachment_cmds.py:290-405 | No command removes a row, revives a retired link, changes an active one but to caption it as a small copy or retire it, or counts a version it did not make |
| Attachments.RunDescends | src/bookflow/commands/attachment_cmds.py:290-405 | Over any run inactive links never return, rows never go, and links keep what they join |
| Attachments.OwnerForever | src/bookflow/commands/attachment_cmds.py:294-305 | A digest keeps its one attachment through every unlinking, collection and restoration |
| Attachments.AddAvailable | src/bookflow/commands/attachment_cmds.py:290-329 | An accepted upload leaves its file uncollected, stored and linked, under the row the digest already had if any; a new occurrence carries the caption, writer and time of the upload |
| Attachments.AddAcceptedExactly | src/bookflow/commands/attachment_cmds.py:290-302 | An upload is refused if and only if a collection is pending or its digest is stored at another size, and then changes nothing |
| Attachments.LinkAcceptedExactly | src/bookflow/commands/attachment_cmds.py:345-354 | Linking is accepted if and only if the record is no import file, no collection is pending and the file is known and available; which refusal is given follows that order |
| Attachments.LinkGives | src/bookflow/commands/attachment_cmds.py:268-277 | It leaves the file linked to the record by the occurrence there was, or by a new one with the caption, writer and time given, and nothing else changed |
| Attachments.StepTold | src/bookflow/commands/attachment_cmds.py:316-405 | Each step's audit names exactly the attachment and link rows it changed, with their versions before and after |
| Attachments.NoStaleLeft | src/bookflow/commands/attachment_cmds.py:190-203 | After an import file is added, any older one it replaces, or past its days, that is still linked is in use |
| Attachments.UsedKept | src/bookflow/commands/attachment_cmds.py:196-203 | An add never unlinks a file a run uses or landed records from, another person's fresh one, or anything but an import file |
| Attachments.UnlinkedExactly | src/bookflow/commands/attachment_cmds.py:190-203 | An add unlinks an active link if and only if an import file is added and the link is of one of other bytes, its writer's under the same caption or more than seven days old, that no run is going on, stopped in or landed records from |
| AttachmentCommands.AttachmentStore.StaleImportFiles | src/bookflow/commands/attachment_cmds.py:190-203 | The scan finds exactly the stale links |
| AttachmentCommands.AttachmentStore.Add | src/bookflow/commands/attachment_cmds.py:289-337 | Publishing, the row, the stale links and the new occurrence leave the specified store and audit |
| AttachmentCommands.AttachmentStore.AddLink | src/bookflow/commands/attachment_cmds.py:345-361 | Linking refuses an import file, a collected or missing body, or adds one occurrence |
| AttachmentCommands.AttachmentStore.Check | src/bookflow/core/versioning.py:94-115 | The loop over the later versions of a link finds a conflict exactly when the rule does |
| AttachmentCommands.AttachmentStore.Unlink | src/bookflow/commands/attachment_cmds.py:369-405 | Unlinking refuses in the program's order, or retires an active occurrence once, as the step function says |
| AttachmentCommands.AttachmentStore.SetItemPicture | src/bookflow/commands/item_picture_cmds.py:187-247 | Setting a picture refuses in the program's order, or publishes it, writes its row, its links and the item's choice as the step function says |
| AttachmentCommands.AttachmentStore.UseItemPicture | src/bookflow/commands/item_picture_cmds.py:258-282 | So does choosing a stored file |
| AttachmentCommands.AttachmentStore.ClearItemPicture | src/bookflow/commands/item_picture_cmds.py:292-313 | And clearing the picture |
| AttachmentCommands.AttachmentStore.FinishCollection | src/bookflow/company/attachment_gc.py:232-287 | Removing the bodies one by one and marking the rows leaves the specified store, without a fault |
| Activity.Shrink | src/bookflow/commands/activity_cmds.py:133-142 | The loop halves the text until the item fits or no text is left, and ends |
| Activity.ShrunkIsExcerpt | src/bookflow/commands/activity_cmds.py:133-142 | Only the body, or the caption of an item without one, changes, to a prefix of itself, flagged exactly when shortened; every other field is as it was |
| Activity.BytesPrinted | src/bookflow/commands/activity_cmds.py:133-136 | The bytes measured are those of the JSON printed for the item's values and of the frame around them |
| Activity.ShrunkFits | src/bookflow/commands/activity_cmds.py:133-142 | An item fits if and only if it did already or would with its text emptied |
| Activity.ShrunkNoFurther | src/bookflow/commands/activity_cmds.py:133-142 | The excerpt is half of a prefix that was still too long |
| Activity.Activity | src/bookflow/commands/activity_cmds.py:171-214 | One request in place is the specified page, or the refusal of a cursor past the newest event |
| Activity.TakenBounds | src/bookflow/commands/activity_cmds.py:202-213 | A page's items stay within the byte budget; it takes no row only when there is none or the first is oversize |
| Activity.PageExactly | src/bookflow/commands/activity_cmds.py:193-214 | A page shows its first rows, as many as its limit and its bytes admit; it says more if and only if it leaves rows, and has a cursor, the last row's key, if and only if it also shows some |
| Activity.NotOversize | src/bookflow/commands/activity_cmds.py:133-142 | An entry that fits with its text emptied is never oversize |
| Activity.RowsStable | src/bookflow/commands/activity_cmds.py:171-180 | Nothing appended after the first page gets under its high water |
| Activity.RowsAfter | src/bookflow/commands/activity_cmds.py:193-195 | After a row's key come exactly the rows after it |
| Activity.FeedComplete | src/bookflow/commands/activity_cmds.py:171-214 | Following cursors delivers every row once in order and finishes if and only if no row is oversize; otherwise it stops before the first with no cursor |
| Activity.RecordedFits | src/bookflow/core/audit.py:69-94 | An entry within the limits of the log, its summary cut to 512 code points, is never oversize |
| Activity.FeedFinishes | src/bookflow/commands/activity_cmds.py:133-214 | So on such a log following the cursors always delivers every row and finishes |
| Activity.FeedRows | src/bookflow/commands/activity_cmds.py:182-195 | Those rows are all visible wanted entries of the log at the first request, in strictly increasing (time, event, entry) order |
| AuditFeed.PageIsWindow | src/bookflow/commands/audit_cmds.py:270-314 | In either mode a page holds exactly the wanted events between its two cursors |
| AuditFeed.WalkDelivers | src/bookflow/commands/audit_cmds.py:270-314 | Any mix of plain and bounded requests on a growing log delivers exactly the wanted events up to the cursor reached |
| AuditFeed.ScanMoreExactly | src/bookflow/commands/audit_cmds.py:290-301 | More is reported if and only if visible candidates remain, and those scanned are gone from them |
| AuditFeed.PlainProgress | src/bookflow/commands/audit_cmds.py:302-306 | A plain page leaves fewer matching events by what it returned, is empty only when none are left, and reports neither a scan nor more to scan |
| AuditFeed.DrainComplete | src/bookflow/commands/audit_cmds.py:270-314 | In any interleaving of modes, following a tail to its end delivers everything wanted |
| AuditFeed.DefaultStart | src/bookflow/commands/audit_cmds.py:279-287 | Without a cursor, both forms of the default start deliver exactly the wanted events appended since |
| AuditFeed.DefaultStartIs | src/bookflow/commands/audit_cmds.py:279-287 | Without a cursor a request starts at the newest event its reader may see, and the hub's plain tail at the newest of all |
| AuditFeed.ListComplete | src/bookflow/commands/audit_cmds.py:244-267 | The pages from the newest event back are the whole filtered log as it stood at the first request |
| AuditFeed.Tail | src/bookflow/commands/audit_cmds.py:270-314 | One tail request in place, in either mode, is the specified page |
| AuditFeed.List | src/bookflow/commands/audit_cmds.py:244-267 | One list request, read from the newest event down, is the specified page |
| Base64Url.DecodeEncode | src/bookflow/commands/host_cmds.py:1293-1295 | Strict decoding undoes padded encoding for every byte string |
| Base64Url.PaddingRestored | src/bookflow/commands/activity_cmds.py:80-90 | Stripped padding is restored from the length alone |
| Base64Url.LooseExtendsStrict | src/bookflow/commands/host_cmds.py:1298-1306 | The forgiving decoder agrees with the strict one wherever the strict one accepts |
| Base64Url.BlockIsNumber | src/bookflow/commands/host_cmds.py:1293-1295 | A block is its bytes as one number, zeros for those it lacks, in base 64 with the digits of table 2 of RFC 4648 section 5, and padding for those |
| Base64Url.EncodedPlain | src/bookflow/commands/host_cmds.py:1293-1295 | An encoding holds only letters, digits, hyphens and underscores, and at its end exactly its padding |
| Json.CanonicalExactly | src/bookflow/commands/host_cmds.py:1293-1311 | A string comes back as it was if and only if no high surrogate in it is followed by a low one |
| Json.StandardParse | src/bookflow/commands/host_cmds.py:1298-1306 | The escape pair of section 7 of RFC 8259 is read as the one code point it stands for |
| Json.EscapeExactly | src/bookflow/commands/host_cmds.py:1293-1295 | Printable ASCII stands for itself but for the quote and the backslash; those and five controls have short escapes, and any other code point its lower-case escape or pair of them |
| Json.ItemsTight | src/bookflow/commands/activity_cmds.py:76-82 | A printed array holds its items, one separator for each and nothing more |
| Json.MembersTight | src/bookflow/commands/activity_cmds.py:76-82 | A printed object holds its names and values, two separators for each and nothing more |
| Json.RoundTrip | src/bookflow/commands/activity_cmds.py:80-90 | Every printed JSON value parses back to itself up to joined surrogate pairs |
| Json.DocumentCanonical | src/bookflow/commands/activity_cmds.py:85-99 | Whatever text is read, no string in the value holds a high surrogate followed by a low one |
| Cursors.WireRoundTrip | src/bookflow/commands/activity_cmds.py:80-90 | Both readers undo the unpadded base64url of every printed value |
| Cursors.KeyRoundTrip | src/bookflow/commands/host_cmds.py:1293-1311 | What any listing gets from any listing's cursor: the key, or a refusal for another noun or size |
| Cursors.KeyReturned | src/bookflow/commands/host_cmds.py:1293-1311 | A listing gets its own key back if and only if no string in the cursor holds a surrogate pair |
| Cursors.ForeignKeyRefused | src/bookflow/commands/host_cmds.py:1307-1310 | A cursor made for another listing, or with another number of keys, is refused |
| Cursors.CursorRoundTrip | src/bookflow/commands/activity_cmds.py:80-99 | What any query gets from any written activity cursor: the cursor, or a refusal outside its scope or with ids that are not ULIDs |
| Cursors.CursorReturned | src/bookflow/commands/activity_cmds.py:80-99 | A query gets its own cursor back if and only if both ids are ULIDs and its scope holds no surrogate pair |
| Cursors.TamperEvident | src/bookflow/commands/activity_cmds.py:76-99 | Two accepted cursors with one checksum agree in every field, or the two texts the checksum was taken over are a collision of the digest |
| Cursors.AcceptedCanonical | src/bookflow/commands/activity_cmds.py:85-99 | The scope of an accepted cursor holds no surrogate pair |
| Cursors.UlidExactly | src/bookflow/core/ids.py:10-19 | An identifier is 26 of its 32 symbols, in either case, the first no more than a seven |
| Listings.ListingExactly | src/bookflow/commands/host_cmds.py:1409-1439 | For any listing, chained pages are the whole sorted listing if and only if no page on the way ends in a row whose cursor is too long |
| Listings.MembershipCursorTooLong | src/bookflow/commands/host_cmds.py:1390 | The membership listing refuses its own cursor if and only if the three texts of the key print at more than 743 characters |
| Listings.UserCursorTooLong | src/bookflow/commands/host_cmds.py:1279 | The user listing refuses its own cursor if and only if the username prints at more than 371 characters |
| Listings.WideNamesTooLong | src/bookflow/commands/host_cmds.py:1293-1295 | A scope name of 124 code points outside ASCII, or a username of 62, makes a cursor no request may send |
| Rounding.RoundRatioExactly | src/bookflow/core/exact.py:167-184 | For every sign of either number the result is the one integer nearest the ratio, ties to even |
| Rounding.NearestMonotone | src/bookflow/core/exact.py:167-184 | A larger numerator never rounds lower |
| Depreciation.Periods | src/bookflow/company/amortization.py:54-66 | The loop builds the periods of a life |
| Depreciation.PeriodsPartition | src/bookflow/company/amortization.py:54-66 | The periods are numbered in order, share out the months of the life, and only the last may be short |
| Depreciation.Depreciate | src/bookflow/company/amortization.py:69-90 | The loop over the periods carries book value, months left and the switch to the specified schedule |
| Depreciation.ComputedWithinRoom | src/bookflow/company/amortization.py:77-84 | A computed amount never takes more than is above salvage; the last period takes all of it |
| Depreciation.AmountsAddUp | src/bookflow/company/amortization.py:85-90 | The amounts add up to what the book value fell by |
| Depreciation.SumsExactly | src/bookflow/company/amortization.py:20-24 | A schedule sums to book value less salvage if and only if its last period starts at or above salvage unposted, or is posted at exactly what was left |
| Depreciation.UnpostedExactly | src/bookflow/company/amortization.py:11-20 | With nothing posted a schedule takes exactly what is above salvage and never ends below it |
| Depreciation.PostedExactly | src/bookflow/company/amortization.py:20-24 | After the first periods are posted the sum is exact if and only if no more than cost less salvage was posted |
| Depreciation.RaisedSalvageBreaksSum | src/bookflow/commands/fixed_asset_cmds.py:63-70 | A concrete asset whose schedule does not sum to cost less salvage |
| Depreciation.WithinOneCent | src/bookflow/company/amortization.py:11-20 | Any two months of a straight-line schedule differ by at most one cent |
| Depreciation.LargerShare | src/bookflow/company/amortization.py:14-18 | Until it has switched a period takes the larger of its two half-even shares, kept above salvage |
| Depreciation.StraightShares | src/bookflow/company/amortization.py:77-84 | A straight-line period takes its months' share of what is above salvage to the nearest cent, ties to even, and the last takes the rest |
| DepreciationSwitch.StaysLargerExactly | src/bookflow/company/amortization.py:14-18 | After a switch with nothing posted, the straight-line share stays the larger in every period left if and only if the state at the switch keeps it so, and while periods are whole it is never behind by more than a cent |
| DepreciationSwitch.SwitchKeptExactly | src/bookflow/company/amortization.py:69-90 | In any schedule of monthly or yearly periods that holds from any period on that is already straight line, whatever was posted before it |
| DepreciationSwitch.MonthlyCondition | src/bookflow/company/amortization.py:69-90 | For months the condition is that, in the first month whose share is rounded down, the declining share is no more than it |
| DepreciationSwitch.RoundedShareFallsBehind | src/bookflow/company/amortization.py:16-18 | A concrete asset whose rounded straight-line share falls behind again after the switch |
| DepreciationSwitch.FallsBehindForeseen | src/bookflow/company/amortization.py:16-18 | The condition says so of it |
| Depreciation.SwitchesOnce | src/bookflow/company/amortization.py:79-84 | Once switched to straight line a schedule stays there, and its last period always has |
| Loans.RemainingRows | src/bookflow/company/amortization.py:121-138 | The loop draws up the specified schedule or its refusal |
| Loans.PaysOff | src/bookflow/company/amortization.py:121-138 | Principal parts add up to the balance, which falls strictly to zero; every payment but the last is level |
| Loans.EndsByTerm | src/bookflow/company/amortization.py:127-131 | The schedule ends by the last scheduled payment |
| Loans.RefusedExactly | src/bookflow/company/amortization.py:130-137 | A schedule is refused if and only if the first payment does not cover its interest and is not the last, or the guard is passed |
| Loans.LowerBalance | src/bookflow/company/amortization.py:121-138 | From a lower balance the same payment gives a schedule nowhere higher and no longer |
| Loans.MoreExtraLower | src/bookflow/company/loans.py:270-318 | After the same number of accepted payments, each with at least as much extra principal, no more is owed |
| Loans.RunSound | src/bookflow/company/loans.py:217-318 | Over any run of payments, extra payments, voidings and changes of rate or payment no more is paid than was borrowed and no payment number stands twice |
| Loans.RunCovered | src/bookflow/company/loans.py:217-318 | Over any run without a voiding a loan that can be drawn up stays so |
| Loans.VoidCovered | src/bookflow/company/loans.py:98-122 | A voiding keeps it so if and only if the payment covers the interest on the balance owed again, or is the last, or nothing is owed |
| Loans.VoidUncovers | src/bookflow/company/loans.py:98-122 | A concrete run of a payment, a lower payment and a voiding, each accepted, after which the loan cannot be drawn up |
| Loans.ExtraShortens | src/bookflow/company/loans.py:288-294 | A payment with extra principal leaves a schedule nowhere higher and no longer than without |
| Loans.PayExactly | src/bookflow/company/loans.py:270-292 | A payment is accepted if and only if the loan can be drawn up, something is owed and the extra is no more than the scheduled principal leaves; it appends one payment under the next number, of the interest on what is owed and the rest of the payment, or all that is owed when that is less or it is the last |
| Loans.PayExtraExactly | src/bookflow/company/loans.py:276-282 | Extra principal alone is accepted if and only if it is above nothing and no more than is owed, and is one payment without a number |
| Loans.VoidExactly | src/bookflow/company/loans.py:86-95 | A voiding takes exactly the payment named |
| Loans.HighestExactly | src/bookflow/company/loans.py:109-114 | The number a payment follows is the highest that stands |
| Loans.ReviseTerms | src/bookflow/company/loans.py:238-252 | An accepted revision leaves the rate asked for, or the one there was, and the payment given, or for another rate the level payment over the payments left, or the one there was; nothing else changes |
| LevelPayments.LevelPaymentSettles | src/bookflow/company/amortization.py:110-118 | The level payment before rounding leaves exactly the balloon after the last payment and covers interest |
| Loans.InterestHalfEven | src/bookflow/company/amortization.py:106-107 | A row's interest is the balance times the periodic rate, to the nearest minor unit, ties to even |
| LevelPayments.LevelIsRatio | src/bookflow/company/amortization.py:110-118 | The exact level payment is a ratio of two whole numbers |
| LevelPayments.LevelMinorNearest | src/bookflow/company/amortization.py:110-118 | The level payment a loan is given is the exact one to within half a minor unit |
| LevelPayments.AtLeastInterest | src/bookflow/company/amortization.py:106-118 | The rounded level payment is never below the first payment's interest, rounded too, and equals it when all that is owed is balloon |
| Loans.LevelRefusedExactly | src/bookflow/company/loans.py:196-208 | A loan is refused the payment worked out for it if and only if there are several payments and it rounds to the first one's interest |
| Loans.SmallLoanRefused | src/bookflow/company/loans.py:196-208 | One minor unit at 100 percent a year in two yearly payments is such a loan |
| Loans.ReviseRefusedExactly | src/bookflow/company/loans.py:238-256 | A new rate without a payment is refused if and only if the loan could not be drawn up before, or something is owed over several payments and the payment worked out rounds to the interest on it |
| Loans.NothingButBalloon | src/bookflow/company/loans.py:249-252 | So it always is once no more than the balloon is owed over several payments |
| Loans.GivenRefusedExactly | src/bookflow/company/loans.py:240-256 | A payment given is refused if and only if it is nothing, or the loan cannot be drawn up with it |
| Loans.Loan.Pay | src/bookflow/company/loans.py:270-318 | One payment refuses in the program's order or appends the payment that was due with its extra principal |
| Loans.Loan.Update | src/bookflow/company/loans.py:217-256 | A change of rate, payment or both refuses in the program's order, or works the payment out where none is given and changes just those terms |
| Loans.Loan.VoidPayment | src/bookflow/company/loans.py:86-95 | Voiding one standing payment makes its principal owed again |
| Memberships.RunOneRow | src/bookflow/commands/host_cmds.py:745-769 | Over any run there is one row for each person and scope |
| Memberships.VersionCounts | src/bookflow/commands/host_cmds.py:745-769 | A row's version counts the steps that changed it and nothing else |
| Memberships.RepeatChangesNothing | src/bookflow/commands/host_cmds.py:1011-1104 | Any command done twice in a row is done once |
| Memberships.GrantAcceptedExactly | src/bookflow/commands/host_cmds.py:918-952 | A grant is accepted if and only if a human who may move both the role and the active one it replaces names a known person at the version read |
| Memberships.RevokeAcceptedExactly | src/bookflow/commands/host_cmds.py:1039-1057 | A revocation is accepted if and only if a human who may move the stored role names a known person with a row there at the version read |
| Memberships.RefusedInOrder | src/bookflow/commands/host_cmds.py:918-952 | The first of the refusals that apply is given: an agent, authority over the scope, the person, the row, authority over its role, the version |
| Memberships.GrantGives | src/bookflow/commands/host_cmds.py:745-769 | An accepted grant leaves the person an active row at the scope with exactly the role asked for, and every other row as it was |
| Memberships.RevokeTakes | src/bookflow/commands/host_cmds.py:1080-1104 | An accepted revocation leaves the person's row at the scope inactive with its role, and every other row as it was |
| Memberships.LastCommandStands | src/bookflow/commands/host_cmds.py:745-769 | Over any run a row's role and activity are those of the last accepted command about it |
| Memberships.GrantedAuthority | src/bookflow/commands/host_cmds.py:745-769 | After a grant the person's authority at the scope is at least the role's |
| Memberships.RevokedAuthority | src/bookflow/commands/host_cmds.py:1080-1104 | After a revocation any authority the person still has there rests on an active row at the organization covering the scope |
| Memberships.AuthorityExactly | src/bookflow/hub/access.py:46-55 | Authority of a rank is an active row of that rank at the scope or its organization |
| Memberships.MayMoveExactly | src/bookflow/hub/access.py:46-55 | A role may be moved by the shortcut, by an active owner of the scope or its organization, or by an active administrator of either unless the role is ownership |
| Memberships.ChangedByAuthority | src/bookflow/commands/host_cmds.py:918-931 | Without the shortcut only an administrator of the scope changes a row, and only an owner makes or unmakes an active owner row |
| Memberships.RunNoOwner | src/bookflow/commands/host_cmds.py:683-715 | Where nobody is an owner no run without the shortcut makes one |
| Memberships.RunFrozen | src/bookflow/commands/host_cmds.py:697-715 | Where nobody administers, no run without the shortcut changes who holds anything there |
| Memberships.OrganizationReach | src/bookflow/commands/host_cmds.py:1192-1205 | An organization's reach is its own rows and whatever reaches one of its companies |
| Memberships.CompanyReachIsAccess | src/bookflow/commands/host_cmds.py:1192-1205 | A company's listing names exactly those who hold a role there |
| Memberships.VisibleAreListed | src/bookflow/commands/host_cmds.py:1208-1231 | Whoever is listed may be named; whoever may be named is listed, except without an active account, as the caller's own name, or where no name is restricted |
| Memberships.ShownExactly | src/bookflow/commands/host_cmds.py:1178-1220 | A listing shows exactly the active rows of active accounts its caller may be shown: of a scope named, those reaching it, everyone's to its administrators and one's own to others; of everything, one's own and those around each scope one administers |
| Memberships.MembershipTable.GrantAccess | src/bookflow/commands/host_cmds.py:918-957 | A grant refuses in the program's order or writes the one row it specifies |
| Memberships.MembershipTable.RevokeAccess | src/bookflow/commands/host_cmds.py:1039-1104 | A revocation refuses in the program's order or retires the one row it specifies |
| CustomFields.ReplayExactly | src/bookflow/commands/custom_field_cmds.py:171-219 | On any database the captured ids reach the planned result if and only if the change asks there as it did on the copy and ends alike |
| CustomFields.ReplayReaches | src/bookflow/commands/custom_field_cmds.py:171-219 | On a database equal to the copy the replay reaches the planned result with every captured id drawn once, in order, and with fewer it cannot finish |
| CustomFields.PassesAreLexicographic | src/bookflow/commands/custom_field_cmds.py:354-355 | Stable passes from the last term to the first are one sort by all the terms with ties in id order, and a permutation |
| CustomFields.OneListing | src/bookflow/commands/custom_field_cmds.py:354-355 | That arrangement is the only one in that order |
| CustomFields.LexicographicMeans | src/bookflow/commands/custom_field_cmds.py:354-356 | Of two rows the one first is decided at the first term where their ranks differ, the smaller first when it ascends and the larger when it descends, and otherwise by id |
| CustomFields.RankIs | src/bookflow/commands/custom_field_cmds.py:350-353 | The rank of activity is one for an active definition and nought for a retired one, and of any other field the one stored |
| CustomFields.WantedExactly | src/bookflow/commands/custom_field_cmds.py:333-348 | A definition is kept if and only if it is active unless inactive ones or activity were asked for, has every target and value asked for, and matches the query |
| CustomFields.PlanList | src/bookflow/commands/custom_field_cmds.py:324-357 | The listing holds exactly the definitions wanted, each before those it precedes in ranks, by direction, and ids |
| Sorting.StablePass | src/bookflow/commands/custom_field_cmds.py:354-355 | A stable pass over an ordered list orders it by the pass first and the old order next |

## Left out

- CompanyUpdate: the report on a blind write (who wrote last, how long ago), the display-name copy, register set-up and the `updated_*` columns are bookkeeping beside the merge rule; validation is an uninterpreted predicate.
- AgentAuthority: how the permission policy derives role thresholds and admissions from memberships is not modelled; each user carries the two sets of facts it yields, and their changes are an edit of their own.
- AgentAuthority: an agent acting as administrator under granted capabilities, catalog replacement and the generation counter are not modelled.
- AgentAuthority.AuthorityStore: membership edits and token revocation have no method of their own; they are steps of the run.
- OrganizationFolders: case-only renames through a temporary name, company folders inside the organization's, memberships deleted with the rows and row versions are not modelled.
- OrganizationFolders: what the new demo's seeding does after its rows exist is not modelled; nor is emptying the trash by hand.
- Attachments: record resolution, import-kind permission, transfer leases, orphan scan cookies, temporary files and the byte limits are not modelled; which eligible bodies a collection picks, and in what order, is left open, so the results hold for every choice.
- Attachments: which items are merged into one, and which of several candidates is the newest, are left open; whether the item is known, whether a file's bytes are an image of an allowed size, and whether the item's version and merges let it change are parameters of the item picture commands, as is the picture shown when none was chosen; the layout's own version and image checks of group pictures are left out.
- Attachments: group pictures and the start of a collection are steps of the run without a method of their own.
- Activity: the JSON text of an item's other fields is a byte count; time zones, name lookup, `since` and `until` are part of the wanted predicate.
- AuditFeed: visibility and filters are predicates fixed during a walk; entry details and redaction are not modelled. On the hub's plain tail the default start is the newest event of all rather than the newest visible one its description names; both start the same deliveries.
- Json: negative numbers, fractions and exponents, and payloads outside ASCII or in UTF-16 or UTF-32, are refused by the model's reader where the program may parse them and refuse or accept them later.
- Cursors: pydantic's treatment of surrogates in length-limited strings is taken as a field limit.
- Listings: the table is taken as unchanged between pages, and keys as stored text in some strict order.
- Depreciation: dates are month numbers; posting journals, disposal and stopped periods are not modelled.
- Loans: due dates, escrow, names, accounts and the check or card charge a payment writes are not modelled; nothing is said of the last payment a once-rounded level payment leaves.
- LevelPayments.LevelPaymentSettles: speaks of the payment before rounding, because the rounded one need not cover interest; Loans.LevelRefusedExactly says when it does not.
- Memberships: scope resolution by name, organizations no longer registered, the external-accountant guard and the path after permission activation are not modelled.
- CustomFields: the planning copy of the database, and fields holding no value, are not modelled.
- Integer width: amounts, versions and sequence numbers are unbounded where the program checks 64-bit range.
- Concurrency: commands are serialized by the data root's lock and planned under it, so interleavings inside one command are not modelled.
- Bind addresses and their codec, session and password handling, delivery, imports, reports and POS are not modelled.
