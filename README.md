# Secret Santa bot: a verified model

This project models the core of a Telegram "Secret Santa" bot written in
Python on Django. It covers:

- the four database models: Telegram users, groups, participants and draws;
- the conversation handlers of `bot/bot_handler.py`:
  - creating a group, joining by typed code or by a forwarded invite, and leaving;
  - setting one's name, and sending a gift to the bot;
  - the draw, and the distribution of gifts;
  - force-closing a group, and deleting closed groups;
- the two management commands:
  - `close_all_groups`, which closes every open group and notifies its participants;
  - `toggle_debug`, which rewrites `DEBUG` and `CSRF_TRUSTED_ORIGINS` in the text of `settings.py`.

Layout, one module per file:

| file | module | what it holds |
|---|---|---|
| `text.dfy` | `Text` | `str.strip`, `lower`, `upper`, `find`, `int()` and `str()` on `seq<char>` |
| `domain.dfy` | `Domain` | the rows of `bot/models.py`, `save()`, `can_draw`, `generate_code` |
| `store.dfy` | `Store` | the four tables as maps keyed by primary key, their constraints, queries, creation, updates and cascade deletes |
| `session.dfy` | `Session` | the shared `context.user_data`, and the steps that need no database |
| `gift.dfy` | `Gift` | how a photo, caption or text changes a stored gift |
| `invite.dfy` | `Invite` | the invite message, code extraction from a forwarded invite, command hints |
| `assignment.dfy` | `Assignment` | the shuffle-and-check retry loop of the draw |
| `join_flow.dfy` | `JoinFlow` | create-group start and finish, join, forwarded invite, leave |
| `gift_flow.dfy` | `GiftFlow` | set-name and send-gift conversations |
| `draw_flow.dfy` | `DrawFlow` | draw and distribute |
| `close_flow.dfy` | `CloseFlow` | force-close conversation |
| `delete_flow.dfy` | `DeleteFlow` | delete-group conversation |
| `close_all.dfy` | `CloseAll` | the `close_all_groups` command |
| `toggle_debug.dfy` | `ToggleDebug` | the `toggle_debug` command |
| `bot.dfy` | `Bot` | class `Database`, whose methods apply each handler to the stored tables in place |

Each handler that reads or writes the database is first a function from the
tables, called `Tables`, to an `Effect`. An `Effect` holds the new tables
and what the handler reports.

Lemmas prove about those functions:

- that the constraints of the models are kept (`TablesOk`);
- what the handler writes;
- when each branch is taken.

The class `Bot.Database` holds the tables as fields. Its methods perform the
same steps imperatively, including the handlers' loops. Each method is proved
to leave exactly the state the function describes, and to keep `Valid()`.

Conventions:

- Queries without `order_by` are read in primary-key order.
- Keys are handed out by counters, so `-created_at` is the reverse of key order.
- An exception that the handler does not catch is the outcome `Crashed`. python-telegram-bot logs it and the conversation stays where it was.
- Python's `if key:` on a stored id is `IdGiven`, which is false for a missing key and for 0.

## Model

| member | source | states |
|---|---|---|
| Text.Strip | bot/bot_handler.py:146 | the result is the input with only white space dropped from each end, and it neither starts nor ends with white space |
| Text.StripNoSpace | bot/bot_handler.py:330 | a string without white space is its own strip |
| Text.Lower | bot/bot_handler.py:173 | each character is mapped by lower(); the length is kept |
| Text.Upper | bot/bot_handler.py:330 | each character is mapped by upper(); the length is kept |
| Text.UpperHasNoAsciiLower | bot/models.py:61 | an upper-cased string has no ASCII lower-case letter |
| Text.Find | bot/bot_handler.py:1072-1073 | str.find: the first occurrence at or after `from`, None exactly when there is none |
| Text.FindFirst | bot/bot_handler.py:1072-1073 | an occurrence with none before it is what find returns |
| Text.NatToString | bot/bot_handler.py:556 | str(n) is a non-empty string of decimal digits |
| Text.DigitsOfNatToString | bot/bot_handler.py:556 | the digits of str(n) have value n |
| Text.ParseIntOfNatToString | bot/bot_handler.py:567 | int(text.strip()) reads back the number a list shows |
| Domain.CanDraw | bot/models.py:69-71 | a draw is allowed exactly for an active group with at least two participants |
| Domain.Save | bot/models.py:73-79 | a missing close date becomes the day after distribution; is_closed equals status == closed; nothing else changes |
| Domain.SaveIdempotent | bot/models.py:73-79 | saving twice is saving once |
| Domain.SavedIsFixed | bot/models.py:73-79 | a saved group is unchanged by save |
| Domain.DefaultName | bot/bot_handler.py:277 | a non-empty first name, else a non-empty username, else "Участник " followed by the Telegram id in decimal; never empty |
| Domain.CodeOf | bot/models.py:61 | a candidate code has at most 8 characters and no ASCII lower-case letter |
| Domain.GenerateCode | bot/models.py:57-63 | the code returned is the first candidate not in use; every earlier candidate was taken |
| Store.LookupFinds | bot/models.py:9 | in a consistent state the lookup by Telegram id finds the one user with that id |
| Store.GroupByCodeFinds | bot/models.py:33 | in a consistent state a code finds the one group carrying it |
| Store.OwnedGroup | bot/bot_handler.py:127 | a group the user owns with a status in the set, and no owned group with a smaller key has such a status |
| Store.OwnedGroupNone | bot/bot_handler.py:127 | nothing is found exactly when every owned group has a status outside the set |
| Store.OwnedGroupFirst | bot/bot_handler.py:127 | under the constraints, the group found is the first, by key, that the Telegram user owns with a status in the set |
| Store.WithUserOk | bot/bot_handler.py:115-124 | get_or_create keeps the constraints, keeps a stored user and touches no other table |
| Store.TouchOk | bot/bot_handler.py:52-64 | /start keeps the constraints, leaves exactly one row for the sender's Telegram id holding the sender's username and first name (created or overwritten), keeps every other user row and touches no other table |
| Store.WithParticipantOk | bot/bot_handler.py:366-371 | adding a participation the user did not have keeps the constraints, under the next key |
| Store.WithGroupOk | bot/bot_handler.py:264-282 | a new group with a fresh code and its owner's participation keep the constraints |
| Store.OwnerIsOnlyMember | bot/bot_handler.py:276-282 | the owner is the only participant of the group just created |
| Store.SetPartOk | bot/bot_handler.py:607-609 | saving a participant keeps the constraints |
| Store.SetGroupOk | bot/bot_handler.py:697-699 | saving a group keeps the constraints unless it would reopen a group that has draws |
| Store.RemovePartOk | bot/models.py:84-95 | deleting a participation removes every draw that names it and leaves the other rows unchanged |
| Store.RemoveGroupOk | bot/models.py:84-130 | deleting a group removes its participants and their draws by cascade; other groups stay |
| Store.KeysWhereDistinct | bot/bot_handler.py:660 | the keys a query lists are distinct |
| Store.DistinctPermutation | bot/bot_handler.py:664-665 | a reordering of a list without repetition has none |
| Store.WithDrawsOk | bot/bot_handler.py:683-699 | drawing an active group over its members keeps the constraints, with one draw per (group, giver) |
| Store.DrawPairsEveryMember | bot/bot_handler.py:683-691 | every member gives exactly once and receives exactly once |
| Store.WithStatus | bot/bot_handler.py:1623-1624 | a status change keeps owner, code, name, drawn_at and the distribution date; save() keeps a set close date and fills a missing one with the day after distribution |
| Store.SenderKeyUnique | bot/bot_handler.py:115-124 | a stored user is the sender exactly when its key is the one get_or_create returns |
| Store.LookupKeyUnique | bot/bot_handler.py:1245-1246 | a stored user is the registered sender exactly when its key is the one the lookup returns |
| Store.HoldingsOfUser | bot/bot_handler.py:528-533 | the filter on the looked-up user lists exactly that Telegram user's participations |
| Store.UnregisteredHoldsNothing | bot/bot_handler.py:521-525 | an unknown Telegram user holds no participation |
| Session.CreateName | bot/bot_handler.py:144-156 | a stripped name of at most 200 characters is stored and the description is asked for; a longer one re-prompts |
| Session.CreateDescription | bot/bot_handler.py:159-168 | the stripped text is stored and the yes/no question follows |
| Session.YesNo | bot/bot_handler.py:173-181 | the yes words give true, the no words false, anything else nothing |
| Session.CreateGiftViaBot | bot/bot_handler.py:171-188 | a recognised answer is stored and the draw date is asked for; otherwise the step re-prompts |
| Session.CreateDrawDate | bot/bot_handler.py:191-206 | a parsed date is stored; an unparsable one re-prompts |
| Session.CreateDistributionDate | bot/bot_handler.py:209-230 | a date after the draw date is stored; an earlier one re-prompts; a missing draw date crashes |
| Session.CloseDateStep | bot/bot_handler.py:251-274 | creates exactly for a skip word or a date after distribution with every key present; re-asks exactly for an unparsable date or one not after distribution; a missing key crashes, exactly in the remaining cases |
| Session.CreateFlowIsLinear | bot/bot_handler.py:144-261 | each data-entry step stays or moves exactly one step forward |
| Session.CreateFlowCompletes | bot/bot_handler.py:144-274 | answering every question in order creates a group from exactly those answers |
| Session.SelectEntry | bot/bot_handler.py:566-583 | a number is parsed first, then the stored list is required, then the range 1..len |
| Session.SetNameSelect | bot/bot_handler.py:564-594 | the chosen entry's key is stored and the list removed; a 2-tuple entry crashes |
| Session.SendGiftSelect | bot/bot_handler.py:817-841 | the chosen entry's key is stored and the list removed; a 3-tuple entry crashes |
| Session.SelectByShownNumber | bot/bot_handler.py:555-587 | typing the number shown next to the k-th entry selects that entry |
| Session.ForeignSnapshotCrashes | bot/bot_handler.py:586 | a list stored by the other flow crashes the selection |
| Session.SetNameInput | bot/bot_handler.py:599-606 | a name over 200 characters re-prompts; otherwise the stored key is used when given |
| Session.CloseNotice | bot/bot_handler.py:1315-1331 | a skip word gives the default notice; otherwise text over 1000 characters is refused |
| Session.OwnerCheckIsOwnership | bot/bot_handler.py:1310 | the corrected owner test holds exactly when the owner's Telegram id is the sender's |
| Session.OwnerCheckAsWrittenRejectsOwner | bot/bot_handler.py:1310 | for any group and its real owner, the test as written passes exactly when the owner's key equals their Telegram id, so it rejects every owner whose key differs |
| Session.DeleteCommandOf | bot/bot_handler.py:1437-1492 | the input is read in the handler's order: no list, all, cancel, not a number, out of range, an entry |
| Gift.ApplyGift | bot/bot_handler.py:883-921 | the exact conditions for each refusal; an accepted gift has content and keeps the photo rule |
| Gift.Checked | bot/bot_handler.py:918-921 | the gift is accepted exactly when it has text or a photo |
| Gift.PhotoWithCaption | bot/bot_handler.py:889-899 | a photo with a short caption stores both |
| Gift.PhotoKeepsText | bot/bot_handler.py:900-902 | a photo without caption keeps the stored text |
| Gift.TextDropsPhoto | bot/bot_handler.py:905-913 | a text-only gift replaces the text and drops the photo |
| Gift.BlankTextWithoutPhoto | bot/bot_handler.py:905-921 | white space alone without a stored photo is refused |
| Gift.TextThenPhoto | bot/bot_handler.py:883-924 | a text and then a photo end with both stored |
| Gift.PhotoThenText | bot/bot_handler.py:883-924 | a photo and then a text end with the text only |
| Assignment.ShuffledPermutes | bot/bot_handler.py:664-680 | the reshuffled list is a permutation of the participants |
| Assignment.FirstValid | bot/bot_handler.py:668-681 | the first checked shuffle without a self-pair, or 100 when every check failed |
| Assignment.Assigned | bot/bot_handler.py:660-681 | the receivers are a permutation; without self-pairs when a check passed |
| Assignment.CheckAssignment | bot/bot_handler.py:671-675 | the check passes exactly when nobody is paired with themselves |
| Assignment.Assign | bot/bot_handler.py:664-681 | 1..100 checks; valid exactly when a checked shuffle passed; the receivers equal Assigned |
| Assignment.TwoPeopleSwap | bot/bot_handler.py:664-681 | with two people a passing assignment is the swap |
| Assignment.ExhaustionKeepsSelfPairs | bot/bot_handler.py:668-681 | a shuffle that never moves anybody leaves self-pairs after 100 attempts |
| Invite.InviteMessage | bot/bot_handler.py:954-965 | the invite ends with the marker line carrying the group's code |
| Invite.TypedCode | bot/bot_handler.py:330 | the typed code is the text stripped and upper-cased |
| Invite.ForwardedText | bot/bot_handler.py:1064 | the text, else the caption, else "" |
| Invite.ExtractCode | bot/bot_handler.py:1067-1076 | None without the marker; else the text after the first marker to the line end, stripped and upper-cased |
| Invite.ForwardedInviteYieldsCode | bot/bot_handler.py:1067-1076 | extracting from an invite as a recipient sees it returns the group's code |
| Invite.ForwardedInviteText | bot/bot_handler.py:1064-1076 | a forwarded invite as plain text yields the group's code |
| Invite.CommandHints | bot/bot_handler.py:13-20 | the loop builds the header and one bullet per command; empty without commands |
| Invite.HintsListEveryCommand | bot/bot_handler.py:13-20 | every command appears as its own bullet line |
| JoinFlow.CreateGroupStartOk | bot/bot_handler.py:111-141 | the start registers the sender and writes nothing else |
| JoinFlow.CreateGroupStartAsksName | bot/bot_handler.py:126-141 | the name is asked for exactly when no group the sender owns is open |
| JoinFlow.CreateGroupFinishOk | bot/bot_handler.py:233-310 | with a free code the constraints hold; the flow ends exactly when the answers are complete |
| JoinFlow.CreateGroupFinishCreates | bot/bot_handler.py:263-310 | one new active group owned by the sender with that code, the sender its only participant; earlier groups untouched |
| JoinFlow.MembershipIsMember | bot/bot_handler.py:359 | the exists() query asks exactly whether the sender takes part |
| JoinFlow.JoinOk | bot/bot_handler.py:328-381 | joining keeps the constraints; only a join writes a participation, the sender's, with the default name |
| JoinFlow.JoinDecides | bot/bot_handler.py:345-371 | unknown code, a group not accepting members, already a member, or joined, each exactly when it holds |
| JoinFlow.JoinGroupCode | bot/bot_handler.py:328-381 | joining with the typed, stripped, upper-cased code |
| JoinFlow.TypedPlainCode | bot/bot_handler.py:330 | typing a generated code as it is finds that code |
| JoinFlow.HandleForwarded | bot/bot_handler.py:1058-1129 | without the marker nothing is written; otherwise the extracted code is joined |
| JoinFlow.ForwardedCodeJoins | bot/bot_handler.py:1067-1129 | a forwarded text carrying a code does what joining with that code does |
| JoinFlow.ForwardedInviteJoins | bot/bot_handler.py:954-965 | forwarding a group's invite joins that group |
| JoinFlow.LeaveGroup | bot/bot_handler.py:390-430 | unregistered, no open group, owner refused, left, or several listed |
| JoinFlow.LeaveGroupOk | bot/bot_handler.py:407-421 | it leaves or refuses the owner exactly when the sender has one open participation; it lists when there are two or more; only that participation goes, with its draws, and only when they do not own the group |
| JoinFlow.OpenHoldingsListed | bot/bot_handler.py:399 | the query lists exactly the open participations of the registered sender |
| JoinFlow.LeaveGroupWrites | bot/bot_handler.py:390-421 | an unregistered sender is told so; the owner of the open group is refused; otherwise exactly their one open participation goes with the draws that name it, and every other row stays |
| JoinFlow.LeaveGroupCounts | bot/bot_handler.py:399-430 | left or owner refused exactly with one open participation; not in an open group exactly with none; several exactly with two or more |
| GiftFlow.SetNameStartEnds | bot/bot_handler.py:517-541 | the start ends exactly when the sender holds nothing in an active group |
| GiftFlow.SetNameStartSingle | bot/bot_handler.py:543-552 | with one such participation its key is stored and the name asked for |
| GiftFlow.SetNameStartLists | bot/bot_handler.py:554-561 | with several, all are listed in key order with their names |
| GiftFlow.SetNameOk | bot/bot_handler.py:597-619 | renaming keeps the constraints and touches only the participants, keeping their keys |
| GiftFlow.SetNameWrites | bot/bot_handler.py:597-619 | a long name re-prompts; a missing row crashes; else only the stored participation gets the stripped name |
| GiftFlow.SetNameByNumber | bot/bot_handler.py:555-609 | typing the k-th number renames exactly that participation, the sender's own |
| GiftFlow.SetNameChosen | bot/bot_handler.py:564-609 | selecting an entry and typing a name renames that entry's participation |
| GiftFlow.DrawnHoldings | bot/bot_handler.py:753-769 | the list kept is the sender's participations in drawn gift-via-bot groups, in key order |
| GiftFlow.SendGiftStartEnds | bot/bot_handler.py:741-775 | the start ends exactly when the sender holds nothing in a drawn gift-via-bot group |
| GiftFlow.SendGiftStartSingle | bot/bot_handler.py:777-805 | with one such participation its key is stored and the gift asked for |
| GiftFlow.SendGiftStartLists | bot/bot_handler.py:807-814 | with several, all are listed in key order |
| GiftFlow.SendGiftSelectGroup | bot/bot_handler.py:817-870 | the selection, then the lookup that crashes on a missing row |
| GiftFlow.SendGiftOk | bot/bot_handler.py:873-924 | only the stored participation is written, with an accepted gift and gift_sent set; a refusal writes nothing |
| GiftFlow.SendGiftByNumber | bot/bot_handler.py:808-924 | typing the k-th number and an acceptable gift stores it on exactly that participation |
| GiftFlow.SendGiftChosen | bot/bot_handler.py:817-924 | selecting an entry and sending a gift stores it on that entry's participation |
| DrawFlow.DrawTargetOf | bot/bot_handler.py:629-660 | the guards: a registered sender, an active own group, can_draw |
| DrawFlow.DrawTargetDecides | bot/bot_handler.py:640-660 | the draw goes ahead exactly when the first active group, by key, that the sender owns has two or more participants, listing exactly them |
| DrawFlow.DrawGroupOk | bot/bot_handler.py:629-699 | a draw keeps the constraints |
| DrawFlow.DrawGroupWrites | bot/bot_handler.py:683-699 | the group is marked drawn at `now`; no user, participant, other group or earlier draw changes |
| DrawFlow.ReadyToDrawActive | bot/bot_handler.py:640 | the drawn group was active |
| DrawFlow.NewDrawsOnly | bot/bot_handler.py:683-694 | the group's draws afterwards are exactly the new rows |
| DrawFlow.DrawGroupGivers | bot/bot_handler.py:683-691 | every participant of the group gives exactly once, nobody outside does |
| DrawFlow.DrawGroupReceivers | bot/bot_handler.py:664-691 | every participant receives exactly once, nobody outside does |
| DrawFlow.DrawGroupNoSelfGift | bot/bot_handler.py:667-691 | when a checked shuffle passed, nobody gives to themselves |
| DrawFlow.DistributeTargetOf | bot/bot_handler.py:1540-1571 | the guards: a registered sender, a drawn own group, some draws |
| DrawFlow.DistributeTargetDecides | bot/bot_handler.py:1551-1571 | distribution runs exactly when the first drawn group, by key, that the sender owns has draws, over exactly its draws |
| DrawFlow.Distributed | bot/bot_handler.py:1622-1630 | the group is saved as distribution, keeping owner, code, name and gift settings |
| DrawFlow.DistributedStatus | bot/bot_handler.py:1626-1630 | closed exactly when the close date has come, else distribution |
| DrawFlow.GiftDelivery | bot/bot_handler.py:1580-1617 | the photo with caption, the text, or the placeholder when there is no gift or no gift-via-bot |
| DrawFlow.ParcelOf | bot/bot_handler.py:1575-1618 | a parcel goes to the receiver's chat with the giver's gift; under the constraints every draw has one (DistributeParcels), so the broken rows that would crash the handler's own error report do not occur |
| DrawFlow.CountSent | bot/bot_handler.py:1574-1618 | sent_count is at most the number of draws |
| DrawFlow.AllSentWhenDelivered | bot/bot_handler.py:1574-1618 | with every send delivered, every draw counts |
| DrawFlow.NoneSentWhenUnreachable | bot/bot_handler.py:1574-1621 | with no send delivered, nothing counts |
| DrawFlow.Distribute | bot/bot_handler.py:1540-1630 | a refused distribution writes nothing; sent is at most the draws |
| DrawFlow.DistributeOk | bot/bot_handler.py:1540-1630 | the constraints hold; only the group's status changes, to closed exactly when its date has come |
| DrawFlow.DistributeParcels | bot/bot_handler.py:1574-1618 | every draw yields a parcel to its receiver carrying its giver's gift |
| DrawFlow.StoredGiftDelivered | bot/bot_handler.py:1580-1606 | a gift saved by send_gift reaches the receiver as saved |
| CloseFlow.CloseGroupStartOffers | bot/bot_handler.py:1241-1288 | a group is offered exactly when the sender owns an open one, and it is the first such group by key |
| CloseFlow.SenderOwnsIsOwnership | bot/bot_handler.py:1309-1313 | the corrected owner test (owner key against the sender's own key), not the written one at line 1310, holds exactly when the sender owns the group |
| CloseFlow.OwnerPassesMeans | bot/bot_handler.py:1310 | the written test passes exactly when the owner key equals the Telegram id; the intended one exactly for the owner |
| CloseFlow.CloseDecisionDecides | bot/bot_handler.py:1295-1331 | missing key, vanished group, failed owner test (line 1310), long notice and close, each exactly when it holds; under the intended test the owner test is ownership |
| CloseFlow.NotifiedCount | bot/bot_handler.py:1338-1347 | notified_count is at most the number of participants |
| CloseFlow.AllNotifiedWhenReachable | bot/bot_handler.py:1338-1347 | with every chat reachable, every participant is notified |
| CloseFlow.ClosedRow | bot/bot_handler.py:1350-1352 | the group is saved closed with is_closed set; owner, code and name kept |
| CloseFlow.CloseGroupMessage | bot/bot_handler.py:1291-1361 | its decision is CloseDecisionOf under the given owner test; every outcome but closing writes nothing and notifies nobody |
| CloseFlow.CloseGroupMessageOk | bot/bot_handler.py:1291-1361 | the constraints hold; only the group is written, closed; the reply is re-ask or ended and cleared |
| CloseFlow.CloseRefusesOwnerAsWritten | bot/bot_handler.py:1309-1313 | with the written test, an owner whose key is not their Telegram id is refused: nothing written, nobody notified, the accumulator cleared |
| DeleteFlow.Reversed | bot/bot_handler.py:1383 | order_by('-created_at') lists the same rows back to front |
| DeleteFlow.ClosedGroupList | bot/bot_handler.py:1381-1395 | every listed group exists |
| DeleteFlow.ClosedGroupListCovers | bot/bot_handler.py:1381-1395 | every closed group the sender owns or joined is listed, and nothing else |
| DeleteFlow.ClosedGroupListDistinct | bot/bot_handler.py:1381-1395 | no group is listed twice |
| DeleteFlow.ClosedGroupListOrder | bot/bot_handler.py:1382-1395 | the owned groups come first, newest first |
| DeleteFlow.DeleteGroupStartOffers | bot/bot_handler.py:1371-1402 | the start ends exactly when there is nothing to delete; otherwise only closed_groups is set |
| DeleteFlow.DeleteGroupStartLists | bot/bot_handler.py:1404-1413 | each group listed once with its name and code; is_owner exactly for owned ones |
| DeleteFlow.DeleteEntryDecides | bot/bot_handler.py:1497-1527 | group gone; deleted exactly when the owner test of line 1501 passes; else the participation removed when the sender has one, not found otherwise |
| DeleteFlow.DeleteEntryOwnerAsWritten | bot/bot_handler.py:1497-1516 | with the written test, an owner whose key is not their Telegram id keeps the group; only their participation goes, if any |
| DeleteFlow.GroupDeletedOk | bot/bot_handler.py:1501-1504 | deleting an owned group only removes rows, that group among them |
| DeleteFlow.LeftGroupOk | bot/bot_handler.py:1510-1516 | after leaving, the sender has no participation left in the group |
| DeleteFlow.DeleteEntryOk | bot/bot_handler.py:1449-1465 | under either owner test, one entry keeps the constraints, only removes rows and leaves the sender no participation in the group |
| DeleteFlow.DeleteEachOk | bot/bot_handler.py:1446-1471 | under either owner test, "all" keeps the constraints, only removes rows and leaves no participation in any listed group |
| DeleteFlow.DeleteEachCounts | bot/bot_handler.py:1446-1465 | over removable groups (owner test passed, or a participation) each listed once, deleted_count is the list length; other groups stay removable |
| DeleteFlow.DeleteEachMisses | bot/bot_handler.py:1446-1465 | a listed group that is not removable is not counted, so deleted_count falls short of the list length |
| DeleteFlow.DeleteEachComplete | bot/bot_handler.py:1446-1471 | deleted_count equals the list length exactly when every listed group is removable |
| DeleteFlow.DeleteAllAfterStart | bot/bot_handler.py:1405-1465 | right after the listing, "all" counts every group exactly when each is removable: always under the intended test; under the written one exactly when each group's owner key is the Telegram id or the sender takes part |
| DeleteFlow.EntriesListed | bot/bot_handler.py:1404-1413 | the stored list holds each closed group of the sender once, with its name and code, is_owner exactly for the owner |
| DeleteFlow.RemovableAsWritten | bot/bot_handler.py:1501-1527 | under the test as written a group goes when its owner key equals the Telegram id or the sender takes part |
| DeleteFlow.DeleteGroupSelectionOk | bot/bot_handler.py:1435-1530 | re-asks exactly for unreadable input; else ends cleared; only "all" and a number write, leaving the sender no participation in those groups |
| CloseAll.ClosedGroups | bot/management/commands/close_all_groups.py:40-49 | closing a list of groups keeps the set of keys |
| CloseAll.Sweep | bot/management/commands/close_all_groups.py:12-69 | nothing is written unless groups were swept |
| CloseAll.SweepDecides | bot/management/commands/close_all_groups.py:16-34 | nothing to close exactly when no group is open; no token exactly when some is open and the token is missing |
| CloseAll.ClosedGroupsRows | bot/management/commands/close_all_groups.py:40-49 | each listed group is closed as loaded; every other row is unchanged |
| CloseAll.SweepCloses | bot/management/commands/close_all_groups.py:40-49 | every open group is closed keeping name, code and owner; others and other tables unchanged; the constraints hold |
| CloseAll.SweepNotifiesAll | bot/management/commands/close_all_groups.py:40-64 | every participant of every open group is sent a notice |
| CloseAll.SweepIgnoresFailures | bot/management/commands/close_all_groups.py:54-69 | failed sends change neither the rows written nor the notices attempted |
| CloseAll.AllDelivered | bot/management/commands/close_all_groups.py:54-65 | with every chat reachable, every notice is delivered |
| ToggleDebug.FirstWhereIs | bot/management/commands/toggle_debug.py:46 | the scan finds the first position where the pattern matches |
| ToggleDebug.CurrentDebug | bot/management/commands/toggle_debug.py:46-49 | the value of the first DEBUG line, None without one |
| ToggleDebug.NewDebug | bot/management/commands/toggle_debug.py:71-77 | --on gives True, --off False, otherwise the opposite of the current value (False without one) |
| ToggleDebug.ReplaceReadsBack | bot/management/commands/toggle_debug.py:80-87 | after re.sub the first DEBUG line holds the new value |
| ToggleDebug.InsertPosAsWritten | bot/management/commands/toggle_debug.py:92 | the written insertion point, -1 read as one before the end |
| ToggleDebug.InsertPos | bot/management/commands/toggle_debug.py:92 | the end of the SECRET_KEY line, or the end of the text |
| ToggleDebug.LastLineKeyIsSplit | bot/management/commands/toggle_debug.py:90-98 | with no newline after SECRET_KEY the written point cuts the line |
| ToggleDebug.LastLineKeyIsKept | bot/management/commands/toggle_debug.py:90-98 | with the intended point the SECRET_KEY line stays whole |
| ToggleDebug.InsertKeepsText | bot/management/commands/toggle_debug.py:93-98 | the insertion keeps the text around the block unchanged |
| ToggleDebug.InsertReadsBack | bot/management/commands/toggle_debug.py:89-98 | after the insertion the first DEBUG line holds the new value |
| ToggleDebug.WithDebug | bot/management/commands/toggle_debug.py:79-103 | as written (str.find point): nothing is written exactly when there is neither a DEBUG nor a SECRET_KEY line; an existing DEBUG line is replaced by re.sub |
| ToggleDebug.WithDebugReadsBack | bot/management/commands/toggle_debug.py:79-103 | whenever the step writes, the file reads back the new value |
| ToggleDebug.WithDebugIntended | bot/management/commands/toggle_debug.py:79-103 | with the intended point: nothing is written exactly when there is neither a DEBUG nor a SECRET_KEY line |
| ToggleDebug.WithDebugIntendedReadsBack | bot/management/commands/toggle_debug.py:89-98 | the intended step reads back the new value, and an insertion puts the block at a line end with the original text around it |
| ToggleDebug.FirstAllowedHosts | bot/management/commands/toggle_debug.py:111 | the first ALLOWED_HOSTS list and the end of its "]" |
| ToggleDebug.BuildOrigins | bot/management/commands/toggle_debug.py:117-125 | the loop builds exactly the list of origins |
| ToggleDebug.OriginsCoverHosts | bot/management/commands/toggle_debug.py:118-125 | each non-local host gets its https origin, and its www origin without "www."; the local ones end the list |
| ToggleDebug.OriginsComeFromHosts | bot/management/commands/toggle_debug.py:115-125 | every origin comes from a host or is a local one |
| ToggleDebug.WithCsrf | bot/management/commands/toggle_debug.py:105-135 | the line is added exactly when DEBUG goes off, no CSRF line exists and ALLOWED_HOSTS is found, right after it, holding str() of exactly the origins built from the hosts |
| ToggleDebug.HexDigit | bot/management/commands/toggle_debug.py:128 | the hex digit written for a value below 16 reads back as that value |
| ToggleDebug.ReprChar | bot/management/commands/toggle_debug.py:128 | a backslash, the quote and the characters below U+0100 that are not printable are escaped, and nothing else; no newline is written |
| ToggleDebug.Repr | bot/management/commands/toggle_debug.py:128 | repr() of a string is quoted with the same quote at both ends and holds no newline |
| ToggleDebug.UnescapeChar | bot/management/commands/toggle_debug.py:128 | reading one escaped character back gives that character |
| ToggleDebug.EscapedRoundTrip | bot/management/commands/toggle_debug.py:128 | reading the escaped text back gives the original string |
| ToggleDebug.PlainIsKept | bot/management/commands/toggle_debug.py:128 | a string of printable characters without backslash or quote is written as it is |
| ToggleDebug.ListText | bot/management/commands/toggle_debug.py:128 | str() of the list of origins holds no newline, so the CSRF line is one line |
| ToggleDebug.AddCsrf | bot/management/commands/toggle_debug.py:105-135 | the imperative step yields what WithCsrf describes |
| ToggleDebug.Handle | bot/management/commands/toggle_debug.py:30-142 | no file, status report, flag conflict, no insertion point, or written, each exactly when its condition holds; the written content is the DEBUG step (str.find point) followed by the CSRF step, with the new value |
| Bot.Database.constructor | bot/models.py:7-136 | the empty database, consistent |
| Bot.Database.Start | bot/bot_handler.py:48-64 | the tables become what Store.Touch describes; Valid is kept |
| Bot.Database.CreateGroupStart | bot/bot_handler.py:111-141 | the tables become what JoinFlow.CreateGroupStart describes; Valid is kept |
| Bot.Database.CreateGroupFinish | bot/bot_handler.py:233-310 | a code from generate_code that is free; the state JoinFlow.CreateGroupFinish describes with it |
| Bot.Database.JoinGroupCode | bot/bot_handler.py:328-381 | the state and outcome JoinFlow.JoinGroupCode describes |
| Bot.Database.HandleForwarded | bot/bot_handler.py:1058-1129 | the state and outcome JoinFlow.HandleForwarded describes |
| Bot.Database.LeaveGroup | bot/bot_handler.py:390-430 | the state and outcome JoinFlow.LeaveGroup describes |
| Bot.Database.SetName | bot/bot_handler.py:597-619 | the state and reply GiftFlow.SetName describes |
| Bot.Database.SendGift | bot/bot_handler.py:873-944 | the state and reply GiftFlow.SendGift describes |
| Bot.Database.AddDrawRows | bot/bot_handler.py:683-691 | the draws table grows by exactly the pairs, keys from the counter on; nothing else changes |
| Bot.Database.Draw | bot/bot_handler.py:629-699 | the state DrawFlow.DrawGroup describes; the retry count and validity of Assign |
| Bot.Database.CountParcels | bot/bot_handler.py:1574-1621 | the loop's count equals CountSent |
| Bot.Database.Distribute | bot/bot_handler.py:1540-1630 | the state and report DrawFlow.Distribute describes |
| Bot.Database.NotifyAll | bot/bot_handler.py:1338-1347 | the loop's count equals NotifiedCount |
| Bot.Database.CloseGroupMessage | bot/bot_handler.py:1291-1361 | the state and report CloseFlow.CloseGroupMessage describes under the owner test as written (line 1310) |
| Bot.Database.DeleteEach | bot/bot_handler.py:1446-1465 | the loop leaves the state and count DeleteFlow.DeleteEach describes under the owner test as written (line 1452) |
| Bot.Database.DeleteGroupSelection | bot/bot_handler.py:1435-1530 | the state and report DeleteFlow.DeleteGroupSelection describes under the owner test as written (lines 1452, 1501) |
| Bot.Database.NotifyGroup | bot/management/commands/close_all_groups.py:54-69 | the chats written to and the deliveries counted, as Chats and Delivered describe |
| Bot.Database.CloseEach | bot/management/commands/close_all_groups.py:40-69 | the rows, chats and deliveries of the loop, as ClosedGroups, SweepChats and Delivered describe |
| Bot.Database.CloseAllGroups | bot/management/commands/close_all_groups.py:12-69 | the state and outcome CloseAll.Sweep describes |

## Left out

- Telegram I/O:
  - Message texts and replies are not modelled.
  - The draw's result notifications (bot/bot_handler.py:700-738) are not modelled.
  - A send is a caller-supplied predicate (`reach`, `send`) that says whether it was delivered.
- Concurrency:
  - Handlers run one at a time against one database.
  - `sync_to_async` and the async runtime are not modelled.
- Randomness, clocks and dates:
  - `random.shuffle` is a parameter `shuffle(s, k)` that returns a permutation.
  - `secrets.token_urlsafe` is a caller-supplied stream of tokens.
  - `timezone.now()` and `date.today()` are parameters.
  - `strptime` is a parameter `parseDate`.
  - Dates are day numbers.
- my_groups, view_gifts, get_invite, help and handle_unknown_message only read and reply, so they are not modelled. /start is modelled only for what it stores (Bot.Database.Start); its welcome text is not. setup_handlers is only wiring, so it is not modelled either.
- Row order: query order is taken as primary-key order, and `created_at` as increasing with the key.
- Strings are sequences of characters. lower() and upper() map only ASCII A-Z and the Cyrillic block U+0400-U+045F; every other character is kept as it is, so other Latin and Cyrillic letters (such as À, Ā, Ґ, Ѣ) and the mappings that change length or cross scripts (ß to SS, İ to i with a combining dot, ı to I) are not modelled.
- Text.ParseLiteral: int() is modelled on ASCII digits only; Python also accepts other Unicode decimal digits, which the model rejects.
- ToggleDebug.ReprChar: repr() escapes non-printable characters at or above U+0100 as \u or \U escapes; the model escapes only those below U+0100 and writes the others as they are, since printability there depends on the Unicode database.
- DrawFlow.ParcelOf: a draw whose receiver row is broken would make the handler's own error report (line 1619) raise; the model counts it as a failed send, and DistributeParcels shows such draws do not occur under the constraints.
- The close and delete steps take the owner test as a parameter; Bot.Database applies the one as written, and the intended one is proved about alongside it.
- toggle_debug:
  - The file read and write are replaced by the text of `settings.py` as input and output.
  - The path resolution and the console messages are not modelled.
- JoinFlow.CreateGroupFinishOk requires a code no group uses. The source gets one from generate_code, which loops until it finds one. Bot.Database.CreateGroupFinish therefore requires that the token stream contains a free code.
- DrawFlow.DrawGroupNoSelfGift holds only when one of the 100 checked shuffles passed. The source keeps the last shuffle unchecked, so nothing is promised otherwise (see Assignment.ExhaustionKeepsSelfPairs).
- send_gift_start: the reply texts about an existing gift are not modelled. Which participation is stored, and the two ways the start ends, are modelled.
- Bot.Database.DeleteEach and DeleteGroupSelection apply a cascade delete through a value of the tables (Commit), not row by row.

## Findings

| source | as written | input that shows it | evidently intended | confidence | as-written member | corrected member |
|---|---|---|---|---|---|---|
| bot/bot_handler.py:1310 (also 1452, 1501) | `group.owner_id != update.effective_user.id` compares the owner's database key with the sender's Telegram id | owner stored under key 1 with Telegram id 123456789: close_group_message tells the real owner they are not the owner; delete_group_selection keeps their group and removes only their participation (DeleteFlow.DeleteEntryOwnerAsWritten) | compare the owner key with the sender's own key (as leave_group does at line 413) | high; not executed | CloseFlow.CloseRefusesOwnerAsWritten | CloseFlow.OwnerPassesMeans |
| bot/management/commands/toggle_debug.py:92-97 | `content.find('\n', end)` is used as the slice bound even when it returns -1 | settings text `SECRET_KEY = 'k'` with no DEBUG line and no trailing newline: the block is inserted before the closing quote | insert at the end of the text when the SECRET_KEY line is the last one | high; not executed | ToggleDebug.LastLineKeyIsSplit | ToggleDebug.LastLineKeyIsKept |
