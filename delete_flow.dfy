// The delete-group conversation of bot/bot_handler.py. The start lists the
// closed groups the sender owns (newest first) and then the closed groups
// they only take part in; a selection deletes one of them, or all, or
// nothing. A group that passes the owner test (CloseFlow.OwnerPasses) is
// removed with everything in it; for any other group only the sender's
// participation goes.

module DeleteFlow {
  import opened Text
  import opened Domain
  import opened Session
  import opened Store
  import opened CloseFlow

  // -------------------------------------------------------------- the listing

  /** The status and owner test of the participations listed after the owned groups. */
  function ClosedForeign(u: UserKey): Group -> bool {
    (g: Group) => g.status == Closed && g.owner != u
  }

  /** `s` back to front (order_by('-created_at') over a key-ordered query). */
  function Reversed(s: seq<nat>): (r: seq<nat>)
    ensures |r| == |s|
    ensures forall i :: 0 <= i < |s| ==> r[i] == s[|s| - 1 - i]
  {
    seq(|s|, i requires 0 <= i < |s| => s[|s| - 1 - i])
  }

  lemma ReversedElements(s: seq<nat>)
    ensures forall x :: x in Reversed(s) <==> x in s
  {
    var r := Reversed(s);
    forall x ensures x in r <==> x in s {
      if x in r {
        var i :| 0 <= i < |r| && r[i] == x;
        assert s[|s| - 1 - i] == x;
      }
      if x in s {
        var i :| 0 <= i < |s| && s[i] == x;
        assert r[|s| - 1 - i] == x;
      }
    }
  }

  /** The groups of the participations `ps`, in the same order. */
  function GroupsOf(t: Tables, ps: seq<PartId>): (r: seq<GroupId>)
    requires forall i :: 0 <= i < |ps| ==> ps[i] in t.parts
    ensures |r| == |ps|
    ensures forall i :: 0 <= i < |ps| ==> r[i] == t.parts[ps[i]].group
  {
    if ps == [] then [] else GroupsOf(t, ps[..|ps| - 1]) + [t.parts[ps[|ps| - 1]].group]
  }

  /** The closed groups the user stored under `u` owns, newest first. */
  function OwnedClosed(t: Tables, u: UserKey): seq<GroupId> {
    Reversed(KeysWhere(t.groups, OwnedIn(u, {Closed}), t.nextGroup))
  }

  /** The closed groups of someone else in which `u` takes part, in participation order. */
  function JoinedClosed(t: Tables, u: UserKey): seq<GroupId> {
    GroupsOf(t, Holdings(t, u, ClosedForeign(u)))
  }

  /** all_closed_groups of delete_group_start: the owned ones, then the joined ones. */
  function ClosedGroupList(t: Tables, u: UserKey): (r: seq<GroupId>)
    ensures forall i :: 0 <= i < |r| ==> r[i] in t.groups
  {
    OwnedClosed(t, u) + JoinedClosed(t, u)
  }

  /** One line of the stored list; is_owner compares Telegram ids. */
  function EntryOf(t: Tables, u: UserKey, g: GroupId): (r: ClosedEntry)
    requires g in t.groups && u in t.users
    ensures r.group == g && r.name == t.groups[g].name && r.code == t.groups[g].code
  {
    var group := t.groups[g];
    ClosedEntry(g, group.name, group.code, group.owner in t.users && t.users[group.owner].telegramId == t.users[u].telegramId)
  }

  function Entries(t: Tables, u: UserKey, gs: seq<GroupId>): (r: seq<ClosedEntry>)
    requires u in t.users
    requires forall i :: 0 <= i < |gs| ==> gs[i] in t.groups
    ensures |r| == |gs|
    ensures forall i :: 0 <= i < |gs| ==> r[i] == EntryOf(t, u, gs[i])
  {
    if gs == [] then [] else Entries(t, u, gs[..|gs| - 1]) + [EntryOf(t, u, gs[|gs| - 1])]
  }

  /** A closed group the Telegram user `tid` owns or takes part in. */
  ghost predicate ClosedFor(t: Tables, g: GroupId, tid: int) {
    g in t.groups && t.groups[g].status == Closed && (OwnedBy(t, g, tid) || IsMember(t, g, tid))
  }

  /**
   * delete_group_start: an unregistered sender, or one with no closed group,
   * ends the conversation without touching the accumulator; otherwise the
   * list is stored in closed_groups and a selection is asked for.
   */
  function DeleteGroupStart(t: Tables, tid: int, data: UserData): Reply<DeleteState> {
    match LookupUser(t, tid)
    case None => Reply(Ended, data)
    case Some(u) =>
      var gs := ClosedGroupList(t, u);
      if gs == [] then Reply(Ended, data)
      else Reply(Await(AwaitDeleteSelection), data.(closedGroups := Some(Entries(t, u, gs))))
  }

  /** The owned part of the list holds exactly the closed groups the user owns. */
  lemma OwnedClosedCovers(t: Tables, tid: int)
    requires TablesOk(t) && LookupUser(t, tid).Some?
    ensures forall g :: g in OwnedClosed(t, LookupUser(t, tid).value) <==>
              g in t.groups && t.groups[g].status == Closed && OwnedBy(t, g, tid)
  {
    var u := LookupUser(t, tid).value;
    var keys := KeysWhere(t.groups, OwnedIn(u, {Closed}), t.nextGroup);
    ReversedElements(keys);
    forall g ensures g in keys <==> g in t.groups && t.groups[g].status == Closed && OwnedBy(t, g, tid) {
      OwnedByKey(t, u, g);
    }
  }

  /** The joined part of the list holds exactly the closed groups of others the user takes part in. */
  lemma JoinedClosedCovers(t: Tables, tid: int)
    requires TablesOk(t) && LookupUser(t, tid).Some?
    ensures forall g :: g in JoinedClosed(t, LookupUser(t, tid).value) <==>
              g in t.groups && t.groups[g].status == Closed && !OwnedBy(t, g, tid) && IsMember(t, g, tid)
  {
    var u := LookupUser(t, tid).value;
    var ps := Holdings(t, u, ClosedForeign(u));
    HoldingsOfUser(t, tid, ClosedForeign(u));
    forall g ensures g in JoinedClosed(t, u) <==>
                       g in t.groups && t.groups[g].status == Closed && !OwnedBy(t, g, tid) && IsMember(t, g, tid) {
      OwnedByKey(t, u, g);
      if g in JoinedClosed(t, u) {
        var i :| 0 <= i < |ps| && t.parts[ps[i]].group == g;
        assert HeldIn(t, ps[i], tid, ClosedForeign(u));
      }
      if g in t.groups && t.groups[g].status == Closed && !OwnedBy(t, g, tid) && IsMember(t, g, tid) {
        var p :| HeldBy(t, p, tid) && t.parts[p].group == g;
        assert HeldIn(t, p, tid, ClosedForeign(u));
        var i :| 0 <= i < |ps| && ps[i] == p;
        assert JoinedClosed(t, u)[i] == g;
      }
    }
  }

  /** Every closed group the sender owns or takes part in is listed, and nothing else. */
  lemma ClosedGroupListCovers(t: Tables, tid: int)
    requires TablesOk(t) && LookupUser(t, tid).Some?
    ensures forall g :: g in ClosedGroupList(t, LookupUser(t, tid).value) <==> ClosedFor(t, g, tid)
  {
    OwnedClosedCovers(t, tid);
    JoinedClosedCovers(t, tid);
  }

  /** Two participations of one user are in two different groups. */
  lemma JoinedClosedDistinct(t: Tables, u: UserKey)
    requires TablesOk(t)
    ensures Distinct(JoinedClosed(t, u))
  {
    var joined := JoinedClosed(t, u);
    var ps := Holdings(t, u, ClosedForeign(u));
    forall i, j | 0 <= i < j < |joined| ensures joined[i] != joined[j] {
      assert ps[i] != ps[j];
      assert !SameMembership(t.parts, ps[i], ps[j]);
    }
  }

  /** Newest first repeats nothing, since keys do not repeat. */
  lemma OwnedClosedDistinct(t: Tables, u: UserKey)
    ensures Distinct(OwnedClosed(t, u))
  {
    var keys := KeysWhere(t.groups, OwnedIn(u, {Closed}), t.nextGroup);
    var r := OwnedClosed(t, u);
    forall i, j | 0 <= i < j < |r| ensures r[i] != r[j] {
      assert keys[|keys| - 1 - j] < keys[|keys| - 1 - i];
    }
  }

  /** A listed owned group is owned by `u`; a listed joined group is not. */
  lemma OwnedJoinedApart(t: Tables, u: UserKey, g: GroupId)
    ensures g in OwnedClosed(t, u) ==> g in t.groups && t.groups[g].owner == u
    ensures g in JoinedClosed(t, u) ==> g in t.groups && t.groups[g].owner != u
  {
    ReversedElements(KeysWhere(t.groups, OwnedIn(u, {Closed}), t.nextGroup));
    var ps := Holdings(t, u, ClosedForeign(u));
    if g in JoinedClosed(t, u) {
      var i :| 0 <= i < |ps| && JoinedClosed(t, u)[i] == g;
      assert HeldWhere(t.groups, u, ClosedForeign(u))(t.parts[ps[i]]);
    }
  }

  lemma DistinctConcat(a: seq<nat>, b: seq<nat>)
    requires Distinct(a) && Distinct(b)
    requires forall x :: x in a ==> x !in b
    ensures Distinct(a + b)
  {
    var r := a + b;
    forall i, j | 0 <= i < j < |r| ensures r[i] != r[j] {
      if i < |a| <= j {
        assert r[i] in a && r[j] == b[j - |a|];
      }
    }
  }

  /** No group is listed twice: the owned and joined parts are disjoint and each repeats nothing. */
  lemma ClosedGroupListDistinct(t: Tables, tid: int)
    requires TablesOk(t) && LookupUser(t, tid).Some?
    ensures Distinct(ClosedGroupList(t, LookupUser(t, tid).value))
  {
    var u := LookupUser(t, tid).value;
    var owned := OwnedClosed(t, u);
    var joined := JoinedClosed(t, u);
    OwnedClosedDistinct(t, u);
    JoinedClosedDistinct(t, u);
    forall g | g in owned ensures g !in joined {
      OwnedJoinedApart(t, u, g);
    }
    DistinctConcat(owned, joined);
  }

  /** The owned groups come first, newest (largest key) first. */
  lemma ClosedGroupListOrder(t: Tables, tid: int)
    requires TablesOk(t) && LookupUser(t, tid).Some?
    ensures var r := ClosedGroupList(t, LookupUser(t, tid).value);
      forall i, j :: 0 <= i < j < |r| && OwnedBy(t, r[j], tid) ==> OwnedBy(t, r[i], tid) && r[i] > r[j]
  {
    var u := LookupUser(t, tid).value;
    var owned := OwnedClosed(t, u);
    var r := ClosedGroupList(t, u);
    OwnedClosedCovers(t, tid);
    JoinedClosedCovers(t, tid);
    forall i, j | 0 <= i < j < |r| && OwnedBy(t, r[j], tid) ensures OwnedBy(t, r[i], tid) && r[i] > r[j] {
      assert r[i] == owned[i] && r[j] == owned[j];
    }
  }

  /**
   * The start ends exactly when the sender has no closed group to delete,
   * keeping the accumulator; otherwise only closed_groups is set.
   */
  lemma DeleteGroupStartOffers(t: Tables, tid: int, data: UserData)
    requires TablesOk(t)
    ensures var r := DeleteGroupStart(t, tid, data);
      && (r.next == Ended <==> forall g :: !ClosedFor(t, g, tid))
      && (r.next == Ended ==> r.data == data)
      && (r.next != Ended ==>
            && r.next == Await(AwaitDeleteSelection)
            && r.data == data.(closedGroups := r.data.closedGroups)
            && r.data.closedGroups.Some? && r.data.closedGroups.value != [])
  {
    match LookupUser(t, tid)
    case None =>
      UnregisteredHoldsNothing(t, tid);
      forall g ensures !ClosedFor(t, g, tid) {
        if g in t.groups {
          assert GroupRowOk(t.users, t.groups, g);
        }
      }
    case Some(u) =>
      ClosedGroupListCovers(t, tid);
      var gs := ClosedGroupList(t, u);
      if gs != [] {
        assert ClosedFor(t, gs[0], tid);
      }
  }

  /** Groups listed in `entries`, each once. */
  predicate DistinctGroups(entries: seq<ClosedEntry>) {
    forall i, j :: 0 <= i < j < |entries| ==> entries[i].group != entries[j].group
  }

  /**
   * The stored list names each closed group of the sender once, with its
   * name and code, and marks exactly the owned ones as is_owner.
   */
  lemma DeleteGroupStartLists(t: Tables, tid: int, data: UserData)
    requires TablesOk(t)
    requires DeleteGroupStart(t, tid, data).next != Ended
    ensures var es := DeleteGroupStart(t, tid, data).data.closedGroups.value;
      && DistinctGroups(es)
      && (forall g :: ClosedFor(t, g, tid) <==> exists i :: 0 <= i < |es| && es[i].group == g)
      && (forall i :: 0 <= i < |es| ==>
            && es[i].group in t.groups
            && es[i].name == t.groups[es[i].group].name && es[i].code == t.groups[es[i].group].code
            && (es[i].isOwner <==> OwnedBy(t, es[i].group, tid)))
  {
    var u := LookupUser(t, tid).value;
    var gs := ClosedGroupList(t, u);
    assert DeleteGroupStart(t, tid, data).data.closedGroups.value == Entries(t, u, gs);
    EntriesListed(t, tid, u, gs, Entries(t, u, gs));
  }

  lemma EntriesListed(t: Tables, tid: int, u: UserKey, gs: seq<GroupId>, es: seq<ClosedEntry>)
    requires TablesOk(t) && LookupUser(t, tid) == Some(u)
    requires gs == ClosedGroupList(t, u) && es == Entries(t, u, gs)
    ensures DistinctGroups(es)
    ensures forall g :: ClosedFor(t, g, tid) <==> exists i :: 0 <= i < |es| && es[i].group == g
    ensures forall i :: 0 <= i < |es| ==>
              && es[i].group in t.groups
              && es[i].name == t.groups[es[i].group].name && es[i].code == t.groups[es[i].group].code
              && (es[i].isOwner <==> OwnedBy(t, es[i].group, tid))
  {
    ClosedGroupListCovers(t, tid);
    ClosedGroupListDistinct(t, tid);
    EntriesDistinct(t, u, gs);
    EntriesCover(t, tid, u, gs);
    EntriesOwner(t, tid, u, gs);
  }

  lemma EntriesDistinct(t: Tables, u: UserKey, gs: seq<GroupId>)
    requires u in t.users && (forall i :: 0 <= i < |gs| ==> gs[i] in t.groups) && Distinct(gs)
    ensures DistinctGroups(Entries(t, u, gs))
  {
    var es := Entries(t, u, gs);
    forall i, j | 0 <= i < j < |es| ensures es[i].group != es[j].group {
      assert es[i].group == gs[i] && es[j].group == gs[j];
    }
  }

  lemma EntriesCover(t: Tables, tid: int, u: UserKey, gs: seq<GroupId>)
    requires u in t.users && forall i :: 0 <= i < |gs| ==> gs[i] in t.groups
    requires forall g :: g in gs <==> ClosedFor(t, g, tid)
    ensures var es := Entries(t, u, gs);
      forall g :: ClosedFor(t, g, tid) <==> exists i :: 0 <= i < |es| && es[i].group == g
  {
    var es := Entries(t, u, gs);
    forall g ensures ClosedFor(t, g, tid) <==> exists i :: 0 <= i < |es| && es[i].group == g {
      if g in gs {
        var i :| 0 <= i < |gs| && gs[i] == g;
        assert es[i].group == g;
      }
      if exists i :: 0 <= i < |es| && es[i].group == g {
        var i :| 0 <= i < |es| && es[i].group == g;
        assert gs[i] == g;
      }
    }
  }

  lemma EntriesOwner(t: Tables, tid: int, u: UserKey, gs: seq<GroupId>)
    requires TablesOk(t) && u in t.users && t.users[u].telegramId == tid
    requires forall i :: 0 <= i < |gs| ==> gs[i] in t.groups
    ensures var es := Entries(t, u, gs);
      forall i :: 0 <= i < |es| ==>
        && es[i].group in t.groups
        && es[i].name == t.groups[es[i].group].name && es[i].code == t.groups[es[i].group].code
        && (es[i].isOwner <==> OwnedBy(t, es[i].group, tid))
  {
    var es := Entries(t, u, gs);
    forall i | 0 <= i < |es| ensures es[i].isOwner <==> OwnedBy(t, es[i].group, tid) {
      assert es[i] == EntryOf(t, u, gs[i]);
      assert GroupRowOk(t.users, t.groups, gs[i]);
    }
  }

  // ------------------------------------------------------------ the selection

  /** What deleting one listed group came to (the exceptions the handler catches are outcomes). */
  datatype EntryResult =
    | EntryGroupGone
    | GroupDeleted
    | SenderUnknown
    | NotAParticipant
    | LeftGroup(participation: PartId)
  {
    predicate Removed() { this == GroupDeleted || this.LeftGroup? }
  }

  /**
   * One entry of delete_group_selection: a sender who passes the owner test
   * deletes the group, by cascade; anyone else loses their participation in
   * it, once the user and the participation are found.
   */
  function DeleteEntry(test: OwnerTest, t: Tables, tid: int, g: GroupId): (r: Effect<EntryResult>)
    ensures !r.outcome.Removed() ==> r.tables == t
  {
    if g !in t.groups then Effect(t, EntryGroupGone)
    else if OwnerPasses(test, t, tid, g) then Effect(RemoveGroup(t, g), GroupDeleted)
    else match LookupUser(t, tid)
      case None => Effect(t, SenderUnknown)
      case Some(u) =>
        match First(Membership(t.parts, g, u, t.nextPart))
        case None => Effect(t, NotAParticipant)
        case Some(p) => Effect(RemovePart(t, p), LeftGroup(p))
  }

  /** Which of the outcomes happens, and when. */
  lemma DeleteEntryDecides(test: OwnerTest, t: Tables, tid: int, g: GroupId)
    requires TablesOk(t)
    ensures var r := DeleteEntry(test, t, tid, g).outcome;
      var passes := g in t.groups && OwnerPasses(test, t, tid, g);
      && (r == EntryGroupGone <==> g !in t.groups)
      && (r == GroupDeleted <==> passes)
      && (r.LeftGroup? <==> g in t.groups && !passes && IsMember(t, g, tid))
      && (r.LeftGroup? ==> HeldBy(t, r.participation, tid) && t.parts[r.participation].group == g)
      && (r == SenderUnknown || r == NotAParticipant <==> g in t.groups && !passes && !IsMember(t, g, tid))
  {
    if g in t.groups {
      match LookupUser(t, tid)
      case None =>
        UnregisteredHoldsNothing(t, tid);
      case Some(u) =>
        var ms := Membership(t.parts, g, u, t.nextPart);
        forall p | HeldBy(t, p, tid) && t.parts[p].group == g ensures p in ms {
          HeldByKey(t, u, p);
        }
        if ms != [] {
          HeldByKey(t, u, ms[0]);
        }
    }
  }

  /**
   * The test as written sends an owner whose key is not their Telegram id
   * down the participant path: the group stays, and only their own
   * participation goes when they have one.
   */
  lemma DeleteEntryOwnerAsWritten(t: Tables, tid: int, g: GroupId)
    requires TablesOk(t) && OwnedBy(t, g, tid) && t.groups[g].owner != tid
    ensures var r := DeleteEntry(AsWritten, t, tid, g);
      && g in r.tables.groups && r.tables.groups == t.groups
      && (IsMember(t, g, tid) ==> r.outcome.LeftGroup?)
      && (!IsMember(t, g, tid) ==> !r.outcome.Removed() && r.tables == t)
  {
    DeleteEntryDecides(AsWritten, t, tid, g);
  }

  /** The sender takes no part in group `g` any more, or the group is gone. */
  ghost predicate Gone(t: Tables, g: GroupId, tid: int) {
    g !in t.groups || !IsMember(t, g, tid)
  }

  /** Rows only disappear from `t` to `s`; the rows that stay are unchanged. */
  ghost predicate Shrinks(t: Tables, s: Tables) {
    && s.users == t.users && s.nextUser == t.nextUser
    && (forall g :: g in s.groups ==> g in t.groups && s.groups[g] == t.groups[g])
    && (forall p :: p in s.parts ==> p in t.parts && s.parts[p] == t.parts[p])
  }

  /** A participation that is gone stays gone while rows only disappear. */
  lemma GoneStaysGone(t: Tables, s: Tables, g: GroupId, tid: int)
    requires Shrinks(t, s) && Gone(t, g, tid)
    ensures Gone(s, g, tid)
  {
  }

  /** Deleting a group only removes rows, and the group with them. */
  lemma GroupDeletedOk(t: Tables, tid: int, g: GroupId)
    requires TablesOk(t)
    ensures var s := RemoveGroup(t, g);
      && TablesOk(s) && Shrinks(t, s) && Gone(s, g, tid)
      && g !in s.groups && forall h :: h in t.groups && h != g ==> h in s.groups
  {
    RemoveGroupOk(t, g);
  }

  /** Removing the sender's participation in `g` leaves them no other one there. */
  lemma LeftGroupOk(t: Tables, tid: int, g: GroupId, p: PartId)
    requires TablesOk(t) && HeldBy(t, p, tid) && t.parts[p].group == g
    ensures var s := RemovePart(t, p);
      && TablesOk(s) && Shrinks(t, s) && Gone(s, g, tid)
      && s.groups == t.groups && forall q :: q in s.parts <==> q in t.parts && q != p
  {
    RemovePartOk(t, p);
    var s := RemovePart(t, p);
    if IsMember(s, g, tid) {
      var q :| HeldBy(s, q, tid) && s.parts[q].group == g;
      assert SameTelegramId(t.users, t.parts[p].user, t.parts[q].user);
      assert SameMembership(t.parts, p, q);
    }
  }

  /**
   * One entry keeps the constraints, only removes rows, and leaves the
   * sender no participation in the group, whichever owner test applies.
   */
  lemma DeleteEntryOk(test: OwnerTest, t: Tables, tid: int, g: GroupId)
    requires TablesOk(t)
    ensures var r := DeleteEntry(test, t, tid, g);
      && TablesOk(r.tables)
      && Shrinks(t, r.tables)
      && Gone(r.tables, g, tid)
      && (r.outcome == GroupDeleted ==>
            g !in r.tables.groups && forall h :: h in t.groups && h != g ==> h in r.tables.groups)
      && (r.outcome.LeftGroup? ==>
            && r.tables.groups == t.groups
            && forall q :: q in r.tables.parts <==> q in t.parts && q != r.outcome.participation)
  {
    DeleteEntryDecides(test, t, tid, g);
    var r := DeleteEntry(test, t, tid, g);
    match r.outcome
    case GroupDeleted =>
      assert r.tables == RemoveGroup(t, g);
      GroupDeletedOk(t, tid, g);
    case LeftGroup(p) =>
      assert r.tables == RemovePart(t, p);
      LeftGroupOk(t, tid, g, p);
    case _ =>
  }

  /** The "all" branch: every listed group in turn, counting the ones that went. */
  function DeleteEach(test: OwnerTest, t: Tables, tid: int, entries: seq<ClosedEntry>): (r: Effect<nat>)
    ensures r.outcome <= |entries|
  {
    if entries == [] then Effect(t, 0)
    else
      var n := |entries| - 1;
      var before := DeleteEach(test, t, tid, entries[..n]);
      var step := DeleteEntry(test, before.tables, tid, entries[n].group);
      Effect(step.tables, before.outcome + if step.outcome.Removed() then 1 else 0)
  }

  /**
   * After the "all" branch the constraints hold, rows were only removed, and
   * the sender takes part in none of the listed groups.
   */
  lemma {:induction false} DeleteEachOk(test: OwnerTest, t: Tables, tid: int, entries: seq<ClosedEntry>)
    requires TablesOk(t)
    ensures var r := DeleteEach(test, t, tid, entries).tables;
      && TablesOk(r) && Shrinks(t, r)
      && forall i :: 0 <= i < |entries| ==> Gone(r, entries[i].group, tid)
    decreases |entries|
  {
    if entries != [] {
      var n := |entries| - 1;
      var before := DeleteEach(test, t, tid, entries[..n]).tables;
      DeleteEachOk(test, t, tid, entries[..n]);
      DeleteEntryOk(test, before, tid, entries[n].group);
      var r := DeleteEach(test, t, tid, entries).tables;
      forall i | 0 <= i < n ensures Gone(r, entries[i].group, tid) {
        assert entries[..n][i] == entries[i];
        GoneStaysGone(before, r, entries[i].group, tid);
      }
    }
  }

  /** Group `g` would go under the owner test `test`: the sender passes it or takes part in `g`. */
  ghost predicate Removable(test: OwnerTest, t: Tables, g: GroupId, tid: int) {
    g in t.groups && (OwnerPasses(test, t, tid, g) || IsMember(t, g, tid))
  }

  /** While rows only disappear, a group that would not go still would not. */
  lemma UnremovableStays(test: OwnerTest, t: Tables, s: Tables, g: GroupId, tid: int)
    requires Shrinks(t, s) && !Removable(test, t, g, tid)
    ensures !Removable(test, s, g, tid)
  {
    if g in s.groups {
      assert s.groups[g] == t.groups[g];
      if test == Intended {
        assert LookupUser(s, tid) == LookupUser(t, tid);
      }
      assert OwnerPasses(test, s, tid, g) == OwnerPasses(test, t, tid, g);
      forall p | HeldBy(s, p, tid) && s.parts[p].group == g ensures HeldBy(t, p, tid) && t.parts[p].group == g {
      }
    }
  }

  /** Deleting one group, or leaving it, leaves every other group as removable as it was. */
  lemma OtherRemovableKept(test: OwnerTest, t: Tables, tid: int, h: GroupId, g: GroupId)
    requires TablesOk(t) && g != h && Removable(test, t, g, tid)
    ensures Removable(test, DeleteEntry(test, t, tid, h).tables, g, tid)
  {
    DeleteEntryDecides(test, t, tid, h);
    var r := DeleteEntry(test, t, tid, h);
    match r.outcome
    case GroupDeleted =>
      assert r.tables == RemoveGroup(t, h);
      RemoveGroupOk(t, h);
      OtherGroupKept(test, t, r.tables, tid, g);
    case LeftGroup(q) =>
      assert r.tables == RemovePart(t, q);
      RemovePartOk(t, q);
      OtherGroupKept(test, t, r.tables, tid, g);
    case _ =>
  }

  /** Group `g` is still removable when its row, the users and the participations in it are kept. */
  lemma OtherGroupKept(test: OwnerTest, t: Tables, s: Tables, tid: int, g: GroupId)
    requires Removable(test, t, g, tid)
    requires g in s.groups && s.groups[g] == t.groups[g] && s.users == t.users && s.nextUser == t.nextUser
    requires forall p :: p in t.parts && t.parts[p].group == g ==> p in s.parts && s.parts[p] == t.parts[p]
    ensures Removable(test, s, g, tid)
  {
    if test == Intended {
      assert LookupUser(s, tid) == LookupUser(t, tid);
    }
    if !OwnerPasses(test, t, tid, g) {
      var p :| HeldBy(t, p, tid) && t.parts[p].group == g;
      assert HeldBy(s, p, tid);
    }
  }

  /**
   * Over removable groups, each listed once, the "all" branch removes every
   * one of them and keeps every group not listed as removable as it was.
   */
  lemma {:induction false} DeleteEachCounts(test: OwnerTest, t: Tables, tid: int, entries: seq<ClosedEntry>)
    requires TablesOk(t) && DistinctGroups(entries)
    requires forall i :: 0 <= i < |entries| ==> Removable(test, t, entries[i].group, tid)
    ensures DeleteEach(test, t, tid, entries).outcome == |entries|
    ensures forall g :: Removable(test, t, g, tid) && (forall i :: 0 <= i < |entries| ==> entries[i].group != g) ==>
              Removable(test, DeleteEach(test, t, tid, entries).tables, g, tid)
    decreases |entries|
  {
    if entries != [] {
      var n := |entries| - 1;
      var front := entries[..n];
      assert forall i :: 0 <= i < n ==> front[i] == entries[i];
      DeleteEachCounts(test, t, tid, front);
      DeleteEachOk(test, t, tid, front);
      var before := DeleteEach(test, t, tid, front).tables;
      var h := entries[n].group;
      assert Removable(test, before, h, tid);
      DeleteEntryDecides(test, before, tid, h);
      forall g | Removable(test, t, g, tid) && (forall i :: 0 <= i < |entries| ==> entries[i].group != g)
        ensures Removable(test, DeleteEach(test, t, tid, entries).tables, g, tid)
      {
        assert Removable(test, before, g, tid);
        OtherRemovableKept(test, before, tid, h, g);
      }
    }
  }

  /** A listed group that would not go is not counted: deleted_count falls short of the list. */
  lemma {:induction false} DeleteEachMisses(test: OwnerTest, t: Tables, tid: int, entries: seq<ClosedEntry>, i: nat)
    requires TablesOk(t) && i < |entries| && !Removable(test, t, entries[i].group, tid)
    ensures DeleteEach(test, t, tid, entries).outcome < |entries|
    decreases |entries|
  {
    var n := |entries| - 1;
    var front := entries[..n];
    if i < n {
      assert front[i] == entries[i];
      DeleteEachMisses(test, t, tid, front, i);
    } else {
      DeleteEachOk(test, t, tid, front);
      var before := DeleteEach(test, t, tid, front).tables;
      UnremovableStays(test, t, before, entries[n].group, tid);
      DeleteEntryDecides(test, before, tid, entries[n].group);
    }
  }

  /** deleted_count reaches the length of the list exactly when every listed group would go. */
  lemma DeleteEachComplete(test: OwnerTest, t: Tables, tid: int, entries: seq<ClosedEntry>)
    requires TablesOk(t) && DistinctGroups(entries)
    ensures DeleteEach(test, t, tid, entries).outcome == |entries| <==>
              forall i :: 0 <= i < |entries| ==> Removable(test, t, entries[i].group, tid)
  {
    if forall i :: 0 <= i < |entries| ==> Removable(test, t, entries[i].group, tid) {
      DeleteEachCounts(test, t, tid, entries);
    } else {
      var i :| 0 <= i < |entries| && !Removable(test, t, entries[i].group, tid);
      DeleteEachMisses(test, t, tid, entries, i);
    }
  }

  /**
   * Right after the listing, "all" counts every listed group exactly when
   * each is removable: always under the intended test; under the test as
   * written, a listed group the sender owns under a key other than their
   * Telegram id and takes no part in is missed.
   */
  lemma DeleteAllAfterStart(test: OwnerTest, t: Tables, tid: int, data: UserData)
    requires TablesOk(t)
    requires DeleteGroupStart(t, tid, data).next != Ended
    ensures var es := DeleteGroupStart(t, tid, data).data.closedGroups.value;
      && (DeleteEach(test, t, tid, es).outcome == |es| <==>
            forall i :: 0 <= i < |es| ==> Removable(test, t, es[i].group, tid))
      && (test == Intended ==> DeleteEach(test, t, tid, es).outcome == |es|)
      && (test == AsWritten ==>
            (DeleteEach(test, t, tid, es).outcome == |es| <==>
              forall i :: 0 <= i < |es| ==>
                es[i].group in t.groups && (t.groups[es[i].group].owner == tid || IsMember(t, es[i].group, tid))))
  {
    var es := DeleteGroupStart(t, tid, data).data.closedGroups.value;
    DeleteGroupStartLists(t, tid, data);
    DeleteEachComplete(test, t, tid, es);
    if test == Intended {
      forall i | 0 <= i < |es| ensures Removable(test, t, es[i].group, tid) {
        ListedRemovable(t, tid, es[i].group);
      }
    } else {
      forall i | 0 <= i < |es|
        ensures Removable(test, t, es[i].group, tid) <==>
                  es[i].group in t.groups && (t.groups[es[i].group].owner == tid || IsMember(t, es[i].group, tid))
      {
        RemovableAsWritten(t, es[i].group, tid);
      }
    }
  }

  /** Under the intended test, every closed group the sender owns or takes part in is removable. */
  lemma ListedRemovable(t: Tables, tid: int, g: GroupId)
    requires TablesOk(t) && ClosedFor(t, g, tid)
    ensures Removable(Intended, t, g, tid)
  {
    OwnerPassesMeans(Intended, t, tid, g);
  }

  /** Under the test as written, a group is removable when its owner key is the Telegram id or the sender takes part. */
  lemma RemovableAsWritten(t: Tables, g: GroupId, tid: int)
    ensures Removable(AsWritten, t, g, tid) <==> g in t.groups && (t.groups[g].owner == tid || IsMember(t, g, tid))
  {
  }

  /** What delete_group_selection did. */
  datatype DeleteReport = DeleteReport(command: DeleteCommand, deleted: nat, single: Option<EntryResult>, reply: Reply<DeleteState>)

  /**
   * delete_group_selection: a missing list, "all", cancel and a chosen
   * number end the conversation with the accumulator cleared; input that is
   * not a number, or a number out of range, asks again.
   */
  function DeleteGroupSelection(test: OwnerTest, t: Tables, tid: int, data: UserData, text: string): (r: Effect<DeleteReport>)
    ensures r.outcome.command == DeleteCommandOf(data, text)
  {
    var command := DeleteCommandOf(data, text);
    match command
    case DeleteAll =>
      var all := DeleteEach(test, t, tid, data.closedGroups.value);
      Effect(all.tables, DeleteReport(command, all.outcome, None, Reply(Ended, Cleared)))
    case DeleteOne(entry) =>
      var one := DeleteEntry(test, t, tid, entry.group);
      Effect(one.tables, DeleteReport(command, if one.outcome.Removed() then 1 else 0, Some(one.outcome), Reply(Ended, Cleared)))
    case BadNumber => Effect(t, DeleteReport(command, 0, None, Reply(Await(AwaitDeleteSelection), data)))
    case NumberOutOfRange => Effect(t, DeleteReport(command, 0, None, Reply(Await(AwaitDeleteSelection), data)))
    case _ => Effect(t, DeleteReport(command, 0, None, Reply(Ended, Cleared)))
  }

  /**
   * What the selection step promises of its effect `r`: the constraints
   * hold and rows are only removed. It asks again exactly for input it
   * cannot read as a listed number, keeping the accumulator; otherwise it
   * ends with the accumulator cleared. Only "all" and a chosen number write,
   * and after either the sender takes part in none of the groups concerned.
   */
  ghost predicate SelectionOk(t: Tables, tid: int, data: UserData, r: Effect<DeleteReport>) {
    var c := r.outcome.command;
    && TablesOk(r.tables) && Shrinks(t, r.tables)
    && (r.outcome.reply.next == Await(AwaitDeleteSelection) <==> c == BadNumber || c == NumberOutOfRange)
    && (r.outcome.reply.next == Await(AwaitDeleteSelection) ==> r.outcome.reply.data == data)
    && (r.outcome.reply.next != Await(AwaitDeleteSelection) ==> r.outcome.reply == Reply(Ended, Cleared))
    && (!c.DeleteAll? && !c.DeleteOne? ==> r.tables == t)
    && (c.DeleteAll? ==>
          forall i :: 0 <= i < |data.closedGroups.GetOr([])| ==> Gone(r.tables, data.closedGroups.GetOr([])[i].group, tid))
    && (c.DeleteOne? ==> Gone(r.tables, c.entry.group, tid))
    && r.outcome.deleted <= |data.closedGroups.GetOr([])|
  }

  /** "all" keeps the promise of the selection step. */
  lemma SelectionAllOk(test: OwnerTest, t: Tables, tid: int, data: UserData, text: string)
    requires TablesOk(t) && DeleteCommandOf(data, text) == DeleteAll
    ensures SelectionOk(t, tid, data, DeleteGroupSelection(test, t, tid, data, text))
  {
    var r := DeleteGroupSelection(test, t, tid, data, text);
    var all := DeleteEach(test, t, tid, data.closedGroups.value);
    assert r.tables == all.tables && r.outcome.deleted == all.outcome;
    assert r.outcome.reply == Reply(Ended, Cleared);
    DeleteEachOk(test, t, tid, data.closedGroups.value);
  }

  /** A chosen number deletes the one entry it names and ends the conversation. */
  lemma SelectionOneEffect(test: OwnerTest, t: Tables, tid: int, data: UserData, text: string)
    requires DeleteCommandOf(data, text).DeleteOne?
    ensures var entry := DeleteCommandOf(data, text).entry;
      var one := DeleteEntry(test, t, tid, entry.group);
      var r := DeleteGroupSelection(test, t, tid, data, text);
      && r.tables == one.tables && r.outcome.deleted <= 1
      && r.outcome.reply == Reply(Ended, Cleared)
      && 1 <= |data.closedGroups.GetOr([])|
  {
    var command := DeleteCommandOf(data, text);
    var one := DeleteEntry(test, t, tid, command.entry.group);
    assert DeleteGroupSelection(test, t, tid, data, text)
        == Effect(one.tables, DeleteReport(command, if one.outcome.Removed() then 1 else 0, Some(one.outcome), Reply(Ended, Cleared)));
    assert command.entry in data.closedGroups.value;
  }

  /** A chosen number keeps the promise of the selection step. */
  lemma SelectionOneOk(test: OwnerTest, t: Tables, tid: int, data: UserData, text: string)
    requires TablesOk(t) && DeleteCommandOf(data, text).DeleteOne?
    ensures SelectionOk(t, tid, data, DeleteGroupSelection(test, t, tid, data, text))
  {
    var entry := DeleteCommandOf(data, text).entry;
    SelectionOneEffect(test, t, tid, data, text);
    DeleteEntryOk(test, t, tid, entry.group);
  }

  /** The selection step keeps its promise, whatever the input and the owner test. */
  lemma DeleteGroupSelectionOk(test: OwnerTest, t: Tables, tid: int, data: UserData, text: string)
    requires TablesOk(t)
    ensures SelectionOk(t, tid, data, DeleteGroupSelection(test, t, tid, data, text))
  {
    var command := DeleteCommandOf(data, text);
    var r := DeleteGroupSelection(test, t, tid, data, text);
    match command
    case DeleteAll => SelectionAllOk(test, t, tid, data, text);
    case DeleteOne(_) => SelectionOneOk(test, t, tid, data, text);
    case BadNumber =>
      assert r == Effect(t, DeleteReport(command, 0, None, Reply(Await(AwaitDeleteSelection), data)));
    case NumberOutOfRange =>
      assert r == Effect(t, DeleteReport(command, 0, None, Reply(Await(AwaitDeleteSelection), data)));
    case _ =>
      assert r == Effect(t, DeleteReport(command, 0, None, Reply(Ended, Cleared)));
  }
}
