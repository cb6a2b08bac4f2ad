// The close_all_groups management command
// (bot/management/commands/close_all_groups.py): every group that is active,
// drawn or in distribution is closed, and each of its participants is sent a
// notice. A notice that fails is reported and skipped; it stops neither the
// other notices nor the closing of later groups.

module CloseAll {
  import opened Text
  import opened Domain
  import opened Store
  import opened CloseFlow

  function IsOpenGroup(): Group -> bool {
    (g: Group) => g.status in OpenStatuses
  }

  /** Group.objects.filter(status__in=[active, drawn, distribution]), in key order. */
  function OpenGroups(t: Tables): seq<GroupId> {
    KeysWhere(t.groups, IsOpenGroup(), t.nextGroup)
  }

  /** The rows of `groups` after closing `gs` one after the other, each as it was loaded. */
  function ClosedGroups(groups: map<GroupId, Group>, gs: seq<GroupId>): (r: map<GroupId, Group>)
    ensures r.Keys == groups.Keys
  {
    if gs == [] then groups
    else
      var n := |gs| - 1;
      var before := ClosedGroups(groups, gs[..n]);
      if gs[n] in groups then before[gs[n] := ClosedRow(groups[gs[n]])] else before
  }

  /** The chats of the participants `ps` (participant.user.telegram_id), in order. */
  function Chats(users: map<UserKey, User>, parts: map<PartId, Participant>, ps: seq<PartId>): (r: seq<int>)
    ensures |r| <= |ps|
  {
    if ps == [] then []
    else
      var n := |ps| - 1;
      var p := ps[n];
      Chats(users, parts, ps[..n]) + if p in parts && parts[p].user in users then [users[parts[p].user].telegramId] else []
  }

  /** The chats the sweep writes to: the participants of each group in turn. */
  function SweepChats(t: Tables, gs: seq<GroupId>): seq<int> {
    if gs == [] then []
    else
      var n := |gs| - 1;
      SweepChats(t, gs[..n]) + Chats(t.users, t.parts, Members(t.parts, gs[n], t.nextPart))
  }

  /** How many of `chats` `reach` reports delivered. */
  function Delivered(chats: seq<int>, reach: int -> bool): (r: nat)
    ensures r <= |chats|
  {
    if chats == [] then 0
    else
      var n := |chats| - 1;
      Delivered(chats[..n], reach) + if reach(chats[n]) then 1 else 0
  }

  datatype SweepOutcome =
    | NothingToClose
    | NoToken
    | Swept(closed: seq<GroupId>, attempted: seq<int>, delivered: nat)

  /**
   * handle and close_groups_async: nothing to close returns at once; a
   * missing bot token returns before any group is closed; otherwise every
   * open group is closed and each of its participants is sent a notice.
   */
  function Sweep(t: Tables, tokenSet: bool, reach: int -> bool): (r: Effect<SweepOutcome>)
    ensures !r.outcome.Swept? ==> r.tables == t
  {
    var open := OpenGroups(t);
    if open == [] then Effect(t, NothingToClose)
    else if !tokenSet then Effect(t, NoToken)
    else
      var chats := SweepChats(t, open);
      Effect(t.(groups := ClosedGroups(t.groups, open)), Swept(open, chats, Delivered(chats, reach)))
  }

  /** Nothing is closed when no group is open, and nothing when the token is missing. */
  lemma SweepDecides(t: Tables, tokenSet: bool, reach: int -> bool)
    ensures var r := Sweep(t, tokenSet, reach).outcome;
      && (r == NothingToClose <==> forall g: GroupId :: g in t.groups && g < t.nextGroup ==> t.groups[g].status !in OpenStatuses)
      && (r == NoToken <==> !tokenSet && exists g: GroupId :: g in t.groups && g < t.nextGroup && t.groups[g].status in OpenStatuses)
  {
    var open: seq<GroupId> := OpenGroups(t);
    if open != [] {
      assert open[0] in t.groups && open[0] < t.nextGroup && t.groups[open[0]].status in OpenStatuses;
    }
  }

  /** Closing `gs` closes exactly those of its groups that exist and leaves every other row alone. */
  lemma {:induction false} ClosedGroupsRows(groups: map<GroupId, Group>, gs: seq<GroupId>, g: GroupId)
    requires g in groups
    ensures var r := ClosedGroups(groups, gs);
      && (g in gs ==> r[g] == ClosedRow(groups[g]))
      && (g !in gs ==> r[g] == groups[g])
    decreases |gs|
  {
    if gs != [] {
      var n := |gs| - 1;
      ClosedGroupsRows(groups, gs[..n], g);
      assert gs == gs[..n] + [gs[n]];
    }
  }

  /**
   * After the sweep every group that was open is closed, with its name, code
   * and owner kept, and every other group is as it was; users, participants
   * and draws are untouched and the constraints still hold.
   */
  lemma SweepCloses(t: Tables, tokenSet: bool, reach: int -> bool)
    requires TablesOk(t)
    ensures var r := Sweep(t, tokenSet, reach);
      && TablesOk(r.tables)
      && r.tables.groups.Keys == t.groups.Keys
      && r.tables.users == t.users && r.tables.parts == t.parts && r.tables.draws == t.draws
      && (r.outcome.Swept? ==> forall g :: g in t.groups ==>
            if t.groups[g].status in OpenStatuses then
              && r.tables.groups[g].status == Closed && r.tables.groups[g].isClosed
              && r.tables.groups[g].name == t.groups[g].name && r.tables.groups[g].code == t.groups[g].code
              && r.tables.groups[g].owner == t.groups[g].owner
            else r.tables.groups[g] == t.groups[g])
  {
    var r := Sweep(t, tokenSet, reach);
    if r.outcome.Swept? {
      var open := OpenGroups(t);
      var groups := ClosedGroups(t.groups, open);
      assert r.tables == t.(groups := groups);
      forall g | g in t.groups
        ensures g in open <==> t.groups[g].status in OpenStatuses
        ensures groups[g] == if g in open then ClosedRow(t.groups[g]) else t.groups[g]
      {
        ClosedGroupsRows(t.groups, open, g);
      }
      SweptOk(t, groups);
    }
  }

  /** Closing some of the groups keeps the constraints. */
  lemma SweptOk(t: Tables, groups: map<GroupId, Group>)
    requires TablesOk(t)
    requires groups.Keys == t.groups.Keys
    requires forall g :: g in groups ==> groups[g] == ClosedRow(t.groups[g]) || groups[g] == t.groups[g]
    ensures TablesOk(t.(groups := groups))
  {
    var s := t.(groups := groups);
    forall g ensures GroupRowOk(s.users, s.groups, g) {
      assert GroupRowOk(t.users, t.groups, g);
    }
    forall g, h | SameCode(s.groups, g, h) ensures g == h {
      assert SameCode(t.groups, g, h);
    }
    forall p ensures PartRowOk(s.users, s.groups, s.parts, p) {
      assert PartRowOk(t.users, t.groups, t.parts, p);
    }
    forall d ensures DrawRowOk(s.groups, s.parts, s.draws, d) {
      assert DrawRowOk(t.groups, t.parts, t.draws, d);
    }
  }

  /** Every participant of `ps` that can be followed to a user has its chat listed. */
  lemma {:induction false} ChatsListed(t: Tables, ps: seq<PartId>, p: PartId)
    requires p in ps && p in t.parts && t.parts[p].user in t.users
    ensures t.users[t.parts[p].user].telegramId in Chats(t.users, t.parts, ps)
    decreases |ps|
  {
    var n := |ps| - 1;
    if ps[n] != p {
      assert p in ps[..n];
      ChatsListed(t, ps[..n], p);
    }
  }

  /** The chats of every group of `gs` are in the sweep's list. */
  lemma {:induction false} SweepChatsListed(t: Tables, gs: seq<GroupId>, g: GroupId, c: int)
    requires g in gs && c in Chats(t.users, t.parts, Members(t.parts, g, t.nextPart))
    ensures c in SweepChats(t, gs)
    decreases |gs|
  {
    var n := |gs| - 1;
    if gs[n] != g {
      assert g in gs[..n];
      SweepChatsListed(t, gs[..n], g, c);
    }
  }

  /** Participation `p` is in a group that is open in `t`. */
  ghost predicate InOpenGroup(t: Tables, p: PartId) {
    p in t.parts && t.parts[p].group in t.groups && t.parts[p].user in t.users
    && t.groups[t.parts[p].group].status in OpenStatuses
  }

  /** Every participant of every group the sweep closes is sent a notice. */
  lemma SweepNotifiesAll(t: Tables, tokenSet: bool, reach: int -> bool)
    requires TablesOk(t)
    ensures var r := Sweep(t, tokenSet, reach).outcome;
      r.Swept? ==> forall p :: InOpenGroup(t, p) ==> t.users[t.parts[p].user].telegramId in r.attempted
  {
    var r := Sweep(t, tokenSet, reach);
    if r.outcome.Swept? {
      var open := OpenGroups(t);
      assert r.outcome.attempted == SweepChats(t, open);
      forall p | InOpenGroup(t, p) ensures t.users[t.parts[p].user].telegramId in SweepChats(t, open) {
        var g := t.parts[p].group;
        assert g in open;
        ChatsListed(t, Members(t.parts, g, t.nextPart), p);
        SweepChatsListed(t, open, g, t.users[t.parts[p].user].telegramId);
      }
    }
  }

  /**
   * A failed notice stops nothing: the rows written and the notices sent are
   * the same whichever sends fail; only the number delivered differs.
   */
  lemma SweepIgnoresFailures(t: Tables, tokenSet: bool, reach: int -> bool, other: int -> bool)
    ensures var r := Sweep(t, tokenSet, reach);
      var s := Sweep(t, tokenSet, other);
      && r.tables == s.tables
      && r.outcome.Swept? == s.outcome.Swept?
      && (r.outcome.Swept? ==> r.outcome.closed == s.outcome.closed && r.outcome.attempted == s.outcome.attempted)
  {
  }

  /** Counting deliveries over two lists one after the other adds up. */
  lemma {:induction false} DeliveredAppend(a: seq<int>, b: seq<int>, reach: int -> bool)
    ensures Delivered(a + b, reach) == Delivered(a, reach) + Delivered(b, reach)
    decreases |b|
  {
    if b != [] {
      var n := |b| - 1;
      var ab := a + b;
      assert ab[..|ab| - 1] == a + b[..n] && ab[|ab| - 1] == b[n];
      DeliveredAppend(a, b[..n], reach);
      assert Delivered(ab, reach) == Delivered(a + b[..n], reach) + if reach(b[n]) then 1 else 0;
    } else {
      assert a + b == a;
    }
  }

  /** With every chat reachable, every notice is delivered. */
  lemma {:induction false} AllDelivered(chats: seq<int>, reach: int -> bool)
    requires forall c :: reach(c)
    ensures Delivered(chats, reach) == |chats|
    decreases |chats|
  {
    if chats != [] {
      AllDelivered(chats[..|chats| - 1], reach);
    }
  }
}
