// The database behind the handlers of bot/bot_handler.py: the four tables of
// bot/models.py as maps from primary key to row, with the keys handed out by
// counters. A query without order_by is read in primary-key order, which is
// also the order in which rows were created.
//
// The constraints of the models are stated row by row (GroupRowOk,
// SameTelegramId, ...), so that a proof names the rows it needs.

module Store {
  import opened Text
  import opened Domain

  // ------------------------------------------------------------------ queries

  /** The keys below `n` whose row satisfies `hit`, in increasing order (a filtered query). */
  function KeysWhere<V>(m: map<nat, V>, hit: V -> bool, n: nat): (r: seq<nat>)
    ensures forall i :: 0 <= i < |r| ==> r[i] < n && r[i] in m && hit(m[r[i]])
    ensures forall i, j :: 0 <= i < j < |r| ==> r[i] < r[j]
    ensures forall k: nat :: k < n && k in m && hit(m[k]) ==> k in r
  {
    if n == 0 then []
    else
      var front := KeysWhere(m, hit, n - 1);
      if n - 1 in m && hit(m[n - 1]) then front + [n - 1] else front
  }

  /** QuerySet.first(): the row with the smallest key. */
  function First(keys: seq<nat>): (r: Option<nat>)
    ensures r.None? <==> keys == []
    ensures r.Some? ==> r.value == keys[0]
  {
    if keys == [] then None else Some(keys[0])
  }

  function HasTelegramId(tid: int): User -> bool {
    (u: User) => u.telegramId == tid
  }

  function HasCode(code: string): Group -> bool {
    (g: Group) => g.code == code
  }

  function OwnedIn(owner: UserKey, statuses: set<Status>): Group -> bool {
    (g: Group) => g.owner == owner && g.status in statuses
  }

  function InGroup(g: GroupId): Participant -> bool {
    (p: Participant) => p.group == g
  }

  function InGroupAs(g: GroupId, u: UserKey): Participant -> bool {
    (p: Participant) => p.group == g && p.user == u
  }

  /** Participant.objects.filter(group=g). */
  function Members(parts: map<PartId, Participant>, g: GroupId, n: nat): seq<PartId> {
    KeysWhere(parts, InGroup(g), n)
  }

  /** Participant.objects.filter(group=g, user=u). */
  function Membership(parts: map<PartId, Participant>, g: GroupId, u: UserKey, n: nat): seq<PartId> {
    KeysWhere(parts, InGroupAs(g, u), n)
  }

  /** Every join code in use. */
  function Codes(groups: map<GroupId, Group>): set<string> {
    set g | g in groups :: groups[g].code
  }

  // --------------------------------------------------------------- invariants

  /** Every key is a positive number below the next key to be handed out. */
  ghost predicate KeysBelow(keys: set<nat>, n: nat) {
    forall k :: k in keys ==> 1 <= k < n
  }

  ghost predicate SameTelegramId(users: map<UserKey, User>, u: UserKey, v: UserKey) {
    u in users && v in users && users[u].telegramId == users[v].telegramId
  }

  /** TelegramUser.telegram_id is unique. */
  ghost predicate UsersOk(users: map<UserKey, User>) {
    forall u, v :: SameTelegramId(users, u, v) ==> u == v
  }

  /** A stored group has a stored owner and went through save(). */
  ghost predicate GroupRowOk(users: map<UserKey, User>, groups: map<GroupId, Group>, g: GroupId) {
    g in groups ==> groups[g].owner in users && IsSaved(groups[g])
  }

  ghost predicate GroupsOk(users: map<UserKey, User>, groups: map<GroupId, Group>) {
    forall g :: GroupRowOk(users, groups, g)
  }

  ghost predicate SameCode(groups: map<GroupId, Group>, g: GroupId, h: GroupId) {
    g in groups && h in groups && groups[g].code == groups[h].code
  }

  /** Group.code is unique. */
  ghost predicate CodesUnique(groups: map<GroupId, Group>) {
    forall g, h :: SameCode(groups, g, h) ==> g == h
  }

  /** A participant refers to a stored group and a stored user. */
  ghost predicate PartRowOk(users: map<UserKey, User>, groups: map<GroupId, Group>, parts: map<PartId, Participant>, p: PartId) {
    p in parts ==> parts[p].group in groups && parts[p].user in users
  }

  ghost predicate PartsOk(users: map<UserKey, User>, groups: map<GroupId, Group>, parts: map<PartId, Participant>) {
    forall p :: PartRowOk(users, groups, parts, p)
  }

  ghost predicate SameMembership(parts: map<PartId, Participant>, p: PartId, q: PartId) {
    p in parts && q in parts && parts[p].group == parts[q].group && parts[p].user == parts[q].user
  }

  /** unique_together (group, user) of Participant. */
  ghost predicate MembershipsUnique(parts: map<PartId, Participant>) {
    forall p, q :: SameMembership(parts, p, q) ==> p == q
  }

  /** A draw refers to stored rows, and its group no longer accepts participants. */
  ghost predicate DrawRowOk(groups: map<GroupId, Group>, parts: map<PartId, Participant>, draws: map<DrawId, Draw>, d: DrawId) {
    d in draws ==>
      && draws[d].group in groups && draws[d].giver in parts && draws[d].receiver in parts
      && groups[draws[d].group].status != Active
  }

  ghost predicate DrawsOk(groups: map<GroupId, Group>, parts: map<PartId, Participant>, draws: map<DrawId, Draw>) {
    forall d :: DrawRowOk(groups, parts, draws, d)
  }

  ghost predicate SameGiver(draws: map<DrawId, Draw>, d: DrawId, e: DrawId) {
    d in draws && e in draws && draws[d].group == draws[e].group && draws[d].giver == draws[e].giver
  }

  /** unique_together (group, giver) of Draw. */
  ghost predicate GiversUnique(draws: map<DrawId, Draw>) {
    forall d, e :: SameGiver(draws, d, e) ==> d == e
  }

  // ------------------------------------------------------------------- tables

  /** The four tables together with the next primary key of each. */
  datatype Tables = Tables(
    users: map<UserKey, User>,
    groups: map<GroupId, Group>,
    parts: map<PartId, Participant>,
    draws: map<DrawId, Draw>,
    nextUser: nat,
    nextGroup: nat,
    nextPart: nat,
    nextDraw: nat)

  /** The empty database. */
  const Empty: Tables := Tables(map[], map[], map[], map[], 1, 1, 1, 1)

  /** The constraints of bot/models.py, and the rules the handlers keep, in every committed state. */
  ghost predicate TablesOk(t: Tables) {
    && 1 <= t.nextUser && 1 <= t.nextGroup && 1 <= t.nextPart && 1 <= t.nextDraw
    && KeysBelow(t.users.Keys, t.nextUser) && KeysBelow(t.groups.Keys, t.nextGroup)
    && KeysBelow(t.parts.Keys, t.nextPart) && KeysBelow(t.draws.Keys, t.nextDraw)
    && UsersOk(t.users)
    && GroupsOk(t.users, t.groups) && CodesUnique(t.groups)
    && PartsOk(t.users, t.groups, t.parts) && MembershipsUnique(t.parts)
    && DrawsOk(t.groups, t.parts, t.draws) && GiversUnique(t.draws)
  }

  /** TelegramUser.objects.get(telegram_id=tid); None is DoesNotExist. */
  function LookupUser(t: Tables, tid: int): (r: Option<UserKey>)
    ensures r.Some? ==> r.value in t.users && t.users[r.value].telegramId == tid
    ensures r.None? ==> forall k: nat :: k < t.nextUser && k in t.users ==> t.users[k].telegramId != tid
  {
    First(KeysWhere(t.users, HasTelegramId(tid), t.nextUser))
  }

  /** In a consistent state the lookup finds the one user with that Telegram id. */
  lemma LookupFinds(t: Tables, k: UserKey)
    requires TablesOk(t) && k in t.users
    ensures LookupUser(t, t.users[k].telegramId) == Some(k)
  {
    var r := LookupUser(t, t.users[k].telegramId);
    assert SameTelegramId(t.users, r.value, k);
  }

  /** Group.objects.get(code=code); None is DoesNotExist. */
  function GroupByCode(t: Tables, code: string): (r: Option<GroupId>)
    ensures r.Some? ==> r.value in t.groups && t.groups[r.value].code == code
    ensures r.None? ==> forall k: nat :: k < t.nextGroup && k in t.groups ==> t.groups[k].code != code
  {
    First(KeysWhere(t.groups, HasCode(code), t.nextGroup))
  }

  /** In a consistent state a code finds the one group that carries it. */
  lemma GroupByCodeFinds(t: Tables, g: GroupId)
    requires TablesOk(t) && g in t.groups
    ensures GroupByCode(t, t.groups[g].code) == Some(g)
  {
    var r := GroupByCode(t, t.groups[g].code);
    assert SameCode(t.groups, r.value, g);
  }

  /** Group.objects.filter(owner=owner, status__in=statuses).first(). */
  function OwnedGroup(t: Tables, owner: UserKey, statuses: set<Status>): (r: Option<GroupId>)
    ensures r.Some? ==> r.value in t.groups && t.groups[r.value].owner == owner && t.groups[r.value].status in statuses
    ensures r.None? ==> forall k: nat :: k < t.nextGroup && k in t.groups && t.groups[k].owner == owner ==> t.groups[k].status !in statuses
    ensures r.Some? ==> forall k: nat :: k < r.value && k in t.groups && t.groups[k].owner == owner ==> t.groups[k].status !in statuses
  {
    var keys := KeysWhere(t.groups, OwnedIn(owner, statuses), t.nextGroup);
    assert forall k: nat :: keys != [] && k < keys[0] && k in t.groups && OwnedIn(owner, statuses)(t.groups[k]) ==> k !in keys;
    First(keys)
  }

  const OpenStatuses: set<Status> := {Active, Drawn, Distribution}

  // ----------------------------------------------------------- row creation

  /** TelegramUser.objects.get_or_create(telegram_id=...): a new row takes the sender's names. */
  function WithUser(t: Tables, sender: User): Tables {
    if LookupUser(t, sender.telegramId).Some? then t
    else t.(users := t.users[t.nextUser := sender], nextUser := t.nextUser + 1)
  }

  /** get_or_create keeps the constraints, leaves a stored user as it was, and touches no other table. */
  lemma WithUserOk(t: Tables, sender: User)
    requires TablesOk(t)
    ensures var r := WithUser(t, sender);
      && TablesOk(r)
      && LookupUser(r, sender.telegramId).Some?
      && r.groups == t.groups && r.parts == t.parts && r.draws == t.draws
      && r.nextGroup == t.nextGroup && r.nextPart == t.nextPart && r.nextDraw == t.nextDraw
      && t.users.Keys <= r.users.Keys && (forall k :: k in t.users ==> r.users[k] == t.users[k])
  {
    if LookupUser(t, sender.telegramId).None? {
      var r := WithUser(t, sender);
      var n := t.nextUser;
      forall u, v | SameTelegramId(r.users, u, v) ensures u == v {
        if u != n && v != n {
          assert SameTelegramId(t.users, u, v);
        }
      }
      GroupsOkWiderUsers(t.users, r.users, t.groups);
      PartsOkWiderUsers(t.users, r.users, t.groups, t.parts);
      LookupFinds(r, n);
    }
  }

  lemma GroupsOkWiderUsers(users: map<UserKey, User>, wider: map<UserKey, User>, groups: map<GroupId, Group>)
    requires GroupsOk(users, groups) && users.Keys <= wider.Keys
    ensures GroupsOk(wider, groups)
  {
    forall g ensures GroupRowOk(wider, groups, g) {
      assert GroupRowOk(users, groups, g);
    }
  }

  lemma PartsOkWiderUsers(users: map<UserKey, User>, wider: map<UserKey, User>, groups: map<GroupId, Group>, parts: map<PartId, Participant>)
    requires PartsOk(users, groups, parts) && users.Keys <= wider.Keys
    ensures PartsOk(wider, groups, parts)
  {
    forall p ensures PartRowOk(wider, groups, parts, p) {
      assert PartRowOk(users, groups, parts, p);
    }
  }

  /**
   * /start: get_or_create the sender; a user already stored gets the
   * sender's username and first name written over the stored ones.
   */
  function Touch(t: Tables, sender: User): Tables {
    var found := LookupUser(t, sender.telegramId);
    if found.Some? then t.(users := t.users[found.value := sender]) else WithUser(t, sender)
  }

  /**
   * /start keeps the constraints, leaves exactly one row for the sender
   * holding the sender's names, keeps every other user row and touches no
   * other table.
   */
  lemma TouchOk(t: Tables, sender: User)
    requires TablesOk(t)
    ensures var r := Touch(t, sender);
      && TablesOk(r)
      && LookupUser(r, sender.telegramId).Some?
      && r.users[LookupUser(r, sender.telegramId).value] == sender
      && (forall k :: k in r.users && r.users[k].telegramId == sender.telegramId ==> k == LookupUser(r, sender.telegramId).value)
      && r.groups == t.groups && r.parts == t.parts && r.draws == t.draws
      && r.nextGroup == t.nextGroup && r.nextPart == t.nextPart && r.nextDraw == t.nextDraw
      && t.users.Keys <= r.users.Keys
      && (forall k :: k in t.users && t.users[k].telegramId != sender.telegramId ==> r.users[k] == t.users[k])
  {
    var r := Touch(t, sender);
    var found := LookupUser(t, sender.telegramId);
    if found.Some? {
      var n := found.value;
      forall u, v | SameTelegramId(r.users, u, v) ensures u == v {
        assert SameTelegramId(t.users, u, v);
      }
      GroupsOkWiderUsers(t.users, r.users, t.groups);
      PartsOkWiderUsers(t.users, r.users, t.groups, t.parts);
      LookupFinds(r, n);
    } else {
      WithUserOk(t, sender);
      LookupFinds(r, t.nextUser);
    }
    var key := LookupUser(r, sender.telegramId).value;
    forall k | k in r.users && r.users[k].telegramId == sender.telegramId ensures k == key {
      assert SameTelegramId(r.users, k, key);
    }
  }

  /** The row Group.objects.create saves: the given values, the code and the owner, status active. */
  function NewGroup(name: string, code: string, owner: UserKey, description: string, giftViaBot: bool,
                    drawDate: Date, distributionDate: Date, closeDate: Option<Date>): (r: Group)
    ensures IsSaved(r) && r.status == Active && r.owner == owner && r.code == code && r.drawnAt.None?
    ensures r.name == name && r.description == description && r.giftViaBot == giftViaBot
    ensures r.drawDate == Some(drawDate) && r.distributionDate == Some(distributionDate)
    ensures r.closeDate == Some(if closeDate.Some? then closeDate.value else distributionDate + 1)
  {
    Save(Group(name, code, owner, description, giftViaBot, Active,
               Some(drawDate), Some(distributionDate), closeDate, false, None))
  }

  /** A new participant row: the default name, no gift yet. */
  function NewParticipant(t: Tables, g: GroupId, u: UserKey): Participant
    requires u in t.users
  {
    Participant(g, u, DefaultName(t.users[u]), None, None, false)
  }

  /** Participant.objects.create(group=g, user=u, name=default_name). */
  function WithParticipant(t: Tables, g: GroupId, u: UserKey): Tables
    requires u in t.users
  {
    t.(parts := t.parts[t.nextPart := NewParticipant(t, g, u)], nextPart := t.nextPart + 1)
  }

  /** A join that found no participation of `u` in `g` adds exactly one, under the next key. */
  lemma WithParticipantOk(t: Tables, g: GroupId, u: UserKey)
    requires TablesOk(t) && g in t.groups && u in t.users
    requires Membership(t.parts, g, u, t.nextPart) == []
    ensures TablesOk(WithParticipant(t, g, u))
  {
    var r := WithParticipant(t, g, u);
    var n := t.nextPart;
    forall p ensures PartRowOk(r.users, r.groups, r.parts, p) {
      assert PartRowOk(t.users, t.groups, t.parts, p);
    }
    forall p, q | SameMembership(r.parts, p, q) ensures p == q {
      if p != n && q != n {
        assert SameMembership(t.parts, p, q);
      }
    }
    DrawsOkWiderParts(t.groups, t.parts, r.parts, t.draws);
  }

  lemma DrawsOkWiderParts(groups: map<GroupId, Group>, parts: map<PartId, Participant>, wider: map<PartId, Participant>, draws: map<DrawId, Draw>)
    requires DrawsOk(groups, parts, draws) && parts.Keys <= wider.Keys
    ensures DrawsOk(groups, wider, draws)
  {
    forall d ensures DrawRowOk(groups, wider, draws, d) {
      assert DrawRowOk(groups, parts, draws, d);
    }
  }

  /** The group row and, as its first participant, the owner (create_group_close_date). */
  function WithGroup(t: Tables, owner: UserKey, group: Group): Tables
    requires owner in t.users
  {
    t.(groups := t.groups[t.nextGroup := group], nextGroup := t.nextGroup + 1,
       parts := t.parts[t.nextPart := NewParticipant(t, t.nextGroup, owner)], nextPart := t.nextPart + 1)
  }

  /** A created group with a fresh code keeps the constraints. */
  lemma WithGroupOk(t: Tables, owner: UserKey, group: Group)
    requires TablesOk(t) && owner in t.users && group.owner == owner && IsSaved(group)
    requires group.code !in Codes(t.groups)
    ensures TablesOk(WithGroup(t, owner, group))
  {
    var r := WithGroup(t, owner, group);
    var g := t.nextGroup;
    forall h ensures GroupRowOk(r.users, r.groups, h) {
      assert GroupRowOk(t.users, t.groups, h);
    }
    forall h, k | SameCode(r.groups, h, k) ensures h == k {
      if h != g && k != g {
        assert SameCode(t.groups, h, k);
      }
    }
    forall p ensures PartRowOk(r.users, r.groups, r.parts, p) {
      assert PartRowOk(t.users, t.groups, t.parts, p);
    }
    forall p, q | SameMembership(r.parts, p, q) ensures p == q {
      if p != t.nextPart {
        assert PartRowOk(t.users, t.groups, t.parts, p);
      }
      if q != t.nextPart {
        assert PartRowOk(t.users, t.groups, t.parts, q);
      }
      if p != t.nextPart && q != t.nextPart {
        assert SameMembership(t.parts, p, q);
      }
    }
    forall d ensures DrawRowOk(r.groups, r.parts, r.draws, d) {
      assert DrawRowOk(t.groups, t.parts, t.draws, d);
    }
  }

  /** The owner is the one participant of the group just created. */
  lemma OwnerIsOnlyMember(t: Tables, owner: UserKey, group: Group)
    requires TablesOk(t) && owner in t.users
    ensures var r := WithGroup(t, owner, group);
      forall p :: p in r.parts && r.parts[p].group == t.nextGroup <==> p == t.nextPart
    ensures WithGroup(t, owner, group).parts[t.nextPart].user == owner
  {
    var r := WithGroup(t, owner, group);
    forall p | p in r.parts && r.parts[p].group == t.nextGroup ensures p == t.nextPart {
      assert PartRowOk(t.users, t.groups, t.parts, p);
    }
  }

  // ------------------------------------------------------------------ updates

  /** Row `p` saved with new contents (set_name, send_gift); its group and user stay. */
  function SetPart(t: Tables, p: PartId, part: Participant): Tables {
    t.(parts := t.parts[p := part])
  }

  lemma SetPartOk(t: Tables, p: PartId, part: Participant)
    requires TablesOk(t) && p in t.parts && part.group == t.parts[p].group && part.user == t.parts[p].user
    ensures TablesOk(SetPart(t, p, part))
  {
    var r := SetPart(t, p, part);
    forall q ensures PartRowOk(r.users, r.groups, r.parts, q) {
      assert PartRowOk(t.users, t.groups, t.parts, q);
    }
    forall q, s | SameMembership(r.parts, q, s) ensures q == s {
      assert SameMembership(t.parts, q, s);
    }
    DrawsOkWiderParts(t.groups, t.parts, r.parts, t.draws);
  }

  /** Group `g` saved with new contents (draw, distribute, close); owner and code stay. */
  function SetGroup(t: Tables, g: GroupId, group: Group): Tables {
    t.(groups := t.groups[g := group])
  }

  /** Saving a group keeps the constraints unless it would reopen a group that has draws. */
  lemma SetGroupOk(t: Tables, g: GroupId, group: Group)
    requires TablesOk(t) && g in t.groups && IsSaved(group)
    requires group.owner == t.groups[g].owner && group.code == t.groups[g].code
    requires group.status == Active ==> t.groups[g].status == Active
    ensures TablesOk(SetGroup(t, g, group))
  {
    var r := SetGroup(t, g, group);
    forall h ensures GroupRowOk(r.users, r.groups, h) {
      assert GroupRowOk(t.users, t.groups, h);
    }
    forall h, k | SameCode(r.groups, h, k) ensures h == k {
      assert SameCode(t.groups, h, k);
    }
    forall p ensures PartRowOk(r.users, r.groups, r.parts, p) {
      assert PartRowOk(t.users, t.groups, t.parts, p);
    }
    forall d ensures DrawRowOk(r.groups, r.parts, r.draws, d) {
      assert DrawRowOk(t.groups, t.parts, t.draws, d);
    }
  }

  // ---------------------------------------------------------------- deletions

  /** The participants left when group `g` is deleted (on_delete=CASCADE). */
  function PartsOutside(parts: map<PartId, Participant>, g: GroupId): (r: map<PartId, Participant>)
    ensures forall p :: p in r <==> p in parts && parts[p].group != g
    ensures forall p :: p in r ==> r[p] == parts[p]
  {
    map p | p in parts && parts[p].group != g :: parts[p]
  }

  /** The draws left when their group, giver or receiver is gone (on_delete=CASCADE). */
  function DrawsWithin(draws: map<DrawId, Draw>, groups: map<GroupId, Group>, parts: map<PartId, Participant>): (r: map<DrawId, Draw>)
    ensures forall d :: d in r <==> d in draws && draws[d].group in groups && draws[d].giver in parts && draws[d].receiver in parts
    ensures forall d :: d in r ==> r[d] == draws[d]
  {
    map d | d in draws && draws[d].group in groups && draws[d].giver in parts && draws[d].receiver in parts :: draws[d]
  }

  /** participation.delete(): the row goes, and with it every draw it gives or receives. */
  function RemovePart(t: Tables, p: PartId): Tables {
    t.(parts := t.parts - {p}, draws := DrawsWithin(t.draws, t.groups, t.parts - {p}))
  }

  /** After leaving, nothing refers to the deleted participation, and the other rows are as they were. */
  lemma RemovePartOk(t: Tables, p: PartId)
    requires TablesOk(t)
    ensures var r := RemovePart(t, p);
      && TablesOk(r)
      && p !in r.parts
      && (forall d :: d in r.draws ==> r.draws[d].giver != p && r.draws[d].receiver != p)
      && (forall q :: q in t.parts && q != p <==> q in r.parts)
      && (forall q :: q in r.parts ==> r.parts[q] == t.parts[q])
      && r.users == t.users && r.groups == t.groups
  {
    var r := RemovePart(t, p);
    forall q ensures PartRowOk(r.users, r.groups, r.parts, q) {
      assert PartRowOk(t.users, t.groups, t.parts, q);
    }
    forall q, s | SameMembership(r.parts, q, s) ensures q == s {
      assert SameMembership(t.parts, q, s);
    }
    DrawsWithinOk(t, r.groups, r.parts);
  }

  /** group.delete(): the group goes, and by cascade its participants and every draw touching them. */
  function RemoveGroup(t: Tables, g: GroupId): Tables {
    var groups := t.groups - {g};
    var parts := PartsOutside(t.parts, g);
    t.(groups := groups, parts := parts, draws := DrawsWithin(t.draws, groups, parts))
  }

  /** After deleting a group nothing refers to it, and the other groups are untouched. */
  lemma RemoveGroupOk(t: Tables, g: GroupId)
    requires TablesOk(t)
    ensures var r := RemoveGroup(t, g);
      && TablesOk(r)
      && g !in r.groups
      && (forall p :: p in r.parts ==> r.parts[p].group != g)
      && (forall d :: d in r.draws ==> r.draws[d].group != g)
      && (forall h :: h in t.groups && h != g <==> h in r.groups)
      && (forall h :: h in r.groups ==> r.groups[h] == t.groups[h])
      && (forall p :: p in t.parts && t.parts[p].group != g ==> p in r.parts && r.parts[p] == t.parts[p])
      && r.users == t.users
  {
    var r := RemoveGroup(t, g);
    forall h ensures GroupRowOk(r.users, r.groups, h) {
      assert GroupRowOk(t.users, t.groups, h);
    }
    forall h, k | SameCode(r.groups, h, k) ensures h == k {
      assert SameCode(t.groups, h, k);
    }
    forall q ensures PartRowOk(r.users, r.groups, r.parts, q) {
      assert PartRowOk(t.users, t.groups, t.parts, q);
    }
    forall q, s | SameMembership(r.parts, q, s) ensures q == s {
      assert SameMembership(t.parts, q, s);
    }
    DrawsWithinOk(t, r.groups, r.parts);
  }

  /** The draws a cascade keeps satisfy the draw constraints over the rows that remain. */
  lemma DrawsWithinOk(t: Tables, groups: map<GroupId, Group>, parts: map<PartId, Participant>)
    requires TablesOk(t)
    requires forall h :: h in groups ==> h in t.groups && groups[h] == t.groups[h]
    ensures var kept := DrawsWithin(t.draws, groups, parts);
      DrawsOk(groups, parts, kept) && GiversUnique(kept) && KeysBelow(kept.Keys, t.nextDraw)
  {
    var kept := DrawsWithin(t.draws, groups, parts);
    forall d ensures DrawRowOk(groups, parts, kept, d) {
      assert DrawRowOk(t.groups, t.parts, t.draws, d);
    }
    forall d, e | SameGiver(kept, d, e) ensures d == e {
      assert SameGiver(t.draws, d, e);
    }
  }

  // -------------------------------------------------------------------- draws

  /** No value occurs twice. */
  predicate Distinct(s: seq<nat>) {
    forall i, j :: 0 <= i < j < |s| ==> s[i] != s[j]
  }

  /** The keys a query returns are distinct, since they increase. */
  lemma KeysWhereDistinct<V>(m: map<nat, V>, hit: V -> bool, n: nat)
    ensures Distinct(KeysWhere(m, hit, n))
  {
  }

  lemma {:induction false} DistinctCountsOnce(s: seq<nat>, x: nat)
    requires Distinct(s)
    ensures multiset(s)[x] <= 1
  {
    if s != [] {
      var front := s[..|s| - 1];
      assert s == front + [s[|s| - 1]];
      DistinctCountsOnce(front, x);
      assert s[|s| - 1] !in front;
    }
  }

  lemma RepeatCountsTwice(s: seq<nat>, i: nat, j: nat)
    requires i < j < |s| && s[i] == s[j]
    ensures multiset(s)[s[i]] >= 2
  {
    assert s == s[..j] + s[j..];
    assert s[i] == s[..j][i];
    assert s[j] == s[j..][0];
  }

  /** A reordering of a list without repetitions has none either. */
  lemma {:induction false} DistinctPermutation(a: seq<nat>, b: seq<nat>)
    requires Distinct(a) && multiset(a) == multiset(b)
    ensures Distinct(b)
  {
    forall i, j | 0 <= i < j < |b| ensures b[i] != b[j] {
      if b[i] == b[j] {
        RepeatCountsTwice(b, i, j);
        DistinctCountsOnce(a, b[i]);
      }
    }
  }

  /** The Draw rows the draw handler creates, keys from `start` on: giver i gives to receiver i. */
  function DrawRows(start: nat, g: GroupId, givers: seq<PartId>, receivers: seq<PartId>): (r: map<DrawId, Draw>)
    requires |givers| == |receivers|
    ensures forall d: DrawId :: d in r <==> start <= d < start + |givers|
    ensures forall i :: 0 <= i < |givers| ==> start + i in r && r[start + i] == Draw(g, givers[i], receivers[i])
    decreases |givers|
  {
    if givers == [] then map[]
    else
      var n := |givers| - 1;
      DrawRows(start, g, givers[..n], receivers[..n])[start + n := Draw(g, givers[n], receivers[n])]
  }

  /** The saved group after the draw: status drawn, drawn_at now. */
  function DrawnRow(group: Group, now: Instant): (r: Group)
    ensures IsSaved(r) && r.status == Drawn && r.drawnAt == Some(now)
    ensures r.owner == group.owner && r.code == group.code && r.name == group.name
  {
    Save(group.(status := Drawn, drawnAt := Some(now)))
  }

  /** The Draw rows appended to the table, keys from the counter on. */
  function AddDraws(t: Tables, g: GroupId, givers: seq<PartId>, receivers: seq<PartId>): Tables
    requires |givers| == |receivers|
  {
    t.(draws := t.draws + DrawRows(t.nextDraw, g, givers, receivers), nextDraw := t.nextDraw + |givers|)
  }

  /**
   * The draw handler's writes: one Draw per pair, then the group saved as
   * drawn (the final tables do not depend on that order).
   */
  function WithDraws(t: Tables, g: GroupId, givers: seq<PartId>, receivers: seq<PartId>, now: Instant): Tables
    requires g in t.groups && |givers| == |receivers|
  {
    AddDraws(SetGroup(t, g, DrawnRow(t.groups[g], now)), g, givers, receivers)
  }

  /** The new rows and the old ones refer to stored groups and participants of groups that are not active. */
  lemma NewDrawRowsOk(t: Tables, g: GroupId, givers: seq<PartId>, receivers: seq<PartId>)
    requires TablesOk(t) && g in t.groups && t.groups[g].status != Active && |givers| == |receivers|
    requires forall i :: 0 <= i < |givers| ==> givers[i] in t.parts && receivers[i] in t.parts
    ensures var r := AddDraws(t, g, givers, receivers);
      DrawsOk(r.groups, r.parts, r.draws)
  {
    var r := AddDraws(t, g, givers, receivers);
    var added := DrawRows(t.nextDraw, g, givers, receivers);
    forall d: DrawId ensures DrawRowOk(r.groups, r.parts, r.draws, d) {
      if d in added {
        assert givers[d - t.nextDraw] in t.parts;
      } else {
        assert DrawRowOk(t.groups, t.parts, t.draws, d);
      }
    }
  }

  /** With the givers distinct and no earlier draw in the group, no giver has two draws in it. */
  lemma NewGiversUnique(t: Tables, g: GroupId, givers: seq<PartId>, receivers: seq<PartId>)
    requires TablesOk(t) && |givers| == |receivers| && Distinct(givers)
    requires forall d :: d in t.draws ==> t.draws[d].group != g
    ensures var r := AddDraws(t, g, givers, receivers);
      && GiversUnique(r.draws)
      && (forall d: DrawId :: d in r.draws && r.draws[d].group == g ==> t.nextDraw <= d < r.nextDraw)
  {
    var r := AddDraws(t, g, givers, receivers);
    var added := DrawRows(t.nextDraw, g, givers, receivers);
    forall d: DrawId, e: DrawId | SameGiver(r.draws, d, e) ensures d == e {
      if d !in added && e !in added {
        assert SameGiver(t.draws, d, e);
      } else if d in added && e in added {
        assert givers[d - t.nextDraw] == givers[e - t.nextDraw];
      }
    }
  }

  /** Appending the draws of a group that has none and is no longer active keeps the constraints. */
  lemma AddDrawsOk(t: Tables, g: GroupId, givers: seq<PartId>, receivers: seq<PartId>)
    requires TablesOk(t) && g in t.groups && t.groups[g].status != Active
    requires |givers| == |receivers| && Distinct(givers)
    requires forall i :: 0 <= i < |givers| ==> givers[i] in t.parts && receivers[i] in t.parts
    requires forall d :: d in t.draws ==> t.draws[d].group != g
    ensures var r := AddDraws(t, g, givers, receivers);
      && TablesOk(r)
      && (forall d: DrawId :: d in r.draws && r.draws[d].group == g ==> t.nextDraw <= d < r.nextDraw)
  {
    NewDrawRowsOk(t, g, givers, receivers);
    NewGiversUnique(t, g, givers, receivers);
  }

  /** The elements of a reordering are elements of the original. */
  lemma PermutationElements(a: seq<nat>, b: seq<nat>)
    requires multiset(a) == multiset(b)
    ensures forall i :: 0 <= i < |b| ==> b[i] in a
  {
    forall i | 0 <= i < |b| ensures b[i] in a {
      assert b[i] in multiset(b);
    }
  }

  /**
   * Drawing an active group over its members, with the receivers a reordering
   * of the members, keeps the constraints; the group's draws are exactly the
   * new rows.
   */
  lemma WithDrawsOk(t: Tables, g: GroupId, receivers: seq<PartId>, now: Instant)
    requires TablesOk(t) && g in t.groups && t.groups[g].status == Active
    requires multiset(receivers) == multiset(Members(t.parts, g, t.nextPart))
    ensures |receivers| == |Members(t.parts, g, t.nextPart)|
    ensures var r := WithDraws(t, g, Members(t.parts, g, t.nextPart), receivers, now);
      && TablesOk(r)
      && (forall d: DrawId :: d in r.draws && r.draws[d].group == g ==> t.nextDraw <= d < r.nextDraw)
  {
    var givers := Members(t.parts, g, t.nextPart);
    assert |receivers| == |multiset(receivers)| == |multiset(givers)| == |givers|;
    var s := SetGroup(t, g, DrawnRow(t.groups[g], now));
    SetGroupOk(t, g, DrawnRow(t.groups[g], now));
    forall d | d in t.draws ensures t.draws[d].group != g {
      assert DrawRowOk(t.groups, t.parts, t.draws, d);
    }
    PermutationElements(givers, receivers);
    KeysWhereDistinct(t.parts, InGroup(g), t.nextPart);
    AddDrawsOk(s, g, givers, receivers);
  }

  /**
   * Every member of the drawn group gives exactly one gift and receives exactly
   * one: the givers are the members without repetition, and so are the receivers.
   */
  lemma DrawPairsEveryMember(t: Tables, g: GroupId, receivers: seq<PartId>)
    requires multiset(receivers) == multiset(Members(t.parts, g, t.nextPart))
    requires KeysBelow(t.parts.Keys, t.nextPart)
    ensures var givers := Members(t.parts, g, t.nextPart);
      && Distinct(givers) && Distinct(receivers)
      && (forall p :: p in t.parts && t.parts[p].group == g <==> p in givers)
      && (forall p :: p in givers <==> p in receivers)
  {
    var givers := Members(t.parts, g, t.nextPart);
    KeysWhereDistinct(t.parts, InGroup(g), t.nextPart);
    DistinctPermutation(givers, receivers);
    forall p ensures p in givers <==> p in receivers {
      assert p in givers <==> p in multiset(givers);
    }
  }

  // ------------------------------------------------------------ distribution

  /** The saved group after a status change that is not a draw (distribute, close). */
  function WithStatus(group: Group, status: Status): (r: Group)
    ensures IsSaved(r) && r.status == status
    ensures r.owner == group.owner && r.code == group.code && r.name == group.name
    ensures r.drawnAt == group.drawnAt && r.giftViaBot == group.giftViaBot
    ensures r.distributionDate == group.distributionDate
    ensures group.closeDate.Some? ==> r.closeDate == group.closeDate
    ensures group.closeDate.None? && group.distributionDate.Some? ==> r.closeDate == Some(group.distributionDate.value + 1)
  {
    Save(group.(status := status))
  }

  // ------------------------------------------------------------------ senders

  /** What a handler wrote, together with what it reports. */
  datatype Effect<O> = Effect(tables: Tables, outcome: O)

  /** The key of the sender's row after get_or_create. */
  function SenderKey(t: Tables, sender: User): (k: UserKey)
    requires TablesOk(t)
    ensures k in WithUser(t, sender).users && WithUser(t, sender).users[k].telegramId == sender.telegramId
    ensures LookupUser(WithUser(t, sender), sender.telegramId) == Some(k)
  {
    WithUserOk(t, sender);
    LookupUser(WithUser(t, sender), sender.telegramId).value
  }

  /** A stored user is the sender exactly when its key is the one get_or_create returns. */
  lemma SenderKeyUnique(t: Tables, sender: User, u: UserKey)
    requires TablesOk(t) && u in t.users
    ensures t.users[u].telegramId == sender.telegramId <==> u == SenderKey(t, sender)
  {
    WithUserOk(t, sender);
    var s := WithUser(t, sender);
    assert SameTelegramId(s.users, u, SenderKey(t, sender)) ==> u == SenderKey(t, sender);
  }

  /** A stored user is the registered sender exactly when its key is the one the lookup returns. */
  lemma LookupKeyUnique(t: Tables, tid: int, u: UserKey)
    requires TablesOk(t) && u in t.users && LookupUser(t, tid).Some?
    ensures t.users[u].telegramId == tid <==> u == LookupUser(t, tid).value
  {
    assert SameTelegramId(t.users, u, LookupUser(t, tid).value) ==> u == LookupUser(t, tid).value;
  }

  /** Group `g` belongs to the Telegram user `tid`. */
  ghost predicate OwnedBy(t: Tables, g: GroupId, tid: int) {
    g in t.groups && t.groups[g].owner in t.users && t.users[t.groups[g].owner].telegramId == tid
  }

  /** Participation `p` belongs to the Telegram user `tid`. */
  ghost predicate HeldBy(t: Tables, p: PartId, tid: int) {
    p in t.parts && t.parts[p].user in t.users && t.users[t.parts[p].user].telegramId == tid
  }

  /** The Telegram user `tid` takes part in group `g`. */
  ghost predicate IsMember(t: Tables, g: GroupId, tid: int) {
    exists p :: HeldBy(t, p, tid) && t.parts[p].group == g
  }

  /** Whether the owner of `g` is the user stored under `k` depends only on the Telegram id. */
  lemma OwnedByKey(t: Tables, k: UserKey, g: GroupId)
    requires TablesOk(t) && k in t.users
    ensures OwnedBy(t, g, t.users[k].telegramId) <==> g in t.groups && t.groups[g].owner == k
  {
    if g in t.groups {
      assert GroupRowOk(t.users, t.groups, g);
      assert SameTelegramId(t.users, t.groups[g].owner, k) ==> t.groups[g].owner == k;
    }
  }

  /** Whether participation `p` is held by the user stored under `k` depends only on the Telegram id. */
  lemma HeldByKey(t: Tables, k: UserKey, p: PartId)
    requires TablesOk(t) && k in t.users
    ensures HeldBy(t, p, t.users[k].telegramId) <==> p in t.parts && t.parts[p].user == k
  {
    if p in t.parts {
      assert PartRowOk(t.users, t.groups, t.parts, p);
      assert SameTelegramId(t.users, t.parts[p].user, k) ==> t.parts[p].user == k;
    }
  }

  /** OwnedGroup finds nothing exactly when every group the user owns has a status outside `statuses`. */
  lemma OwnedGroupNone(t: Tables, k: UserKey, statuses: set<Status>)
    requires TablesOk(t) && k in t.users
    ensures OwnedGroup(t, k, statuses).None? <==>
              forall g :: OwnedBy(t, g, t.users[k].telegramId) ==> t.groups[g].status !in statuses
  {
    forall g | OwnedBy(t, g, t.users[k].telegramId) ensures t.groups[g].owner == k {
      OwnedByKey(t, k, g);
    }
    if OwnedGroup(t, k, statuses).Some? {
      OwnedByKey(t, k, OwnedGroup(t, k, statuses).value);
    }
  }

  /**
   * `g` is the group .filter(owner=..., status__in=statuses).first() returns
   * for the Telegram user `tid`: owned, with a status in the set, and no such
   * group has a smaller key.
   */
  ghost predicate FirstOwned(t: Tables, tid: int, g: GroupId, statuses: set<Status>) {
    && OwnedBy(t, g, tid) && t.groups[g].status in statuses
    && forall h: GroupId :: OwnedBy(t, h, tid) && h < g ==> t.groups[h].status !in statuses
  }

  /** The group OwnedGroup finds is the first owned one with a status in the set. */
  lemma OwnedGroupFirst(t: Tables, k: UserKey, statuses: set<Status>)
    requires TablesOk(t) && k in t.users
    ensures OwnedGroup(t, k, statuses).Some? ==> FirstOwned(t, t.users[k].telegramId, OwnedGroup(t, k, statuses).value, statuses)
  {
    var tid := t.users[k].telegramId;
    if OwnedGroup(t, k, statuses).Some? {
      var g := OwnedGroup(t, k, statuses).value;
      OwnedByKey(t, k, g);
      forall h | OwnedBy(t, h, tid) && h < g ensures t.groups[h].status !in statuses {
        OwnedByKey(t, k, h);
      }
    }
  }

  /** Registering the sender changes no owner and no holder. */
  lemma OwnersKeptByWithUser(t: Tables, sender: User, tid: int)
    requires TablesOk(t)
    ensures forall g :: OwnedBy(WithUser(t, sender), g, tid) <==> OwnedBy(t, g, tid)
    ensures forall p :: HeldBy(WithUser(t, sender), p, tid) <==> HeldBy(t, p, tid)
  {
    WithUserOk(t, sender);
    forall g | g in t.groups ensures t.groups[g].owner in t.users {
      assert GroupRowOk(t.users, t.groups, g);
    }
    forall p | p in t.parts ensures t.parts[p].user in t.users {
      assert PartRowOk(t.users, t.groups, t.parts, p);
    }
  }

  /**
   * The rows create_group_close_date writes: one new group, which belongs to
   * `owner`, the earlier groups as they were, and the owner's participation.
   */
  lemma WithGroupWrites(t: Tables, owner: UserKey, group: Group)
    requires TablesOk(t) && owner in t.users && group.owner == owner
    ensures var r := WithGroup(t, owner, group);
      && t.nextGroup !in t.groups && t.nextPart !in t.parts
      && r.groups.Keys == t.groups.Keys + {t.nextGroup}
      && (forall g :: g in t.groups ==> r.groups[g] == t.groups[g])
      && r.groups[t.nextGroup] == group
      && OwnedBy(r, t.nextGroup, t.users[owner].telegramId)
      && HeldBy(r, t.nextPart, t.users[owner].telegramId)
      && r.parts[t.nextPart].group == t.nextGroup
  {
  }

  /** The row a join writes: the user's participation under the next key; the earlier rows stay. */
  lemma WithParticipantWrites(t: Tables, g: GroupId, u: UserKey)
    requires TablesOk(t) && u in t.users
    ensures var r := WithParticipant(t, g, u);
      && t.nextPart !in t.parts
      && r.parts.Keys == t.parts.Keys + {t.nextPart}
      && (forall p :: p in t.parts ==> r.parts[p] == t.parts[p])
      && HeldBy(r, t.nextPart, t.users[u].telegramId)
      && r.parts[t.nextPart] == NewParticipant(t, g, u)
      && IsMember(r, g, t.users[u].telegramId)
  {
    var r := WithParticipant(t, g, u);
    assert HeldBy(r, t.nextPart, t.users[u].telegramId) && r.parts[t.nextPart].group == g;
  }

  // ------------------------------------------------------- a user's holdings

  /** A participation of `u` whose group satisfies `want`. */
  function HeldWhere(groups: map<GroupId, Group>, u: UserKey, want: Group -> bool): Participant -> bool {
    (p: Participant) => p.user == u && p.group in groups && want(groups[p.group])
  }

  /** Participant.objects.filter(user=u, group__...=...), in key order. */
  function Holdings(t: Tables, u: UserKey, want: Group -> bool): seq<PartId> {
    KeysWhere(t.parts, HeldWhere(t.groups, u, want), t.nextPart)
  }

  /** Participation `p` is held by the Telegram user `tid`, in a group satisfying `want`. */
  ghost predicate HeldIn(t: Tables, p: PartId, tid: int, want: Group -> bool) {
    HeldBy(t, p, tid) && t.parts[p].group in t.groups && want(t.groups[t.parts[p].group])
  }

  /** The filter on the looked-up user lists exactly the participations the Telegram user holds there. */
  lemma HoldingsOfUser(t: Tables, tid: int, want: Group -> bool)
    requires TablesOk(t) && LookupUser(t, tid).Some?
    ensures forall p :: p in Holdings(t, LookupUser(t, tid).value, want) <==> HeldIn(t, p, tid, want)
  {
    var u := LookupUser(t, tid).value;
    forall p ensures p in Holdings(t, u, want) <==> HeldIn(t, p, tid, want) {
      if p in t.parts {
        HeldByKey(t, u, p);
      }
    }
  }

  /** A Telegram user the lookup does not find holds no participation. */
  lemma UnregisteredHoldsNothing(t: Tables, tid: int)
    requires TablesOk(t) && LookupUser(t, tid).None?
    ensures forall p :: !HeldBy(t, p, tid)
  {
    forall p | p in t.parts ensures !HeldBy(t, p, tid) {
      assert PartRowOk(t.users, t.groups, t.parts, p);
    }
  }
}

