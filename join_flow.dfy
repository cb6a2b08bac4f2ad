// The handlers through which users enter and leave groups
// (bot/bot_handler.py): the first and the last step of create-group,
// /join_group with a typed code, a forwarded invite, and /leave_group. Each is
// a function from the tables and the incoming message to the tables it
// leaves behind and what it reports; the Bot module runs them as methods on
// the live store.

module JoinFlow {
  import opened Text
  import opened Domain
  import opened Session
  import opened Store
  import opened Invite

  // ------------------------------------------------------------ create-group

  /** create_group_start: register the sender, then refuse while they own a group that is not closed. */
  function CreateGroupStart(t: Tables, sender: User): Effect<Next<CreateState>>
    requires TablesOk(t)
  {
    var s := WithUser(t, sender);
    Effect(s, if OwnedGroup(s, SenderKey(t, sender), OpenStatuses).Some? then Ended else Await(AwaitName))
  }

  /** Starting a group registers the sender and writes nothing else. */
  lemma CreateGroupStartOk(t: Tables, sender: User)
    requires TablesOk(t)
    ensures var r := CreateGroupStart(t, sender);
      && TablesOk(r.tables) && LookupUser(r.tables, sender.telegramId).Some?
      && r.tables.groups == t.groups && r.tables.parts == t.parts && r.tables.draws == t.draws
  {
    WithUserOk(t, sender);
  }

  /**
   * The conversation goes on exactly when no group the sender owns is active,
   * drawn or distributing (that is, all of them are closed); otherwise it ends.
   */
  lemma CreateGroupStartAsksName(t: Tables, sender: User)
    requires TablesOk(t)
    ensures var r := CreateGroupStart(t, sender);
      && (r.outcome == Await(AwaitName) <==>
            forall g :: OwnedBy(t, g, sender.telegramId) ==> t.groups[g].status !in OpenStatuses)
      && (r.outcome != Await(AwaitName) ==> r.outcome == Ended)
  {
    var s := WithUser(t, sender);
    var k := SenderKey(t, sender);
    assert TablesOk(s) && s.groups == t.groups by {
      WithUserOk(t, sender);
    }
    OwnedGroupNone(s, k, OpenStatuses);
    OwnersKeptByWithUser(t, sender, sender.telegramId);
  }

  /**
   * create_group_close_date, with `code` the value Group.generate_code
   * returned: the sender is registered first; a refused close date
   * re-prompts, a missing accumulator key raises, and otherwise the group and
   * its owner's participation are created and the accumulator is cleared.
   */
  function CreateGroupFinish(t: Tables, sender: User, data: UserData, text: string,
                             parseDate: string -> Option<Date>, code: string): Effect<Reply<CreateState>>
    requires TablesOk(t)
  {
    var s := WithUser(t, sender);
    var k := SenderKey(t, sender);
    match CloseDateStep(data, text, parseDate)
    case RetryCloseDate => Effect(s, Reply(Await(AwaitCloseDate), data))
    case MissingKey => Effect(s, Reply(Crashed, data))
    case CreateGroup(d) =>
      var group := NewGroup(d.name, code, k, d.description, d.giftViaBot, d.drawDate, d.distributionDate, d.closeDate);
      Effect(WithGroup(s, k, group), Reply(Ended, Cleared))
  }

  /**
   * With a code no group uses, the last step keeps the constraints; it ends
   * exactly when the draft is complete, and writes no group otherwise.
   */
  lemma CreateGroupFinishOk(t: Tables, sender: User, data: UserData, text: string,
                            parseDate: string -> Option<Date>, code: string)
    requires TablesOk(t) && code !in Codes(t.groups)
    ensures var r := CreateGroupFinish(t, sender, data, text, parseDate, code);
      && TablesOk(r.tables)
      && (r.outcome.next == Ended <==> CloseDateStep(data, text, parseDate).CreateGroup?)
      && (r.outcome.next != Ended ==> r.tables.groups == t.groups && r.tables.parts == t.parts)
  {
    WithUserOk(t, sender);
    match CloseDateStep(data, text, parseDate)
    case RetryCloseDate =>
    case MissingKey =>
    case CreateGroup(d) =>
      var k := SenderKey(t, sender);
      WithGroupOk(WithUser(t, sender), k, NewGroup(d.name, code, k, d.description, d.giftViaBot, d.drawDate, d.distributionDate, d.closeDate));
  }

  /**
   * When the group is created, the one new group belongs to the sender,
   * carries the code, is active, and has the sender as its only participant,
   * while every earlier group is untouched and the accumulator is cleared.
   */
  lemma CreateGroupFinishCreates(t: Tables, sender: User, data: UserData, text: string,
                                 parseDate: string -> Option<Date>, code: string)
    requires TablesOk(t) && CloseDateStep(data, text, parseDate).CreateGroup?
    ensures var r := CreateGroupFinish(t, sender, data, text, parseDate, code);
      && r.outcome == Reply(Ended, Cleared)
      && t.nextGroup !in t.groups
      && r.tables.groups.Keys == t.groups.Keys + {t.nextGroup}
      && (forall g :: g in t.groups ==> r.tables.groups[g] == t.groups[g])
      && OwnedBy(r.tables, t.nextGroup, sender.telegramId)
      && r.tables.groups[t.nextGroup].code == code
      && r.tables.groups[t.nextGroup].status == Active
      && (forall p :: p in r.tables.parts && r.tables.parts[p].group == t.nextGroup <==> p == t.nextPart)
      && HeldBy(r.tables, t.nextPart, sender.telegramId)
  {
    var s := WithUser(t, sender);
    var k := SenderKey(t, sender);
    assert TablesOk(s) && s.groups == t.groups && s.nextGroup == t.nextGroup && s.nextPart == t.nextPart by {
      WithUserOk(t, sender);
    }
    var d := CloseDateStep(data, text, parseDate).draft;
    var group := NewGroup(d.name, code, k, d.description, d.giftViaBot, d.drawDate, d.distributionDate, d.closeDate);
    assert CreateGroupFinish(t, sender, data, text, parseDate, code) == Effect(WithGroup(s, k, group), Reply(Ended, Cleared));
    WithGroupWrites(s, k, group);
    OwnerIsOnlyMember(s, k, group);
  }

  // ------------------------------------------------------------------ joining

  datatype JoinOutcome =
    | NoSuchGroup
    | NotAccepting(group: GroupId)
    | AlreadyMember(group: GroupId)
    | Joined(group: GroupId, participation: PartId)

  /**
   * The shared body of join_group_code and handle_forwarded_message once the
   * code is known: register the sender, find the group, check that it
   * accepts participants and that the sender is not in it, then add them.
   */
  function Join(t: Tables, sender: User, code: string): Effect<JoinOutcome>
    requires TablesOk(t)
  {
    var s := WithUser(t, sender);
    var k := SenderKey(t, sender);
    match GroupByCode(s, code)
    case None => Effect(s, NoSuchGroup)
    case Some(g) =>
      if !CanAddParticipants(s.groups[g]) then Effect(s, NotAccepting(g))
      else if Membership(s.parts, g, k, s.nextPart) != [] then Effect(s, AlreadyMember(g))
      else Effect(WithParticipant(s, g, k), Joined(g, s.nextPart))
  }

  /** The exists() query of the join handlers asks exactly whether the sender takes part in the group. */
  lemma MembershipIsMember(t: Tables, sender: User, g: GroupId)
    requires TablesOk(t)
    ensures Membership(t.parts, g, SenderKey(t, sender), t.nextPart) != [] <==> IsMember(t, g, sender.telegramId)
  {
    WithUserOk(t, sender);
    var k := SenderKey(t, sender);
    var found := Membership(t.parts, g, k, t.nextPart);
    if found != [] {
      var p := found[0];
      assert PartRowOk(t.users, t.groups, t.parts, p);
      assert HeldBy(t, p, sender.telegramId);
    }
    if IsMember(t, g, sender.telegramId) {
      var p :| HeldBy(t, p, sender.telegramId) && t.parts[p].group == g;
      SenderKeyUnique(t, sender, t.parts[p].user);
      assert InGroupAs(g, k)(t.parts[p]);
    }
  }

  /**
   * Joining keeps the constraints and registers the sender; only a join
   * writes a participation, and then exactly one: the sender's, under the
   * next key, with the default name and no gift, every other participation
   * staying as it was.
   */
  lemma JoinOk(t: Tables, sender: User, code: string)
    requires TablesOk(t)
    ensures var r := Join(t, sender, code);
      && TablesOk(r.tables) && LookupUser(r.tables, sender.telegramId).Some?
      && r.tables.groups == t.groups && r.tables.draws == t.draws
      && (!r.outcome.Joined? ==> r.tables.parts == t.parts)
      && (r.outcome.Joined? ==>
            && r.outcome.participation == t.nextPart && t.nextPart !in t.parts
            && r.tables.parts.Keys == t.parts.Keys + {t.nextPart}
            && (forall p :: p in t.parts ==> r.tables.parts[p] == t.parts[p])
            && HeldBy(r.tables, t.nextPart, sender.telegramId)
            && r.tables.parts[t.nextPart].group == r.outcome.group
            && r.tables.parts[t.nextPart].name == DefaultName(r.tables.users[r.tables.parts[t.nextPart].user])
            && !r.tables.parts[t.nextPart].giftSent
            && IsMember(r.tables, r.outcome.group, sender.telegramId))
  {
    var s := WithUser(t, sender);
    var k := SenderKey(t, sender);
    assert TablesOk(s) && LookupUser(s, sender.telegramId).Some? by {
      WithUserOk(t, sender);
    }
    assert s.groups == t.groups && s.parts == t.parts && s.draws == t.draws && s.nextPart == t.nextPart by {
      WithUserOk(t, sender);
    }
    match GroupByCode(s, code)
    case None =>
    case Some(g) =>
      if CanAddParticipants(s.groups[g]) && Membership(s.parts, g, k, s.nextPart) == [] {
        WithParticipantOk(s, g, k);
        WithParticipantWrites(s, g, k);
        var r := WithParticipant(s, g, k);
        assert r.users == s.users;
        LookupFinds(r, k);
      }
  }

  /**
   * The join finds the one group with the code, refuses it when it no longer
   * accepts participants or already counts the sender, and joins it exactly
   * otherwise.
   */
  lemma JoinDecides(t: Tables, sender: User, code: string)
    requires TablesOk(t)
    ensures var r := Join(t, sender, code);
      && (r.outcome == NoSuchGroup <==> code !in Codes(t.groups))
      && (forall g :: g in t.groups && t.groups[g].code == code ==> !r.outcome.NoSuchGroup? && r.outcome.group == g)
      && (!r.outcome.NoSuchGroup? ==> r.outcome.group in t.groups)
      && (r.outcome.NotAccepting? ==> !CanAddParticipants(t.groups[r.outcome.group]))
      && (r.outcome.AlreadyMember? ==>
            CanAddParticipants(t.groups[r.outcome.group]) && IsMember(t, r.outcome.group, sender.telegramId))
      && (r.outcome.Joined? ==>
            && CanAddParticipants(t.groups[r.outcome.group]) && !IsMember(t, r.outcome.group, sender.telegramId)
            && r.outcome.participation == t.nextPart)
  {
    var s := WithUser(t, sender);
    assert s.groups == t.groups && s.parts == t.parts && s.nextPart == t.nextPart && s.nextGroup == t.nextGroup by {
      WithUserOk(t, sender);
    }
    forall g | g in t.groups && t.groups[g].code == code ensures GroupByCode(s, code) == Some(g) {
      WithUserOk(t, sender);
      GroupByCodeFinds(s, g);
    }
    match GroupByCode(s, code)
    case None =>
    case Some(g) =>
      MembershipIsMember(t, sender, g);
  }

  /** join_group_code: the typed text, stripped and upper-cased, is the code. */
  function JoinGroupCode(t: Tables, sender: User, text: string): (r: Effect<JoinOutcome>)
    requires TablesOk(t)
    ensures r == Join(t, sender, TypedCode(text))
  {
    Join(t, sender, TypedCode(text))
  }

  /** Typing a code exactly as the bot generates it finds that code. */
  lemma TypedPlainCode(code: string)
    requires IsPlainCode(code)
    ensures TypedCode(code) == code
  {
    StripNoSpace(code);
    UpperFixed(code);
  }

  /**
   * handle_forwarded_message: text without the invite marker is ignored
   * before anyone is registered; otherwise the extracted code is joined.
   */
  function HandleForwarded(t: Tables, sender: User, text: Option<string>, caption: Option<string>): (r: Effect<Option<JoinOutcome>>)
    requires TablesOk(t)
    ensures r.outcome.None? <==> !Contains(ForwardedText(text, caption), Marker)
    ensures r.outcome.None? ==> r.tables == t
  {
    match ExtractCode(ForwardedText(text, caption))
    case None => Effect(t, None)
    case Some(code) =>
      var j := Join(t, sender, code);
      Effect(j.tables, Some(j.outcome))
  }

  /** A forwarded text carrying a code does what joining with that code does. */
  lemma ForwardedCodeJoins(t: Tables, sender: User, text: Option<string>, caption: Option<string>, code: string)
    requires TablesOk(t) && ExtractCode(ForwardedText(text, caption)) == Some(code)
    ensures HandleForwarded(t, sender, text, caption).tables == Join(t, sender, code).tables
    ensures HandleForwarded(t, sender, text, caption).outcome == Some(Join(t, sender, code).outcome)
  {
  }

  /**
   * Forwarding an invite as the recipient sees it joins the group it was
   * generated for (when the group still accepts participants and the sender
   * is not in it yet), provided the text above its last line does not spell
   * the marker.
   */
  lemma ForwardedInviteJoins(t: Tables, sender: User, g: GroupId, format: Date -> string)
    requires TablesOk(t) && g in t.groups && IsPlainCode(t.groups[g].code)
    requires !Contains(InviteBody(t.groups[g], format, false), Marker)
    ensures var r := HandleForwarded(t, sender, Some(InviteMessage(t.groups[g], format, false)), None);
      && (!CanAddParticipants(t.groups[g]) ==> r.outcome == Some(NotAccepting(g)))
      && (CanAddParticipants(t.groups[g]) && IsMember(t, g, sender.telegramId) ==> r.outcome == Some(AlreadyMember(g)))
      && (CanAddParticipants(t.groups[g]) && !IsMember(t, g, sender.telegramId) ==> r.outcome == Some(Joined(g, t.nextPart)))
  {
    ForwardedInviteText(t.groups[g], format);
    ForwardedCodeJoins(t, sender, Some(InviteMessage(t.groups[g], format, false)), None, t.groups[g].code);
    JoinDecides(t, sender, t.groups[g].code);
  }

  // ------------------------------------------------------------------ leaving

  datatype LeaveOutcome =
    | LeaveUnregistered
    | NotInOpenGroup
    | OwnerCannotLeave(group: GroupId)
    | Left(group: GroupId, participation: PartId)
    | SeveralGroups(count: nat)

  /** Participant.objects.filter(user=u, group__is_closed=False). */
  function InOpenGroupAs(groups: map<GroupId, Group>, u: UserKey): Participant -> bool {
    (p: Participant) => p.user == u && p.group in groups && !groups[p.group].isClosed
  }

  /**
   * leave_group: with exactly one participation in a group that is not
   * closed, delete it unless the sender owns that group; with several, only
   * list them.
   */
  function LeaveGroup(t: Tables, sender: User): (r: Effect<LeaveOutcome>)
    ensures !r.outcome.Left? ==> r.tables == t
  {
    match LookupUser(t, sender.telegramId)
    case None => Effect(t, LeaveUnregistered)
    case Some(k) =>
      var ps := KeysWhere(t.parts, InOpenGroupAs(t.groups, k), t.nextPart);
      if ps == [] then Effect(t, NotInOpenGroup)
      else if |ps| > 1 then Effect(t, SeveralGroups(|ps|))
      else
        var g := t.parts[ps[0]].group;
        if t.groups[g].owner == k then Effect(t, OwnerCannotLeave(g))
        else Effect(RemovePart(t, ps[0]), Left(g, ps[0]))
  }

  /** Participation `q` of the Telegram user `tid` is in a group that is not closed. */
  ghost predicate OpenHolding(t: Tables, q: PartId, tid: int) {
    HeldBy(t, q, tid) && t.parts[q].group in t.groups && !t.groups[t.parts[q].group].isClosed
  }

  /** The Telegram user `tid` holds exactly one participation in a group that is not closed. */
  ghost predicate SingleOpenHolding(t: Tables, tid: int) {
    exists q :: OpenHolding(t, q, tid) && forall q' :: OpenHolding(t, q', tid) ==> q' == q
  }

  /** Participant.objects.filter(user=u, group__is_closed=False) lists exactly the open participations. */
  lemma OpenHoldingsListed(t: Tables, tid: int, k: UserKey)
    requires TablesOk(t) && LookupUser(t, tid) == Some(k)
    ensures forall q :: OpenHolding(t, q, tid) <==> q in KeysWhere(t.parts, InOpenGroupAs(t.groups, k), t.nextPart)
  {
    var ps := KeysWhere(t.parts, InOpenGroupAs(t.groups, k), t.nextPart);
    forall q ensures OpenHolding(t, q, tid) <==> q in ps {
      if OpenHolding(t, q, tid) {
        LookupKeyUnique(t, tid, t.parts[q].user);
        assert InOpenGroupAs(t.groups, k)(t.parts[q]);
      }
    }
  }

  /**
   * The query of leave_group lists exactly the open participations of the
   * registered sender. The handler acts (leaves, or refuses the owner)
   * exactly when there is one; it lists them when there are at least two.
   */
  lemma LeaveGroupCounts(t: Tables, sender: User)
    requires TablesOk(t)
    ensures LeaveCounted(t, sender)
  {
    var tid := sender.telegramId;
    match LookupUser(t, tid)
    case None =>
      UnregisteredHoldsNothing(t, tid);
      UnregisteredCounted(t, sender);
    case Some(k) =>
      OpenHoldingsListed(t, tid, k);
      RegisteredCounted(t, sender, k);
  }

  /** How the outcome of leave_group reflects the open participations of the sender. */
  ghost predicate LeaveCounted(t: Tables, sender: User) {
    var r := LeaveGroup(t, sender);
    var tid := sender.telegramId;
    && (r.outcome.Left? || r.outcome.OwnerCannotLeave? <==> SingleOpenHolding(t, tid))
    && (r.outcome == NotInOpenGroup ==> forall q :: !OpenHolding(t, q, tid))
    && (r.outcome.SeveralGroups? ==>
          r.outcome.count >= 2 && exists q1, q2 :: q1 != q2 && OpenHolding(t, q1, tid) && OpenHolding(t, q2, tid))
  }

  lemma UnregisteredCounted(t: Tables, sender: User)
    requires LookupUser(t, sender.telegramId).None?
    requires forall p :: !HeldBy(t, p, sender.telegramId)
    ensures LeaveCounted(t, sender)
  {
    assert LeaveGroup(t, sender).outcome == LeaveUnregistered;
    assert !SingleOpenHolding(t, sender.telegramId);
  }

  lemma RegisteredCounted(t: Tables, sender: User, k: UserKey)
    requires LookupUser(t, sender.telegramId) == Some(k)
    requires forall q :: OpenHolding(t, q, sender.telegramId) <==> q in KeysWhere(t.parts, InOpenGroupAs(t.groups, k), t.nextPart)
    ensures LeaveCounted(t, sender)
  {
    var ps := KeysWhere(t.parts, InOpenGroupAs(t.groups, k), t.nextPart);
    if |ps| == 0 {
      HoldingsCounted(t, sender.telegramId, ps);
      NoneOpenCounted(t, sender, k);
    } else if |ps| == 1 {
      HoldingsOne(t, sender.telegramId, ps);
      OneOpenCounted(t, sender, k);
    } else {
      assert ps[0] in ps && ps[1] in ps;
      ManyOpenCounted(t, sender, k, ps[0], ps[1]);
    }
  }

  lemma NoneOpenCounted(t: Tables, sender: User, k: UserKey)
    requires LookupUser(t, sender.telegramId) == Some(k)
    requires KeysWhere(t.parts, InOpenGroupAs(t.groups, k), t.nextPart) == []
    requires forall q :: !OpenHolding(t, q, sender.telegramId)
    ensures LeaveCounted(t, sender)
  {
    assert LeaveGroup(t, sender).outcome == NotInOpenGroup;
    assert !SingleOpenHolding(t, sender.telegramId);
  }

  lemma ManyOpenCounted(t: Tables, sender: User, k: UserKey, q1: PartId, q2: PartId)
    requires LookupUser(t, sender.telegramId) == Some(k)
    requires |KeysWhere(t.parts, InOpenGroupAs(t.groups, k), t.nextPart)| > 1
    requires q1 != q2 && OpenHolding(t, q1, sender.telegramId) && OpenHolding(t, q2, sender.telegramId)
    ensures LeaveCounted(t, sender)
  {
    var ps := KeysWhere(t.parts, InOpenGroupAs(t.groups, k), t.nextPart);
    HoldingsMany(t, sender.telegramId, q1, q2);
    assert LeaveGroup(t, sender).outcome == SeveralGroups(|ps|);
  }

  lemma OneOpenCounted(t: Tables, sender: User, k: UserKey)
    requires LookupUser(t, sender.telegramId) == Some(k)
    requires |KeysWhere(t.parts, InOpenGroupAs(t.groups, k), t.nextPart)| == 1
    requires SingleOpenHolding(t, sender.telegramId)
    ensures LeaveCounted(t, sender)
  {
    var r := LeaveGroup(t, sender);
    assert r.outcome.Left? || r.outcome.OwnerCannotLeave?;
  }

  /** A strictly increasing list of exactly the open participations counts them. */
  lemma HoldingsCounted(t: Tables, tid: int, ps: seq<PartId>)
    requires forall q :: OpenHolding(t, q, tid) <==> q in ps
    requires forall i, j :: 0 <= i < j < |ps| ==> ps[i] < ps[j]
    ensures |ps| == 1 <==> SingleOpenHolding(t, tid)
    ensures ps == [] ==> forall q :: !OpenHolding(t, q, tid)
    ensures |ps| >= 2 ==> exists q1, q2 :: q1 != q2 && OpenHolding(t, q1, tid) && OpenHolding(t, q2, tid)
  {
    if |ps| == 1 {
      HoldingsOne(t, tid, ps);
    } else if |ps| > 1 {
      assert ps[0] in ps && ps[1] in ps;
      HoldingsMany(t, tid, ps[0], ps[1]);
    }
  }

  lemma HoldingsOne(t: Tables, tid: int, ps: seq<PartId>)
    requires forall q :: OpenHolding(t, q, tid) <==> q in ps
    requires |ps| == 1
    ensures SingleOpenHolding(t, tid)
  {
    var q := ps[0];
    assert ps == [q];
    assert q in ps;
    forall q' | OpenHolding(t, q', tid) ensures q' == q {
      assert q' in ps;
    }
    assert OpenHolding(t, q, tid);
  }

  lemma HoldingsMany(t: Tables, tid: int, a: PartId, b: PartId)
    requires a != b && OpenHolding(t, a, tid) && OpenHolding(t, b, tid)
    ensures !SingleOpenHolding(t, tid)
  {
    forall q | OpenHolding(t, q, tid) ensures exists q' :: OpenHolding(t, q', tid) && q' != q {
      if q == a {
        assert OpenHolding(t, b, tid);
      } else {
        assert OpenHolding(t, a, tid);
      }
    }
  }

  /**
   * What leaving writes: the constraints are kept; the sender leaves only
   * their one participation in an open group, and only when they do not own
   * that group; the participation goes together with every draw that names
   * it, and nothing else changes.
   */
  lemma LeaveGroupWrites(t: Tables, sender: User)
    requires TablesOk(t)
    ensures var r := LeaveGroup(t, sender);
      && TablesOk(r.tables)
      && (r.outcome == LeaveUnregistered <==> LookupUser(t, sender.telegramId).None?)
      && (r.outcome == NotInOpenGroup ==>
            forall q :: HeldBy(t, q, sender.telegramId) ==> t.parts[q].group in t.groups && t.groups[t.parts[q].group].isClosed)
      && (r.outcome.OwnerCannotLeave? ==> OwnedBy(t, r.outcome.group, sender.telegramId))
      && (r.outcome.Left? ==>
            && HeldBy(t, r.outcome.participation, sender.telegramId)
            && t.parts[r.outcome.participation].group == r.outcome.group
            && r.outcome.group in t.groups && !t.groups[r.outcome.group].isClosed
            && !OwnedBy(t, r.outcome.group, sender.telegramId)
            && (forall q :: HeldBy(t, q, sender.telegramId) && t.parts[q].group in t.groups && !t.groups[t.parts[q].group].isClosed
                  ==> q == r.outcome.participation)
            && r.outcome.participation !in r.tables.parts
            && (forall q :: q in t.parts && q != r.outcome.participation ==> q in r.tables.parts && r.tables.parts[q] == t.parts[q])
            && (forall d :: d in r.tables.draws ==>
                  r.tables.draws[d].giver != r.outcome.participation && r.tables.draws[d].receiver != r.outcome.participation)
            && r.tables.groups == t.groups && r.tables.users == t.users)
  {
    match LookupUser(t, sender.telegramId)
    case None =>
    case Some(k) =>
      var ps := KeysWhere(t.parts, InOpenGroupAs(t.groups, k), t.nextPart);
      forall q | HeldBy(t, q, sender.telegramId) && t.parts[q].group in t.groups && !t.groups[t.parts[q].group].isClosed
        ensures q in ps
      {
        LookupKeyUnique(t, sender.telegramId, t.parts[q].user);
        assert InOpenGroupAs(t.groups, k)(t.parts[q]);
      }
      forall q | HeldBy(t, q, sender.telegramId) ensures t.parts[q].group in t.groups {
        assert PartRowOk(t.users, t.groups, t.parts, q);
      }
      if ps != [] {
        var p := ps[0];
        var g := t.parts[p].group;
        assert PartRowOk(t.users, t.groups, t.parts, p);
        assert HeldBy(t, p, sender.telegramId);
        assert GroupRowOk(t.users, t.groups, g);
        LookupKeyUnique(t, sender.telegramId, t.groups[g].owner);
        RemovePartOk(t, p);
      }
  }

  /**
   * Leaving keeps the constraints. The sender leaves only their one
   * participation in an open group, and only when they do not own that group;
   * the participation goes together with every draw that names it, and
   * nothing else changes.
   */
  lemma LeaveGroupOk(t: Tables, sender: User)
    requires TablesOk(t)
    ensures var r := LeaveGroup(t, sender);
      && TablesOk(r.tables)
      && (r.outcome == LeaveUnregistered <==> LookupUser(t, sender.telegramId).None?)
      && (r.outcome == NotInOpenGroup ==>
            forall q :: HeldBy(t, q, sender.telegramId) ==> t.parts[q].group in t.groups && t.groups[t.parts[q].group].isClosed)
      && (r.outcome.OwnerCannotLeave? ==> OwnedBy(t, r.outcome.group, sender.telegramId))
      && (r.outcome.Left? ==>
            && HeldBy(t, r.outcome.participation, sender.telegramId)
            && t.parts[r.outcome.participation].group == r.outcome.group
            && r.outcome.group in t.groups && !t.groups[r.outcome.group].isClosed
            && !OwnedBy(t, r.outcome.group, sender.telegramId)
            && (forall q :: HeldBy(t, q, sender.telegramId) && t.parts[q].group in t.groups && !t.groups[t.parts[q].group].isClosed
                  ==> q == r.outcome.participation)
            && r.outcome.participation !in r.tables.parts
            && (forall q :: q in t.parts && q != r.outcome.participation ==> q in r.tables.parts && r.tables.parts[q] == t.parts[q])
            && (forall d :: d in r.tables.draws ==>
                  r.tables.draws[d].giver != r.outcome.participation && r.tables.draws[d].receiver != r.outcome.participation)
            && r.tables.groups == t.groups && r.tables.users == t.users)
    ensures var r := LeaveGroup(t, sender);
      && (r.outcome.Left? || r.outcome.OwnerCannotLeave? <==> SingleOpenHolding(t, sender.telegramId))
      && (r.outcome.SeveralGroups? ==>
            exists q1, q2 :: q1 != q2 && OpenHolding(t, q1, sender.telegramId) && OpenHolding(t, q2, sender.telegramId))
  {
    LeaveGroupWrites(t, sender);
    LeaveGroupCounts(t, sender);
  }
}
