// The owner commands of bot/bot_handler.py that move a group through its
// lifecycle after creation: /draw (active -> drawn, one Draw per participant)
// and /distribute_gifts (drawn -> distribution, and on to closed when the
// close date has come). Both find the group with
// Group.objects.filter(owner=..., status=...).first(), so only the sender's
// own group in the right status is ever touched.

module DrawFlow {
  import opened Text
  import opened Domain
  import opened Store
  import opened Gift
  import opened Assignment

  // --------------------------------------------------------------------- draw

  /** Where the draw handler stops, or the group and participant list it draws. */
  datatype DrawTarget =
    | DrawUnregistered
    | NoActiveGroup
    | TooFew(group: GroupId, count: nat)
    | ReadyToDraw(group: GroupId, givers: seq<PartId>)

  /** The guards of the draw handler: a registered sender, an active own group, can_draw. */
  function DrawTargetOf(t: Tables, tid: int): (r: DrawTarget)
    ensures r.TooFew? ==> r.group in t.groups && r.count < 2
    ensures r.ReadyToDraw? ==> r.group in t.groups && r.givers == Members(t.parts, r.group, t.nextPart)
  {
    match LookupUser(t, tid)
    case None => DrawUnregistered
    case Some(u) =>
      match OwnedGroup(t, u, {Active})
      case None => NoActiveGroup
      case Some(g) =>
        var members := Members(t.parts, g, t.nextPart);
        if CanDraw(t.groups[g], |members|) then ReadyToDraw(g, members) else TooFew(g, |members|)
  }

  /**
   * The draw handler: the receivers are the participant list shuffled until no
   * one draws themselves (or the attempts run out), one Draw row is created per
   * participant, and the group is saved as drawn at `now`. A refused draw writes
   * nothing.
   */
  function DrawGroup(t: Tables, tid: int, shuffle: (seq<PartId>, nat) -> seq<PartId>, now: Instant): (r: Effect<DrawTarget>)
    requires forall s: seq<PartId>, k: nat :: multiset(shuffle(s, k)) == multiset(s)
    ensures r.outcome == DrawTargetOf(t, tid)
    ensures !r.outcome.ReadyToDraw? ==> r.tables == t
  {
    var target := DrawTargetOf(t, tid);
    if target.ReadyToDraw? then
      var receivers := Assigned(target.givers, shuffle);
      Effect(WithDraws(t, target.group, target.givers, receivers, now), target)
    else Effect(t, target)
  }

  /**
   * The draw goes ahead exactly for the first active group the sender owns,
   * when it has at least two participants; the participant list is exactly
   * the group's participants.
   */
  lemma DrawTargetDecides(t: Tables, tid: int)
    requires TablesOk(t)
    ensures var r := DrawTargetOf(t, tid);
      && (r == DrawUnregistered <==> LookupUser(t, tid).None?)
      && (r == NoActiveGroup <==>
            LookupUser(t, tid).Some? && forall g :: OwnedBy(t, g, tid) ==> t.groups[g].status != Active)
      && (r.TooFew? ==>
            && FirstOwned(t, tid, r.group, {Active}) && r.count < 2
            && r.count == |Members(t.parts, r.group, t.nextPart)|)
      && (r.ReadyToDraw? ==>
            && FirstOwned(t, tid, r.group, {Active}) && |r.givers| >= 2
            && forall p :: p in r.givers <==> p in t.parts && t.parts[p].group == r.group)
  {
    var r := DrawTargetOf(t, tid);
    if LookupUser(t, tid).Some? {
      var u := LookupUser(t, tid).value;
      OwnedGroupNone(t, u, {Active});
      OwnedGroupFirst(t, u, {Active});
      if OwnedGroup(t, u, {Active}).Some? {
        var g := OwnedGroup(t, u, {Active}).value;
        OwnedByKey(t, u, g);
        assert KeysBelow(t.parts.Keys, t.nextPart);
      }
    }
  }

  /** A draw keeps the constraints. */
  lemma DrawGroupOk(t: Tables, tid: int, shuffle: (seq<PartId>, nat) -> seq<PartId>, now: Instant)
    requires TablesOk(t)
    requires forall s: seq<PartId>, k: nat :: multiset(shuffle(s, k)) == multiset(s)
    ensures TablesOk(DrawGroup(t, tid, shuffle, now).tables)
  {
    var target := DrawTargetOf(t, tid);
    if target.ReadyToDraw? {
      var g := target.group;
      var receivers := Assigned(target.givers, shuffle);
      assert DrawGroup(t, tid, shuffle, now) == Effect(WithDraws(t, g, target.givers, receivers, now), target);
      WithDrawsOk(t, g, receivers, now);
    }
  }

  /**
   * A draw marks the group drawn at `now` and changes no user, no participant,
   * no other group and no earlier Draw.
   */
  lemma DrawGroupWrites(t: Tables, tid: int, shuffle: (seq<PartId>, nat) -> seq<PartId>, now: Instant)
    requires TablesOk(t)
    requires forall s: seq<PartId>, k: nat :: multiset(shuffle(s, k)) == multiset(s)
    ensures var r := DrawGroup(t, tid, shuffle, now);
      (r.outcome.ReadyToDraw? ==>
            var g := r.outcome.group;
            && r.tables.groups[g].status == Drawn && r.tables.groups[g].drawnAt == Some(now)
            && r.tables.groups.Keys == t.groups.Keys
            && (forall h :: h in t.groups && h != g ==> r.tables.groups[h] == t.groups[h])
            && r.tables.users == t.users && r.tables.parts == t.parts
            && (forall d :: d in t.draws ==> d in r.tables.draws && r.tables.draws[d] == t.draws[d]))
  {
    var target := DrawTargetOf(t, tid);
    if target.ReadyToDraw? {
      var g := target.group;
      var receivers := Assigned(target.givers, shuffle);
      assert DrawGroup(t, tid, shuffle, now) == Effect(WithDraws(t, g, target.givers, receivers, now), target);
      assert KeysBelow(t.draws.Keys, t.nextDraw);
    }
  }

  /** Draw `d` belongs to group `g`. */
  ghost predicate DrawIn(draws: map<DrawId, Draw>, d: DrawId, g: GroupId) {
    d in draws && draws[d].group == g
  }

  /** Participant `p` gives a gift in group `g`. */
  ghost predicate Gives(draws: map<DrawId, Draw>, g: GroupId, p: PartId) {
    exists d :: DrawIn(draws, d, g) && draws[d].giver == p
  }

  /** Participant `p` receives a gift in group `g`. */
  ghost predicate Receives(draws: map<DrawId, Draw>, g: GroupId, p: PartId) {
    exists d :: DrawIn(draws, d, g) && draws[d].receiver == p
  }

  /** The group a draw goes ahead for is active. */
  lemma ReadyToDrawActive(t: Tables, tid: int)
    requires DrawTargetOf(t, tid).ReadyToDraw?
    ensures t.groups[DrawTargetOf(t, tid).group].status == Active
  {
  }

  /** An active group has no Draw rows yet. */
  lemma ActiveHasNoDraws(t: Tables, g: GroupId)
    requires TablesOk(t) && g in t.groups && t.groups[g].status == Active
    ensures forall d :: d in t.draws ==> t.draws[d].group != g
  {
    forall d | d in t.draws ensures t.draws[d].group != g {
      assert DrawRowOk(t.groups, t.parts, t.draws, d);
    }
  }

  /** The draws of group `g` are the rows start .. start + n - 1, row start + i pairing givers[i] with receivers[i]. */
  ghost predicate RowsOf(draws: map<DrawId, Draw>, g: GroupId, start: nat, givers: seq<PartId>, receivers: seq<PartId>) {
    && |givers| == |receivers|
    && (forall d: DrawId :: DrawIn(draws, d, g) <==> start <= d < start + |givers|)
    && (forall i :: 0 <= i < |givers| ==> start + i in draws && draws[start + i] == Draw(g, givers[i], receivers[i]))
  }

  /** `givers` lists exactly the participants of group `g`. */
  ghost predicate ListsMembers(parts: map<PartId, Participant>, g: GroupId, givers: seq<PartId>) {
    forall p :: p in parts && parts[p].group == g <==> p in givers
  }

  /** In a group without earlier draws, the group's draws after the draw are exactly the new rows. */
  lemma NewDrawsOnly(t: Tables, g: GroupId, givers: seq<PartId>, receivers: seq<PartId>, now: Instant)
    requires g in t.groups && |givers| == |receivers|
    requires KeysBelow(t.draws.Keys, t.nextDraw)
    requires forall d :: d in t.draws ==> t.draws[d].group != g
    ensures RowsOf(WithDraws(t, g, givers, receivers, now).draws, g, t.nextDraw, givers, receivers)
  {
    var added := DrawRows(t.nextDraw, g, givers, receivers);
    var draws := t.draws + added;
    assert WithDraws(t, g, givers, receivers, now).draws == draws;
    forall d: DrawId ensures DrawIn(draws, d, g) <==> t.nextDraw <= d < t.nextDraw + |givers| {
      if t.nextDraw <= d < t.nextDraw + |givers| {
        var i := d - t.nextDraw;
        assert added[t.nextDraw + i] == Draw(g, givers[i], receivers[i]);
      } else {
        assert d !in added;
      }
    }
  }

  /** The query for a group's participants lists exactly them. */
  lemma MembersListed(parts: map<PartId, Participant>, g: GroupId, n: nat)
    requires KeysBelow(parts.Keys, n)
    ensures ListsMembers(parts, g, Members(parts, g, n))
  {
  }

  /**
   * After a draw every participant of the group gives a gift, and nobody
   * outside the group does; no participant gives twice, since the Draw table
   * allows one draw per (group, giver).
   */
  lemma DrawGroupGivers(t: Tables, tid: int, shuffle: (seq<PartId>, nat) -> seq<PartId>, now: Instant)
    requires TablesOk(t)
    requires forall s: seq<PartId>, k: nat :: multiset(shuffle(s, k)) == multiset(s)
    requires DrawTargetOf(t, tid).ReadyToDraw?
    ensures var g := DrawTargetOf(t, tid).group;
      var draws := DrawGroup(t, tid, shuffle, now).tables.draws;
      forall p :: p in t.parts && t.parts[p].group == g <==> Gives(draws, g, p)
  {
    var target := DrawTargetOf(t, tid);
    var receivers := Assigned(target.givers, shuffle);
    var draws := WithDraws(t, target.group, target.givers, receivers, now).draws;
    assert DrawGroup(t, tid, shuffle, now).tables.draws == draws;
    ReadyToDrawActive(t, tid);
    ActiveHasNoDraws(t, target.group);
    NewDrawsOnly(t, target.group, target.givers, receivers, now);
    MembersListed(t.parts, target.group, t.nextPart);
    GiverRows(t.parts, target.group, draws, t.nextDraw, target.givers, receivers);
  }

  /**
   * After a draw every participant of the group receives a gift, exactly one,
   * and nobody outside the group does.
   */
  lemma DrawGroupReceivers(t: Tables, tid: int, shuffle: (seq<PartId>, nat) -> seq<PartId>, now: Instant)
    requires TablesOk(t)
    requires forall s: seq<PartId>, k: nat :: multiset(shuffle(s, k)) == multiset(s)
    requires DrawTargetOf(t, tid).ReadyToDraw?
    ensures var g := DrawTargetOf(t, tid).group;
      var draws := DrawGroup(t, tid, shuffle, now).tables.draws;
      && (forall p :: p in t.parts && t.parts[p].group == g <==> Receives(draws, g, p))
      && (forall d, e :: DrawIn(draws, d, g) && DrawIn(draws, e, g) && draws[d].receiver == draws[e].receiver ==> d == e)
  {
    var target := DrawTargetOf(t, tid);
    var receivers := Assigned(target.givers, shuffle);
    var draws := WithDraws(t, target.group, target.givers, receivers, now).draws;
    assert DrawGroup(t, tid, shuffle, now).tables.draws == draws;
    ReadyToDrawActive(t, tid);
    ActiveHasNoDraws(t, target.group);
    NewDrawsOnly(t, target.group, target.givers, receivers, now);
    MembersListed(t.parts, target.group, t.nextPart);
    DrawPairsEveryMember(t, target.group, receivers);
    ReceiverRows(t.parts, target.group, draws, t.nextDraw, target.givers, receivers);
  }

  /** Rows pairing the listed members as givers make exactly the members give. */
  lemma GiverRows(parts: map<PartId, Participant>, g: GroupId, draws: map<DrawId, Draw>, start: nat,
                  givers: seq<PartId>, receivers: seq<PartId>)
    requires RowsOf(draws, g, start, givers, receivers) && ListsMembers(parts, g, givers)
    ensures forall p :: p in parts && parts[p].group == g <==> Gives(draws, g, p)
  {
    forall p | p in parts && parts[p].group == g ensures Gives(draws, g, p) {
      var i :| 0 <= i < |givers| && givers[i] == p;
      assert DrawIn(draws, start + i, g) && draws[start + i].giver == p;
    }
    forall p | Gives(draws, g, p) ensures p in parts && parts[p].group == g {
      var d: DrawId :| DrawIn(draws, d, g) && draws[d].giver == p;
      assert draws[start + (d - start)].giver == givers[d - start];
    }
  }

  /** Rows whose receivers reorder the members without repetition make every member receive once. */
  lemma ReceiverRows(parts: map<PartId, Participant>, g: GroupId, draws: map<DrawId, Draw>, start: nat,
                     givers: seq<PartId>, receivers: seq<PartId>)
    requires RowsOf(draws, g, start, givers, receivers) && ListsMembers(parts, g, givers)
    requires Distinct(receivers) && forall p :: p in givers <==> p in receivers
    ensures forall p :: p in parts && parts[p].group == g <==> Receives(draws, g, p)
    ensures forall d, e :: DrawIn(draws, d, g) && DrawIn(draws, e, g) && draws[d].receiver == draws[e].receiver ==> d == e
  {
    forall p | p in parts && parts[p].group == g ensures Receives(draws, g, p) {
      var j :| 0 <= j < |receivers| && receivers[j] == p;
      assert DrawIn(draws, start + j, g) && draws[start + j].receiver == p;
    }
    forall p | Receives(draws, g, p) ensures p in parts && parts[p].group == g {
      var d: DrawId :| DrawIn(draws, d, g) && draws[d].receiver == p;
      assert draws[start + (d - start)].receiver == receivers[d - start];
    }
    forall d: DrawId, e: DrawId | DrawIn(draws, d, g) && DrawIn(draws, e, g) && draws[d].receiver == draws[e].receiver
      ensures d == e
    {
      assert draws[start + (d - start)].receiver == receivers[d - start];
      assert draws[start + (e - start)].receiver == receivers[e - start];
    }
  }

  /**
   * When one of the checked shuffles passed, nobody in the group gives to
   * themselves. When all 100 failed, the last shuffle is kept unchecked, so
   * nothing is promised then.
   */
  lemma DrawGroupNoSelfGift(t: Tables, tid: int, shuffle: (seq<PartId>, nat) -> seq<PartId>, now: Instant)
    requires TablesOk(t)
    requires forall s: seq<PartId>, k: nat :: multiset(shuffle(s, k)) == multiset(s)
    requires DrawTargetOf(t, tid).ReadyToDraw?
    ensures var target := DrawTargetOf(t, tid);
      var draws := DrawGroup(t, tid, shuffle, now).tables.draws;
      FirstValid(target.givers, shuffle, 0) < MaxAttempts ==>
        forall d :: DrawIn(draws, d, target.group) ==> draws[d].giver != draws[d].receiver
  {
    var target := DrawTargetOf(t, tid);
    var receivers := Assigned(target.givers, shuffle);
    var draws := WithDraws(t, target.group, target.givers, receivers, now).draws;
    assert DrawGroup(t, tid, shuffle, now).tables.draws == draws;
    if FirstValid(target.givers, shuffle, 0) < MaxAttempts {
      ReadyToDrawActive(t, tid);
      ActiveHasNoDraws(t, target.group);
      NewDrawsOnly(t, target.group, target.givers, receivers, now);
      DerangedRows(draws, target.group, t.nextDraw, target.givers, receivers);
    }
  }

  /** Rows paired without a fixed point have no self-gift. */
  lemma DerangedRows(draws: map<DrawId, Draw>, g: GroupId, start: nat, givers: seq<PartId>, receivers: seq<PartId>)
    requires RowsOf(draws, g, start, givers, receivers) && NoFixedPoint(givers, receivers)
    ensures forall d :: DrawIn(draws, d, g) ==> draws[d].giver != draws[d].receiver
  {
    forall d: DrawId | DrawIn(draws, d, g) ensures draws[d].giver != draws[d].receiver {
      assert draws[start + (d - start)] == Draw(g, givers[d - start], receivers[d - start]);
    }
  }

  // --------------------------------------------------------------- distribute

  /** Where the distribute handler stops, or the group and its Draw rows in key order. */
  datatype DistributeTarget =
    | DistributeUnregistered
    | NoDrawnGroup
    | NoDraws(group: GroupId)
    | ReadyToDistribute(group: GroupId, draws: seq<DrawId>)

  function InDraw(g: GroupId): Draw -> bool {
    (d: Draw) => d.group == g
  }

  /** Draw.objects.filter(group=g). */
  function GroupDraws(t: Tables, g: GroupId): seq<DrawId> {
    KeysWhere(t.draws, InDraw(g), t.nextDraw)
  }

  /** The guards of the distribute handler: a registered sender, a drawn own group, some draws. */
  function DistributeTargetOf(t: Tables, tid: int): (r: DistributeTarget)
    ensures r.NoDraws? ==> r.group in t.groups
    ensures r.ReadyToDistribute? ==> r.group in t.groups && r.draws == GroupDraws(t, r.group)
  {
    match LookupUser(t, tid)
    case None => DistributeUnregistered
    case Some(u) =>
      match OwnedGroup(t, u, {Drawn})
      case None => NoDrawnGroup
      case Some(g) =>
        var draws := GroupDraws(t, g);
        if draws == [] then NoDraws(g) else ReadyToDistribute(g, draws)
  }

  /**
   * The distribute handler runs only for the first drawn group the sender
   * owns, and only when that group has draws; it then works through exactly
   * the group's draws.
   */
  lemma DistributeTargetDecides(t: Tables, tid: int)
    requires TablesOk(t)
    ensures var r := DistributeTargetOf(t, tid);
      && (r == DistributeUnregistered <==> LookupUser(t, tid).None?)
      && (r == NoDrawnGroup <==>
            LookupUser(t, tid).Some? && forall g :: OwnedBy(t, g, tid) ==> t.groups[g].status != Drawn)
      && (r.NoDraws? ==>
            && FirstOwned(t, tid, r.group, {Drawn})
            && forall d :: d in t.draws ==> t.draws[d].group != r.group)
      && (r.ReadyToDistribute? ==>
            && FirstOwned(t, tid, r.group, {Drawn}) && r.draws != []
            && forall d :: d in r.draws <==> DrawIn(t.draws, d, r.group))
  {
    if LookupUser(t, tid).Some? {
      var u := LookupUser(t, tid).value;
      OwnedGroupNone(t, u, {Drawn});
      OwnedGroupFirst(t, u, {Drawn});
      if OwnedGroup(t, u, {Drawn}).Some? {
        var g := OwnedGroup(t, u, {Drawn}).value;
        OwnedByKey(t, u, g);
        assert KeysBelow(t.draws.Keys, t.nextDraw);
      }
    }
  }

  /**
   * The group after distribution: saved as distribution, then saved again as
   * closed when its close date is today or earlier.
   */
  function Distributed(group: Group, today: Date): (r: Group)
    ensures IsSaved(r) && r.owner == group.owner && r.code == group.code && r.name == group.name
    ensures r.giftViaBot == group.giftViaBot && r.drawnAt == group.drawnAt
  {
    var handed := WithStatus(group, Distribution);
    if handed.closeDate.Some? && handed.closeDate.value <= today then WithStatus(handed, Closed) else handed
  }

  /** The new status is closed exactly when the (saved) close date has come, and distribution otherwise. */
  lemma DistributedStatus(group: Group, today: Date)
    requires IsSaved(group)
    ensures Distributed(group, today).status == Closed <==> group.closeDate.Some? && group.closeDate.value <= today
    ensures Distributed(group, today).status in {Distribution, Closed}
    ensures Distributed(group, today).closeDate == group.closeDate
  {
    assert WithStatus(group, Distribution).closeDate == group.closeDate by {
      if group.closeDate.None? {
        assert group.distributionDate.None?;
      }
    }
  }

  /** What a receiver is sent: the giver's photo (with the text as caption), the text, or the placeholder notice. */
  datatype Delivery = PhotoGift(photo: string, message: Option<string>) | TextGift(text: string) | Placeholder

  /**
   * The gift handed to the receiver of `giver`: the stored gift in a
   * gift-via-bot group when there is one, the placeholder notice otherwise.
   * Nothing about the giver but the gift goes into it.
   */
  function GiftDelivery(group: Group, giver: Participant): (r: Delivery)
    ensures r.Placeholder? <==> !group.giftViaBot || !HasContent(Payload(giver.giftMessage, giver.giftPhoto))
    ensures r.PhotoGift? <==> group.giftViaBot && Truthy(giver.giftPhoto)
    ensures r.PhotoGift? ==> Some(r.photo) == giver.giftPhoto && (r.message.Some? <==> Truthy(giver.giftMessage))
    ensures r.PhotoGift? && r.message.Some? ==> r.message == giver.giftMessage
    ensures r.TextGift? ==> Some(r.text) == giver.giftMessage && r.text != ""
  {
    if group.giftViaBot && (Truthy(giver.giftMessage) || Truthy(giver.giftPhoto)) then
      if Truthy(giver.giftPhoto) then
        PhotoGift(giver.giftPhoto.value, if Truthy(giver.giftMessage) then giver.giftMessage else None)
      else TextGift(giver.giftMessage.value)
    else Placeholder
  }

  /** One message to send: the receiver's chat and what it carries. */
  datatype Parcel = Parcel(chat: int, delivery: Delivery)

  /**
   * The message for draw `d`: to the receiver's Telegram id, with the giver's
   * gift. A row that cannot be followed is a failed send (the handler catches
   * the exception and goes on).
   */
  function ParcelOf(t: Tables, group: Group, d: DrawId): (r: Option<Parcel>)
    ensures r.Some? ==> d in t.draws && t.draws[d].giver in t.parts && t.draws[d].receiver in t.parts
    ensures r.Some? ==> t.parts[t.draws[d].receiver].user in t.users
    ensures r.Some? ==> r.value.chat == t.users[t.parts[t.draws[d].receiver].user].telegramId
    ensures r.Some? ==> r.value.delivery == GiftDelivery(group, t.parts[t.draws[d].giver])
  {
    if d in t.draws && t.draws[d].giver in t.parts && t.draws[d].receiver in t.parts
       && t.parts[t.draws[d].receiver].user in t.users
    then
      var draw := t.draws[d];
      Some(Parcel(t.users[t.parts[draw.receiver].user].telegramId, GiftDelivery(group, t.parts[draw.giver])))
    else None
  }

  /**
   * sent_count over the draws `ds`: a parcel counts when it could be built and
   * `send` reports it delivered.
   */
  function CountSent(t: Tables, group: Group, ds: seq<DrawId>, send: Parcel -> bool): (r: nat)
    ensures r <= |ds|
  {
    if ds == [] then 0
    else
      var n := |ds| - 1;
      var p := ParcelOf(t, group, ds[n]);
      CountSent(t, group, ds[..n], send) + (if p.Some? && send(p.value) then 1 else 0)
  }

  /** With every row in place and every send delivered, every draw counts. */
  lemma {:induction false} AllSentWhenDelivered(t: Tables, group: Group, ds: seq<DrawId>, send: Parcel -> bool)
    requires forall i :: 0 <= i < |ds| ==> ParcelOf(t, group, ds[i]).Some? && send(ParcelOf(t, group, ds[i]).value)
    ensures CountSent(t, group, ds, send) == |ds|
    decreases |ds|
  {
    if ds != [] {
      var n := |ds| - 1;
      assert forall i :: 0 <= i < n ==> ds[..n][i] == ds[i];
      AllSentWhenDelivered(t, group, ds[..n], send);
    }
  }

  /** When no send is delivered, nothing counts. */
  lemma {:induction false} NoneSentWhenUnreachable(t: Tables, group: Group, ds: seq<DrawId>, send: Parcel -> bool)
    requires forall p :: !send(p)
    ensures CountSent(t, group, ds, send) == 0
    decreases |ds|
  {
    if ds != [] {
      NoneSentWhenUnreachable(t, group, ds[..|ds| - 1], send);
    }
  }

  /** The outcome of the distribute handler and the number of gifts reported sent. */
  datatype DistributeReport = DistributeReport(target: DistributeTarget, sent: nat)

  /**
   * The distribute handler: one parcel per draw, counted by `send`; then the
   * group moves on to distribution, or to closed when its close date has come.
   * A refused distribution writes nothing.
   */
  function Distribute(t: Tables, tid: int, today: Date, send: Parcel -> bool): (r: Effect<DistributeReport>)
    ensures r.outcome.target == DistributeTargetOf(t, tid)
    ensures !r.outcome.target.ReadyToDistribute? ==> r.tables == t && r.outcome.sent == 0
    ensures r.outcome.target.ReadyToDistribute? ==> r.outcome.sent <= |r.outcome.target.draws|
  {
    var target := DistributeTargetOf(t, tid);
    if target.ReadyToDistribute? then
      var group := t.groups[target.group];
      Effect(SetGroup(t, target.group, Distributed(group, today)),
             DistributeReport(target, CountSent(t, group, target.draws, send)))
    else Effect(t, DistributeReport(target, 0))
  }

  /**
   * Distribution keeps the constraints and writes only the group's status:
   * closed when the close date has come, distribution otherwise. No user,
   * participant, draw or other group changes.
   */
  lemma DistributeOk(t: Tables, tid: int, today: Date, send: Parcel -> bool)
    requires TablesOk(t)
    ensures var r := Distribute(t, tid, today, send);
      && TablesOk(r.tables)
      && r.tables.users == t.users && r.tables.parts == t.parts && r.tables.draws == t.draws
      && r.tables.groups.Keys == t.groups.Keys
      && (forall h :: h in t.groups && !(r.outcome.target.ReadyToDistribute? && h == r.outcome.target.group) ==>
            r.tables.groups[h] == t.groups[h])
      && (r.outcome.target.ReadyToDistribute? ==>
            var g := r.outcome.target.group;
            && (r.tables.groups[g].status == Closed <==> t.groups[g].closeDate.Some? && t.groups[g].closeDate.value <= today)
            && (r.tables.groups[g].status != Closed ==> r.tables.groups[g].status == Distribution))
  {
    var target := DistributeTargetOf(t, tid);
    if target.ReadyToDistribute? {
      var g := target.group;
      var group := t.groups[g];
      assert Distribute(t, tid, today, send).tables == SetGroup(t, g, Distributed(group, today));
      assert GroupRowOk(t.users, t.groups, g);
      DistributedStatus(group, today);
      SetGroupOk(t, g, Distributed(group, today));
    }
  }

  /**
   * Every draw of the distributed group yields a parcel to its receiver's
   * chat carrying its giver's gift, so the count of sent gifts is the number
   * of draws whose send `send` delivers.
   */
  lemma DistributeParcels(t: Tables, tid: int, today: Date, send: Parcel -> bool)
    requires TablesOk(t)
    requires DistributeTargetOf(t, tid).ReadyToDistribute?
    ensures var target := DistributeTargetOf(t, tid);
      forall d :: d in target.draws ==>
        && ParcelOf(t, t.groups[target.group], d).Some?
        && ParcelOf(t, t.groups[target.group], d).value.delivery
             == GiftDelivery(t.groups[target.group], t.parts[t.draws[d].giver])
        && HeldBy(t, t.draws[d].receiver, ParcelOf(t, t.groups[target.group], d).value.chat)
  {
    var target := DistributeTargetOf(t, tid);
    forall d | d in target.draws
      ensures ParcelOf(t, t.groups[target.group], d).Some?
    {
      assert DrawRowOk(t.groups, t.parts, t.draws, d);
      assert PartRowOk(t.users, t.groups, t.parts, t.draws[d].receiver);
    }
  }

  /**
   * A gift saved through the send-gift step reaches the receiver as it was
   * saved: its photo as a photo, its text as the caption or the message.
   */
  lemma StoredGiftDelivered(group: Group, part: Participant, gift: Payload)
    requires group.giftViaBot && HasContent(gift)
    ensures var r := GiftDelivery(group, part.(giftMessage := gift.message, giftPhoto := gift.photo, giftSent := true));
      && !r.Placeholder?
      && (r.PhotoGift? <==> Truthy(gift.photo))
      && (r.PhotoGift? ==> Some(r.photo) == gift.photo)
      && (Truthy(gift.message) ==> (r.PhotoGift? && r.message == gift.message) || (r.TextGift? && Some(r.text) == gift.message))
  {
  }
}
