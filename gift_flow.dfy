// The set-name and send-gift conversations of bot/bot_handler.py, as
// functions from the tables, the accumulator and the incoming message to
// what the step writes and how the conversation goes on. Neither start step
// registers the sender: both use TelegramUser.objects.get, so an unknown
// sender just ends the conversation.

module GiftFlow {
  import opened Text
  import opened Domain
  import opened Session
  import opened Store
  import opened Gift

  /** group__status='active': a group that has not been drawn. */
  function ActiveGroup(g: Group): bool {
    g.status == Active
  }

  /** group__status__in=['drawn', 'distribution'] and group__gift_via_bot=True. */
  function GiftGroup(g: Group): bool {
    g.giftViaBot && (g.status == Drawn || g.status == Distribution)
  }

  /** What the send-gift flow finally offers: a gift-via-bot group that is drawn but not yet distributed. */
  function GiftOpen(g: Group): bool {
    g.giftViaBot && g.status == Drawn
  }

  /** The participation keys of a stored selection list, in list order. */
  function Listed(c: seq<Choice>): (r: seq<PartId>)
    ensures |r| == |c| && forall i :: 0 <= i < |c| ==> r[i] == c[i].participation
  {
    seq(|c|, i requires 0 <= i < |c| => c[i].participation)
  }

  /** The sender holds `p` in a group satisfying `want`, and no other such participation. */
  ghost predicate OnlyHolding(t: Tables, tid: int, want: Group -> bool, p: PartId) {
    HeldIn(t, p, tid, want) && forall q :: HeldIn(t, q, tid, want) ==> q == p
  }

  /**
   * A selection list offers exactly the sender's participations in groups
   * satisfying `want`, in key order, each under its group's name.
   */
  ghost predicate ListsHoldings(t: Tables, tid: int, want: Group -> bool, c: seq<Choice>) {
    && (forall i :: 0 <= i < |c| ==>
          HeldIn(t, c[i].participation, tid, want)
          && c[i].groupName == t.groups[t.parts[c[i].participation].group].name)
    && (forall p :: HeldIn(t, p, tid, want) ==> p in Listed(c))
    && (forall i, j :: 0 <= i < j < |c| ==> c[i].participation < c[j].participation)
  }

  // ------------------------------------------------------------------ set-name

  /** The 3-tuples set_name_start stores: key, group name, current name. */
  function NameChoices(t: Tables, ps: seq<PartId>): (r: seq<Choice>)
    requires forall i :: 0 <= i < |ps| ==> ps[i] in t.parts && t.parts[ps[i]].group in t.groups
    ensures |r| == |ps|
    ensures forall i :: 0 <= i < |ps| ==>
              r[i] == NameChoice(ps[i], t.groups[t.parts[ps[i]].group].name, t.parts[ps[i]].name)
  {
    seq(|ps|, i requires 0 <= i < |ps| => NameChoice(ps[i], t.groups[t.parts[ps[i]].group].name, t.parts[ps[i]].name))
  }

  /**
   * set_name_start: the sender's participations in active groups; with one,
   * its key is stored and the name is asked for; with several, the list is
   * stored and a number is asked for. Ending leaves the accumulator as it is.
   */
  function SetNameStart(t: Tables, sender: User, data: UserData): Reply<SetNameState> {
    match LookupUser(t, sender.telegramId)
    case None => Reply(Ended, data)
    case Some(u) =>
      var ps := Holdings(t, u, ActiveGroup);
      if ps == [] then Reply(Ended, data)
      else if |ps| == 1 then Reply(Await(AwaitNewName), data.(participationId := Some(ps[0])))
      else Reply(Await(AwaitNameSelection), data.(participations := Some(NameChoices(t, ps))))
  }

  /** A selection list built from the holdings in key order lists exactly them. */
  lemma ChoicesListHoldings(t: Tables, tid: int, want: Group -> bool, ps: seq<PartId>, c: seq<Choice>)
    requires forall i :: 0 <= i < |ps| ==> ps[i] in t.parts && t.parts[ps[i]].group in t.groups
    requires forall p :: p in ps <==> HeldIn(t, p, tid, want)
    requires forall i, j :: 0 <= i < j < |ps| ==> ps[i] < ps[j]
    requires Listed(c) == ps
    requires forall i :: 0 <= i < |c| ==> c[i].groupName == t.groups[t.parts[ps[i]].group].name
    ensures ListsHoldings(t, tid, want, c)
  {
    forall i | 0 <= i < |c| ensures HeldIn(t, c[i].participation, tid, want) {
      assert ps[i] in ps;
    }
  }

  /** The start ends exactly when the sender holds nothing in an active group, and then keeps the accumulator. */
  lemma SetNameStartEnds(t: Tables, sender: User, data: UserData)
    requires TablesOk(t)
    ensures var r := SetNameStart(t, sender, data);
      && r.next != Crashed
      && (r.next == Ended <==> forall p :: !HeldIn(t, p, sender.telegramId, ActiveGroup))
      && (r.next == Ended ==> r.data == data)
  {
    var tid := sender.telegramId;
    match LookupUser(t, tid)
    case None =>
      UnregisteredHoldsNothing(t, tid);
    case Some(u) =>
      HoldingsOfUser(t, tid, ActiveGroup);
      var ps := Holdings(t, u, ActiveGroup);
      if ps != [] {
        assert ps[0] in ps;
      }
  }

  /** With one participation in an active group, the start stores its key and asks for the name. */
  lemma SetNameStartSingle(t: Tables, sender: User, data: UserData)
    requires TablesOk(t)
    ensures var r := SetNameStart(t, sender, data);
      r.next == Await(AwaitNewName) ==>
        && r.data.participationId.Some? && r.data == data.(participationId := r.data.participationId)
        && OnlyHolding(t, sender.telegramId, ActiveGroup, r.data.participationId.value)
  {
    var tid := sender.telegramId;
    match LookupUser(t, tid)
    case None =>
    case Some(u) =>
      HoldingsOfUser(t, tid, ActiveGroup);
      var ps := Holdings(t, u, ActiveGroup);
      if |ps| == 1 {
        assert ps[0] in ps;
      }
  }

  /** With several, the start lists them all, in key order, with their current names. */
  lemma SetNameStartLists(t: Tables, sender: User, data: UserData)
    requires TablesOk(t)
    ensures var r := SetNameStart(t, sender, data);
      r.next == Await(AwaitNameSelection) ==>
        && r.data.participations.Some? && r.data == data.(participations := r.data.participations)
        && |r.data.participations.value| >= 2
        && ListsHoldings(t, sender.telegramId, ActiveGroup, r.data.participations.value)
        && (forall i :: 0 <= i < |r.data.participations.value| ==>
              var e := r.data.participations.value[i];
              e.NameChoice? && e.currentName == t.parts[e.participation].name)
  {
    var tid := sender.telegramId;
    match LookupUser(t, tid)
    case None =>
    case Some(u) =>
      var ps := Holdings(t, u, ActiveGroup);
      if |ps| >= 2 {
        HoldingsOfUser(t, tid, ActiveGroup);
        var c := NameChoices(t, ps);
        assert Listed(c) == ps;
        ChoicesListHoldings(t, tid, ActiveGroup, ps, c);
        assert SetNameStart(t, sender, data).data == data.(participations := Some(c));
      }
  }

  /**
   * set_name: a stripped name of at most 200 characters is saved on the
   * stored participation; a missing key ends without writing, and a key
   * whose row is gone raises DoesNotExist.
   */
  function SetName(t: Tables, data: UserData, text: string): Effect<Reply<SetNameState>> {
    match SetNameInput(data, text)
    case NameTooLong => Effect(t, Reply(Await(AwaitNewName), data))
    case NoParticipation => Effect(t, Reply(Ended, Cleared))
    case Rename(p, name) =>
      if p !in t.parts then Effect(t, Reply(Crashed, data))
      else Effect(SetPart(t, p, t.parts[p].(name := name)), Reply(Ended, Cleared))
  }

  /** Renaming keeps the constraints and touches no table but the participants, whose keys stay. */
  lemma SetNameOk(t: Tables, data: UserData, text: string)
    requires TablesOk(t)
    ensures var r := SetName(t, data, text);
      && TablesOk(r.tables)
      && r.tables.users == t.users && r.tables.groups == t.groups && r.tables.draws == t.draws
      && r.tables.parts.Keys == t.parts.Keys
  {
    match SetNameInput(data, text)
    case NameTooLong =>
    case NoParticipation =>
    case Rename(p, name) =>
      if p in t.parts {
        SetPartOk(t, p, t.parts[p].(name := name));
      }
  }

  /**
   * A too long name re-prompts; a missing row crashes; otherwise the
   * conversation ends with the accumulator cleared, and only the stored
   * participation's name is written, as the stripped text.
   */
  lemma SetNameWrites(t: Tables, data: UserData, text: string)
    requires TablesOk(t)
    ensures var r := SetName(t, data, text);
      && (r.outcome.next == Await(AwaitNewName) <==> |Strip(text)| > MaxNameLength)
      && (r.outcome.next == Crashed <==>
            |Strip(text)| <= MaxNameLength && IdGiven(data.participationId) && data.participationId.value !in t.parts)
      && (r.outcome.next == Ended ==> r.outcome.data == Cleared)
      && (r.outcome.next != Ended ==> r.tables == t && r.outcome.data == data)
      && (forall p :: p in t.parts ==>
            r.tables.parts[p] ==
              if r.outcome.next == Ended && data.participationId == Some(p)
              then t.parts[p].(name := Strip(text)) else t.parts[p])
  {
  }

  /**
   * Typing the number shown next to the k-th group of the list renames
   * exactly that participation, which is the sender's own in an active group.
   */
  lemma {:induction false} SetNameByNumber(t: Tables, sender: User, data: UserData, k: nat, text: string)
    requires TablesOk(t)
    requires SetNameStart(t, sender, data).next == Await(AwaitNameSelection)
    requires 1 <= k <= |SetNameStart(t, sender, data).data.participations.value|
    requires |Strip(text)| <= MaxNameLength
    ensures
      var listed := SetNameStart(t, sender, data).data;
      var p := listed.participations.value[k - 1].participation;
      var chosen := SetNameSelect(listed, NatToString(k));
      && HeldIn(t, p, sender.telegramId, ActiveGroup)
      && chosen.next == Await(AwaitNewName) && chosen.data.participationId == Some(p)
      && SetName(t, chosen.data, text) == Effect(SetPart(t, p, t.parts[p].(name := Strip(text))), Reply(Ended, Cleared))
  {
    var listed := SetNameStart(t, sender, data).data;
    SetNameStartLists(t, sender, data);
    var p := listed.participations.value[k - 1].participation;
    assert HeldIn(t, p, sender.telegramId, ActiveGroup);
    assert 0 !in t.parts;
    SetNameChosen(t, listed, k, text);
  }

  /** Selecting the k-th name entry and then typing a short name renames that entry's participation. */
  lemma SetNameChosen(t: Tables, listed: UserData, k: nat, text: string)
    requires listed.participations.Some? && 1 <= k <= |listed.participations.value|
    requires listed.participations.value[k - 1].NameChoice?
    requires listed.participations.value[k - 1].participation in t.parts && 0 !in t.parts
    requires |Strip(text)| <= MaxNameLength
    ensures
      var p := listed.participations.value[k - 1].participation;
      var chosen := SetNameSelect(listed, NatToString(k));
      && chosen.next == Await(AwaitNewName) && chosen.data.participationId == Some(p)
      && SetName(t, chosen.data, text) == Effect(SetPart(t, p, t.parts[p].(name := Strip(text))), Reply(Ended, Cleared))
  {
    var p := listed.participations.value[k - 1].participation;
    SetNameSelectsShown(listed, k);
    SetNameSaves(t, SetNameSelect(listed, NatToString(k)).data, p, text);
  }

  lemma SetNameSelectsShown(listed: UserData, k: nat)
    requires listed.participations.Some? && 1 <= k <= |listed.participations.value|
    requires listed.participations.value[k - 1].NameChoice?
    ensures var chosen := SetNameSelect(listed, NatToString(k));
      chosen.next == Await(AwaitNewName) && chosen.data.participationId == Some(listed.participations.value[k - 1].participation)
  {
    SelectByShownNumber(listed, k);
  }

  lemma SetNameSaves(t: Tables, data: UserData, p: PartId, text: string)
    requires data.participationId == Some(p) && p in t.parts && p != 0
    requires |Strip(text)| <= MaxNameLength
    ensures SetName(t, data, text) == Effect(SetPart(t, p, t.parts[p].(name := Strip(text))), Reply(Ended, Cleared))
  {
  }

  // ----------------------------------------------------------------- send-gift

  /** The 2-tuples send_gift_start stores: key and group name. */
  function GiftChoices(t: Tables, ps: seq<PartId>): (r: seq<Choice>)
    requires forall i :: 0 <= i < |ps| ==> ps[i] in t.parts && t.parts[ps[i]].group in t.groups
    ensures |r| == |ps|
    ensures forall i :: 0 <= i < |ps| ==> r[i] == GiftChoice(ps[i], t.groups[t.parts[ps[i]].group].name)
  {
    seq(|ps|, i requires 0 <= i < |ps| => GiftChoice(ps[i], t.groups[t.parts[ps[i]].group].name))
  }

  /** The list comprehension keeping the participations whose group is still drawn, in order. */
  function DrawnOnly(t: Tables, ps: seq<PartId>): (r: seq<PartId>)
    requires forall i :: 0 <= i < |ps| ==> ps[i] in t.parts && t.parts[ps[i]].group in t.groups
    ensures forall i :: 0 <= i < |r| ==> r[i] in t.parts && t.parts[r[i]].group in t.groups
    ensures forall p :: p in r <==> p in ps && t.groups[t.parts[p].group].status == Drawn
    ensures (forall i, j :: 0 <= i < j < |ps| ==> ps[i] < ps[j]) ==> forall i, j :: 0 <= i < j < |r| ==> r[i] < r[j]
  {
    if ps == [] then []
    else
      var n := |ps| - 1;
      var front := DrawnOnly(t, ps[..n]);
      assert forall p :: p in ps <==> p in ps[..n] || p == ps[n];
      if t.groups[t.parts[ps[n]].group].status == Drawn then front + [ps[n]] else front
  }

  /**
   * send_gift_start: the sender's participations in gift-via-bot groups that
   * are drawn or being distributed, then only those still drawn; one is
   * stored directly, several are listed for a number.
   */
  function SendGiftStart(t: Tables, sender: User, data: UserData): Reply<SendGiftState> {
    match LookupUser(t, sender.telegramId)
    case None => Reply(Ended, data)
    case Some(u) =>
      var candidates := Holdings(t, u, GiftGroup);
      if candidates == [] then Reply(Ended, data)
      else
        var ps := DrawnOnly(t, candidates);
        if ps == [] then Reply(Ended, data)
        else if |ps| == 1 then Reply(Await(AwaitGift), data.(participationId := Some(ps[0])))
        else Reply(Await(AwaitGiftSelection), data.(participations := Some(GiftChoices(t, ps))))
  }

  /** The participations send_gift_start finally keeps are the sender's in drawn gift-via-bot groups, in key order. */
  lemma DrawnHoldings(t: Tables, tid: int)
    requires TablesOk(t) && LookupUser(t, tid).Some?
    ensures var ps := DrawnOnly(t, Holdings(t, LookupUser(t, tid).value, GiftGroup));
      && (forall p :: p in ps <==> HeldIn(t, p, tid, GiftOpen))
      && (forall i, j :: 0 <= i < j < |ps| ==> ps[i] < ps[j])
  {
    var candidates := Holdings(t, LookupUser(t, tid).value, GiftGroup);
    HoldingsOfUser(t, tid, GiftGroup);
    forall p ensures p in DrawnOnly(t, candidates) <==> HeldIn(t, p, tid, GiftOpen) {
      assert HeldIn(t, p, tid, GiftOpen) <==> HeldIn(t, p, tid, GiftGroup) && t.groups[t.parts[p].group].status == Drawn;
    }
  }

  /** The start ends exactly when the sender holds nothing in a drawn gift-via-bot group, and then keeps the accumulator. */
  lemma SendGiftStartEnds(t: Tables, sender: User, data: UserData)
    requires TablesOk(t)
    ensures var r := SendGiftStart(t, sender, data);
      && r.next != Crashed
      && (r.next == Ended <==> forall p :: !HeldIn(t, p, sender.telegramId, GiftOpen))
      && (r.next == Ended ==> r.data == data)
  {
    var tid := sender.telegramId;
    match LookupUser(t, tid)
    case None =>
      UnregisteredHoldsNothing(t, tid);
    case Some(u) =>
      DrawnHoldings(t, tid);
      var candidates := Holdings(t, u, GiftGroup);
      var ps := DrawnOnly(t, candidates);
      if candidates == [] {
        assert ps == [];
      }
      if ps == [] {
        forall p ensures !HeldIn(t, p, tid, GiftOpen) {
          assert p !in ps;
        }
      } else {
        assert HeldIn(t, ps[0], tid, GiftOpen);
      }
  }

  /** With one such participation, the start stores its key and asks for the gift. */
  lemma SendGiftStartSingle(t: Tables, sender: User, data: UserData)
    requires TablesOk(t)
    ensures var r := SendGiftStart(t, sender, data);
      r.next == Await(AwaitGift) ==>
        && r.data.participationId.Some? && r.data == data.(participationId := r.data.participationId)
        && OnlyHolding(t, sender.telegramId, GiftOpen, r.data.participationId.value)
  {
    var tid := sender.telegramId;
    match LookupUser(t, tid)
    case None =>
    case Some(u) =>
      var candidates := Holdings(t, u, GiftGroup);
      var ps := DrawnOnly(t, candidates);
      if candidates != [] && |ps| == 1 {
        DrawnHoldings(t, tid);
        assert ps[0] in ps;
        assert ps == [ps[0]];
      }
  }

  /** With several, the start lists them all, in key order. */
  lemma SendGiftStartLists(t: Tables, sender: User, data: UserData)
    requires TablesOk(t)
    ensures var r := SendGiftStart(t, sender, data);
      r.next == Await(AwaitGiftSelection) ==>
        && r.data.participations.Some? && r.data == data.(participations := r.data.participations)
        && |r.data.participations.value| >= 2
        && ListsHoldings(t, sender.telegramId, GiftOpen, r.data.participations.value)
        && (forall i :: 0 <= i < |r.data.participations.value| ==> r.data.participations.value[i].GiftChoice?)
  {
    var tid := sender.telegramId;
    match LookupUser(t, tid)
    case None =>
    case Some(u) =>
      var ps := DrawnOnly(t, Holdings(t, u, GiftGroup));
      if |ps| >= 2 {
        DrawnHoldings(t, tid);
        var c := GiftChoices(t, ps);
        assert Listed(c) == ps;
        ChoicesListHoldings(t, tid, GiftOpen, ps, c);
      }
  }

  /**
   * send_gift_select_group: the shared selection, then the lookup of the
   * chosen participation, which raises DoesNotExist after the accumulator
   * has already been updated.
   */
  function SendGiftSelectGroup(t: Tables, data: UserData, text: string): (r: Reply<SendGiftState>)
    ensures r.next == Await(AwaitGift) <==>
              SendGiftSelect(data, text).next == Await(AwaitGift) && SendGiftSelect(data, text).data.participationId.value in t.parts
    ensures r.data == SendGiftSelect(data, text).data
    ensures r.next != Crashed ==> r == SendGiftSelect(data, text)
  {
    var chosen := SendGiftSelect(data, text);
    if chosen.next == Await(AwaitGift) && chosen.data.participationId.value !in t.parts then Reply(Crashed, chosen.data)
    else chosen
  }

  /** The participant row with the accepted gift stored and gift_sent set. */
  function WithGift(part: Participant, gift: Payload): Participant {
    part.(giftMessage := gift.message, giftPhoto := gift.photo, giftSent := true)
  }

  /**
   * send_gift: without a stored key the conversation ends; a key whose row is
   * gone raises DoesNotExist; otherwise the message is applied to the stored
   * gift, and only an accepted gift is saved, with gift_sent set.
   */
  function SendGift(t: Tables, data: UserData, m: Message): Effect<Reply<SendGiftState>> {
    if !IdGiven(data.participationId) then Effect(t, Reply(Ended, Cleared))
    else
      var p := data.participationId.value;
      if p !in t.parts then Effect(t, Reply(Crashed, data))
      else
        var part := t.parts[p];
        match ApplyGift(Payload(part.giftMessage, part.giftPhoto), m)
        case Accepted(gift) => Effect(SetPart(t, p, WithGift(part, gift)), Reply(Ended, Cleared))
        case _ => Effect(t, Reply(Await(AwaitGift), data))
  }

  /**
   * Sending a gift keeps the constraints and writes at most the stored
   * participation: its gift becomes the accepted payload, which has content,
   * and it is marked as sent; a refused message re-prompts without writing.
   */
  lemma SendGiftOk(t: Tables, data: UserData, m: Message)
    requires TablesOk(t)
    ensures var r := SendGift(t, data, m);
      var pid := data.participationId;
      && TablesOk(r.tables)
      && r.tables.users == t.users && r.tables.groups == t.groups && r.tables.draws == t.draws
      && r.tables.parts.Keys == t.parts.Keys
      && (r.outcome.next == Crashed <==> IdGiven(pid) && pid.value !in t.parts)
      && (r.outcome.next == Await(AwaitGift) <==>
            IdGiven(pid) && pid.value in t.parts
            && !ApplyGift(Payload(t.parts[pid.value].giftMessage, t.parts[pid.value].giftPhoto), m).Accepted?)
      && (r.outcome.next == Ended ==> r.outcome.data == Cleared)
      && (r.outcome.next != Ended ==> r.tables == t && r.outcome.data == data)
      && (forall p :: p in t.parts && pid != Some(p) ==> r.tables.parts[p] == t.parts[p])
      && (r.outcome.next == Ended && pid.Some? && pid.value in t.parts ==>
            var before := t.parts[pid.value];
            var after := r.tables.parts[pid.value];
            && after.giftSent && HasContent(Payload(after.giftMessage, after.giftPhoto))
            && Accepted(Payload(after.giftMessage, after.giftPhoto)) == ApplyGift(Payload(before.giftMessage, before.giftPhoto), m)
            && after.group == before.group && after.user == before.user && after.name == before.name)
  {
    if IdGiven(data.participationId) && data.participationId.value in t.parts {
      var p := data.participationId.value;
      var part := t.parts[p];
      match ApplyGift(Payload(part.giftMessage, part.giftPhoto), m)
      case Accepted(gift) =>
        SetPartOk(t, p, WithGift(part, gift));
      case _ =>
    }
  }

  /**
   * Typing the number shown next to the k-th group and then an acceptable
   * gift stores that gift on exactly that participation, which is the
   * sender's own in a drawn gift-via-bot group.
   */
  lemma {:induction false} SendGiftByNumber(t: Tables, sender: User, data: UserData, k: nat, m: Message)
    requires TablesOk(t)
    requires SendGiftStart(t, sender, data).next == Await(AwaitGiftSelection)
    requires 1 <= k <= |SendGiftStart(t, sender, data).data.participations.value|
    ensures
      var listed := SendGiftStart(t, sender, data).data;
      var p := listed.participations.value[k - 1].participation;
      var chosen := SendGiftSelectGroup(t, listed, NatToString(k));
      && HeldIn(t, p, sender.telegramId, GiftOpen)
      && chosen.next == Await(AwaitGift) && chosen.data.participationId == Some(p)
      && (ApplyGift(Payload(t.parts[p].giftMessage, t.parts[p].giftPhoto), m).Accepted? ==>
            SendGift(t, chosen.data, m) ==
              Effect(SetPart(t, p, WithGift(t.parts[p], ApplyGift(Payload(t.parts[p].giftMessage, t.parts[p].giftPhoto), m).payload)),
                     Reply(Ended, Cleared)))
  {
    var listed := SendGiftStart(t, sender, data).data;
    SendGiftStartLists(t, sender, data);
    var p := listed.participations.value[k - 1].participation;
    assert HeldIn(t, p, sender.telegramId, GiftOpen);
    assert 0 !in t.parts;
    SendGiftChosen(t, listed, k, m);
  }

  /** Selecting the k-th gift entry and then sending an acceptable gift stores it on that entry's participation. */
  lemma SendGiftChosen(t: Tables, listed: UserData, k: nat, m: Message)
    requires listed.participations.Some? && 1 <= k <= |listed.participations.value|
    requires listed.participations.value[k - 1].GiftChoice?
    requires listed.participations.value[k - 1].participation in t.parts && 0 !in t.parts
    ensures
      var p := listed.participations.value[k - 1].participation;
      var chosen := SendGiftSelectGroup(t, listed, NatToString(k));
      && chosen.next == Await(AwaitGift) && chosen.data.participationId == Some(p)
      && (ApplyGift(Payload(t.parts[p].giftMessage, t.parts[p].giftPhoto), m).Accepted? ==>
            SendGift(t, chosen.data, m) ==
              Effect(SetPart(t, p, WithGift(t.parts[p], ApplyGift(Payload(t.parts[p].giftMessage, t.parts[p].giftPhoto), m).payload)),
                     Reply(Ended, Cleared)))
  {
    var p := listed.participations.value[k - 1].participation;
    SendGiftSelectsShown(t, listed, k);
    SendGiftSaves(t, SendGiftSelectGroup(t, listed, NatToString(k)).data, p, m);
  }

  lemma SendGiftSelectsShown(t: Tables, listed: UserData, k: nat)
    requires listed.participations.Some? && 1 <= k <= |listed.participations.value|
    requires listed.participations.value[k - 1].GiftChoice?
    requires listed.participations.value[k - 1].participation in t.parts
    ensures var chosen := SendGiftSelectGroup(t, listed, NatToString(k));
      chosen.next == Await(AwaitGift) && chosen.data.participationId == Some(listed.participations.value[k - 1].participation)
  {
    SelectByShownNumber(listed, k);
  }

  lemma SendGiftSaves(t: Tables, data: UserData, p: PartId, m: Message)
    requires data.participationId == Some(p) && p in t.parts && p != 0
    ensures var gift := ApplyGift(Payload(t.parts[p].giftMessage, t.parts[p].giftPhoto), m);
      gift.Accepted? ==> SendGift(t, data, m) == Effect(SetPart(t, p, WithGift(t.parts[p], gift.payload)), Reply(Ended, Cleared))
  {
  }
}
