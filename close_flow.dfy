// The close-group and delete-group conversations of bot/bot_handler.py. An
// owner force-closes an open group, with a notice to every participant; a
// closed group is then deleted by its owner (the whole group, by cascade) or
// left by a participant (only their participation). The message and
// selection steps take the owner test as a parameter: AsWritten compares the
// stored owner key with the sender's Telegram id, as the handlers do;
// Intended compares it with the sender's own key. The bot applies AsWritten.

module CloseFlow {
  import opened Text
  import opened Domain
  import opened Session
  import opened Store

  // -------------------------------------------------------------- close start

  /**
   * close_group_start: the first group the sender owns that is active, drawn
   * or in distribution is remembered in close_group_id, and the notice is
   * asked for. Ending leaves the accumulator as it is.
   */
  function CloseGroupStart(t: Tables, sender: User, data: UserData): Reply<CloseState> {
    match LookupUser(t, sender.telegramId)
    case None => Reply(Ended, data)
    case Some(u) =>
      match OwnedGroup(t, u, OpenStatuses)
      case None => Reply(Ended, data)
      case Some(g) => Reply(Await(AwaitCloseMessage), data.(closeGroupId := Some(g)))
  }

  /**
   * The start offers a group exactly when the sender owns an open one, and
   * the group it remembers is such a group.
   */
  lemma CloseGroupStartOffers(t: Tables, sender: User, data: UserData)
    requires TablesOk(t)
    ensures var r := CloseGroupStart(t, sender, data);
      var tid := sender.telegramId;
      && (r.next == Ended <==> forall g :: OwnedBy(t, g, tid) ==> t.groups[g].status !in OpenStatuses)
      && (r.next == Ended ==> r.data == data)
      && (r.next != Ended ==>
            && r.next == Await(AwaitCloseMessage)
            && r.data == data.(closeGroupId := r.data.closeGroupId)
            && r.data.closeGroupId.Some?
            && FirstOwned(t, tid, r.data.closeGroupId.value, OpenStatuses))
  {
    var tid := sender.telegramId;
    match LookupUser(t, tid)
    case None =>
    case Some(u) =>
      OwnedGroupNone(t, u, OpenStatuses);
      OwnedGroupFirst(t, u, OpenStatuses);
      if OwnedGroup(t, u, OpenStatuses).Some? {
        OwnedByKey(t, u, OwnedGroup(t, u, OpenStatuses).value);
      }
  }

  // ------------------------------------------------------------ close message

  /** How close_group_message decides, in the handler's order of checks. */
  datatype CloseDecision =
    | NoCloseGroup
    | CloseGroupGone
    | NotOwner
    | MessageTooLong
    | CloseNow(group: GroupId, notice: Option<string>)

  /** The sender, looked up by Telegram id, owns group `g` (the corrected owner test). */
  predicate SenderOwns(t: Tables, tid: int, g: GroupId)
    requires g in t.groups
  {
    match LookupUser(t, tid)
    case None => false
    case Some(k) => OwnerCheck(t.groups[g], k)
  }

  lemma SenderOwnsIsOwnership(t: Tables, tid: int, g: GroupId)
    requires TablesOk(t) && g in t.groups
    ensures SenderOwns(t, tid, g) <==> OwnedBy(t, g, tid)
  {
    assert GroupRowOk(t.users, t.groups, g);
    if LookupUser(t, tid).Some? {
      LookupKeyUnique(t, tid, t.groups[g].owner);
    }
  }

  /** Which owner test a step applies: the one the handlers are written with, or the intended one. */
  datatype OwnerTest = AsWritten | Intended

  /** The sender with Telegram id `tid` passes the owner test `test` for group `g`. */
  predicate OwnerPasses(test: OwnerTest, t: Tables, tid: int, g: GroupId)
    requires g in t.groups
  {
    match test
    case AsWritten => OwnerCheckAsWritten(t.groups[g], tid)
    case Intended => SenderOwns(t, tid, g)
  }

  /** The intended test passes exactly for the owner; the written one exactly when the owner key equals the Telegram id. */
  lemma OwnerPassesMeans(test: OwnerTest, t: Tables, tid: int, g: GroupId)
    requires TablesOk(t) && g in t.groups
    ensures test == Intended ==> (OwnerPasses(test, t, tid, g) <==> OwnedBy(t, g, tid))
    ensures test == AsWritten ==> (OwnerPasses(test, t, tid, g) <==> t.groups[g].owner == tid)
  {
    SenderOwnsIsOwnership(t, tid, g);
  }

  function CloseDecisionOf(test: OwnerTest, t: Tables, tid: int, data: UserData, text: string): (r: CloseDecision)
    ensures r.CloseNow? ==> r.group in t.groups
  {
    if !IdGiven(data.closeGroupId) then NoCloseGroup
    else
      var g := data.closeGroupId.value;
      if g !in t.groups then CloseGroupGone
      else if !OwnerPasses(test, t, tid, g) then NotOwner
      else match CloseNotice(text)
        case CloseTooLong => MessageTooLong
        case Notice(custom) => CloseNow(g, custom)
  }

  /**
   * The group is closed exactly when a group is remembered, still exists,
   * passes the owner test and the notice is acceptable; a missing key, a
   * vanished group and a failed owner test are told apart in that order.
   * Under the intended test the owner test is ownership.
   */
  lemma CloseDecisionDecides(test: OwnerTest, t: Tables, tid: int, data: UserData, text: string)
    requires TablesOk(t)
    ensures var r := CloseDecisionOf(test, t, tid, data, text);
      var g := data.closeGroupId.GetOr(0);
      var passes := g in t.groups && OwnerPasses(test, t, tid, g);
      && (r == NoCloseGroup <==> !IdGiven(data.closeGroupId))
      && (r == CloseGroupGone <==> IdGiven(data.closeGroupId) && g !in t.groups)
      && (r == NotOwner <==> IdGiven(data.closeGroupId) && g in t.groups && !passes)
      && (r == MessageTooLong <==> IdGiven(data.closeGroupId) && passes && CloseNotice(text) == CloseTooLong)
      && (r.CloseNow? <==> IdGiven(data.closeGroupId) && passes && CloseNotice(text).Notice?)
      && (r.CloseNow? ==> r.group == g && r.notice == CloseNotice(text).custom)
      && (test == Intended ==> (passes <==> OwnedBy(t, g, tid)))
  {
    var g := data.closeGroupId.GetOr(0);
    if g in t.groups {
      OwnerPassesMeans(test, t, tid, g);
    } else {
      assert !OwnedBy(t, g, tid);
    }
  }

  /**
   * notified_count over the participants `ps`: a notice counts when the
   * participant's user can be followed and `reach` reports the send delivered.
   */
  function NotifiedCount(t: Tables, ps: seq<PartId>, reach: int -> bool): (r: nat)
    ensures r <= |ps|
  {
    if ps == [] then 0
    else
      var n := |ps| - 1;
      var p := ps[n];
      var hit := p in t.parts && t.parts[p].user in t.users && reach(t.users[t.parts[p].user].telegramId);
      NotifiedCount(t, ps[..n], reach) + (if hit then 1 else 0)
  }

  /** With every participant reachable, every participant is notified. */
  lemma {:induction false} AllNotifiedWhenReachable(t: Tables, ps: seq<PartId>, reach: int -> bool)
    requires TablesOk(t)
    requires forall i :: 0 <= i < |ps| ==> ps[i] in t.parts
    requires forall c :: reach(c)
    ensures NotifiedCount(t, ps, reach) == |ps|
    decreases |ps|
  {
    if ps != [] {
      var n := |ps| - 1;
      assert PartRowOk(t.users, t.groups, t.parts, ps[n]);
      assert forall i :: 0 <= i < n ==> ps[..n][i] == ps[i];
      AllNotifiedWhenReachable(t, ps[..n], reach);
    }
  }

  /** What close_group_message did: its decision, its reply and how many participants it notified. */
  datatype CloseReport = CloseReport(decision: CloseDecision, reply: Reply<CloseState>, notified: nat)

  /** The group row after the forced close. */
  function ClosedRow(group: Group): (r: Group)
    ensures IsSaved(r) && r.status == Closed && r.isClosed
    ensures r.owner == group.owner && r.code == group.code && r.name == group.name
  {
    WithStatus(group, Closed)
  }

  /**
   * close_group_message: every refusal but the over-long notice ends the
   * conversation and clears the accumulator; the over-long notice asks
   * again. Closing notifies the participants through `reach` and saves the
   * group as closed.
   */
  function CloseGroupMessage(test: OwnerTest, t: Tables, tid: int, data: UserData, text: string, reach: int -> bool): (r: Effect<CloseReport>)
    ensures r.outcome.decision == CloseDecisionOf(test, t, tid, data, text)
    ensures !r.outcome.decision.CloseNow? ==> r.tables == t && r.outcome.notified == 0
  {
    var decision := CloseDecisionOf(test, t, tid, data, text);
    match decision
    case MessageTooLong => Effect(t, CloseReport(decision, Reply(Await(AwaitCloseMessage), data), 0))
    case CloseNow(g, _) =>
      var members := Members(t.parts, g, t.nextPart);
      Effect(SetGroup(t, g, ClosedRow(t.groups[g])), CloseReport(decision, Reply(Ended, Cleared), NotifiedCount(t, members, reach)))
    case _ => Effect(t, CloseReport(decision, Reply(Ended, Cleared), 0))
  }

  /**
   * The message step keeps the constraints. Closing writes only the group,
   * now closed, notifies at most its participants and ends with a cleared
   * accumulator; an over-long notice asks again with the accumulator kept;
   * every other refusal ends with it cleared.
   */
  lemma CloseGroupMessageOk(test: OwnerTest, t: Tables, tid: int, data: UserData, text: string, reach: int -> bool)
    requires TablesOk(t)
    ensures var r := CloseGroupMessage(test, t, tid, data, text, reach);
      && TablesOk(r.tables)
      && (r.outcome.reply.next == Await(AwaitCloseMessage) <==> r.outcome.decision == MessageTooLong)
      && (r.outcome.reply.next == Await(AwaitCloseMessage) ==> r.outcome.reply.data == data)
      && (r.outcome.reply.next != Await(AwaitCloseMessage) ==> r.outcome.reply == Reply(Ended, Cleared))
      && (r.outcome.decision.CloseNow? ==>
            var g := r.outcome.decision.group;
            && r.tables.groups[g].status == Closed && r.tables.groups[g].isClosed
            && r.tables.groups.Keys == t.groups.Keys
            && (forall h :: h in t.groups && h != g ==> r.tables.groups[h] == t.groups[h])
            && r.tables.users == t.users && r.tables.parts == t.parts && r.tables.draws == t.draws
            && r.outcome.notified <= |Members(t.parts, g, t.nextPart)|)
  {
    var decision := CloseDecisionOf(test, t, tid, data, text);
    if decision.CloseNow? {
      var g := decision.group;
      assert CloseGroupMessage(test, t, tid, data, text, reach).tables == SetGroup(t, g, ClosedRow(t.groups[g]));
      SetGroupOk(t, g, ClosedRow(t.groups[g]));
    }
  }

  /**
   * The test as written turns away an owner whose key is not their Telegram
   * id: the group stays open, nothing is written and the accumulator is
   * cleared.
   */
  lemma CloseRefusesOwnerAsWritten(t: Tables, tid: int, data: UserData, text: string, reach: int -> bool)
    requires TablesOk(t) && IdGiven(data.closeGroupId)
    requires OwnedBy(t, data.closeGroupId.value, tid) && t.groups[data.closeGroupId.value].owner != tid
    ensures var r := CloseGroupMessage(AsWritten, t, tid, data, text, reach);
      && r.outcome.decision == NotOwner
      && r.tables == t && r.outcome.notified == 0
      && r.outcome.reply == Reply(Ended, Cleared)
  {
  }
}
