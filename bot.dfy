// The bot's database as the handlers of bot/bot_handler.py and the
// close_all_groups command use it: four tables updated in place. Each
// handler that writes is a method here; its loops (the draw rows, sent_count,
// notified_count, deleted_count, the sweep) are proved to compute the
// functional model of the handler, so every property proved about that model
// holds of the stored tables after the call.

module Bot {
  import opened Text
  import opened Domain
  import opened Session
  import opened Store
  import opened Gift
  import opened Assignment
  import Invite
  import JoinFlow
  import GiftFlow
  import DrawFlow
  import CloseFlow
  import DeleteFlow
  import CloseAll

  class Database {
    var users: map<UserKey, User>
    var groups: map<GroupId, Group>
    var parts: map<PartId, Participant>
    var draws: map<DrawId, Domain.Draw>
    var nextUser: nat
    var nextGroup: nat
    var nextPart: nat
    var nextDraw: nat

    /** The stored tables as a value. */
    function Snapshot(): Tables
      reads this
    {
      Tables(users, groups, parts, draws, nextUser, nextGroup, nextPart, nextDraw)
    }

    /** The constraints of the models hold. */
    ghost predicate Valid()
      reads this
    {
      TablesOk(Snapshot())
    }

    /** A fresh, empty database. */
    constructor()
      ensures Snapshot() == Empty && Valid()
    {
      users, groups, parts, draws := map[], map[], map[], map[];
      nextUser, nextGroup, nextPart, nextDraw := 1, 1, 1, 1;
    }

    /** Store the tables `t` (one transaction's writes). */
    method Commit(t: Tables)
      modifies this
      ensures Snapshot() == t
    {
      users, groups, parts, draws := t.users, t.groups, t.parts, t.draws;
      nextUser, nextGroup, nextPart, nextDraw := t.nextUser, t.nextGroup, t.nextPart, t.nextDraw;
    }

    // ---------------------------------------------------------------- start

    /** /start: register the sender or refresh their stored names; the reply is text only. */
    method Start(sender: User)
      requires Valid()
      modifies this
      ensures Valid()
      ensures Snapshot() == Store.Touch(old(Snapshot()), sender)
    {
      Store.TouchOk(Snapshot(), sender);
      Commit(Store.Touch(Snapshot(), sender));
    }

    // --------------------------------------------------------- create-group

    /** create_group_start: get_or_create the sender, then refuse while they own an open group. */
    method CreateGroupStart(sender: User) returns (next: Next<CreateState>)
      requires Valid()
      modifies this
      ensures Valid()
      ensures var r := JoinFlow.CreateGroupStart(old(Snapshot()), sender);
        Snapshot() == r.tables && next == r.outcome
    {
      var r := JoinFlow.CreateGroupStart(Snapshot(), sender);
      JoinFlow.CreateGroupStartOk(Snapshot(), sender);
      Commit(r.tables);
      next := r.outcome;
    }

    /**
     * create_group_close_date: the group is created with a code drawn from
     * `tokens` (Group.generate_code) that no group uses.
     */
    method CreateGroupFinish(sender: User, data: UserData, text: string, parseDate: string -> Option<Date>, tokens: seq<string>)
      returns (reply: Reply<CreateState>)
      requires Valid()
      requires exists i :: 0 <= i < |tokens| && CodeOf(tokens[i]) !in Codes(groups)
      modifies this
      ensures Valid()
      ensures exists code :: code !in Codes(old(groups)) &&
                var r := JoinFlow.CreateGroupFinish(old(Snapshot()), sender, data, text, parseDate, code);
                Snapshot() == r.tables && reply == r.outcome
    {
      var code, _ := GenerateCode(Codes(groups), tokens);
      var r := JoinFlow.CreateGroupFinish(Snapshot(), sender, data, text, parseDate, code);
      JoinFlow.CreateGroupFinishOk(Snapshot(), sender, data, text, parseDate, code);
      Commit(r.tables);
      reply := r.outcome;
    }

    // -------------------------------------------------------------- joining

    /** join_group_code. */
    method JoinGroupCode(sender: User, text: string) returns (outcome: JoinFlow.JoinOutcome)
      requires Valid()
      modifies this
      ensures Valid()
      ensures var r := JoinFlow.JoinGroupCode(old(Snapshot()), sender, text);
        Snapshot() == r.tables && outcome == r.outcome
    {
      var r := JoinFlow.JoinGroupCode(Snapshot(), sender, text);
      JoinFlow.JoinOk(Snapshot(), sender, Invite.TypedCode(text));
      Commit(r.tables);
      outcome := r.outcome;
    }

    /** handle_forwarded_message. */
    method HandleForwarded(sender: User, text: Option<string>, caption: Option<string>) returns (outcome: Option<JoinFlow.JoinOutcome>)
      requires Valid()
      modifies this
      ensures Valid()
      ensures var r := JoinFlow.HandleForwarded(old(Snapshot()), sender, text, caption);
        Snapshot() == r.tables && outcome == r.outcome
    {
      var r := JoinFlow.HandleForwarded(Snapshot(), sender, text, caption);
      var code := Invite.ExtractCode(Invite.ForwardedText(text, caption));
      if code.Some? {
        JoinFlow.JoinOk(Snapshot(), sender, code.value);
      }
      Commit(r.tables);
      outcome := r.outcome;
    }

    /** leave_group. */
    method LeaveGroup(sender: User) returns (outcome: JoinFlow.LeaveOutcome)
      requires Valid()
      modifies this
      ensures Valid()
      ensures var r := JoinFlow.LeaveGroup(old(Snapshot()), sender);
        Snapshot() == r.tables && outcome == r.outcome
    {
      var r := JoinFlow.LeaveGroup(Snapshot(), sender);
      JoinFlow.LeaveGroupOk(Snapshot(), sender);
      Commit(r.tables);
      outcome := r.outcome;
    }

    // ------------------------------------------------------ set-name, gifts

    /** set_name: the participation's name field is updated and saved. */
    method SetName(data: UserData, text: string) returns (reply: Reply<SetNameState>)
      requires Valid()
      modifies this
      ensures Valid()
      ensures var r := GiftFlow.SetName(old(Snapshot()), data, text);
        Snapshot() == r.tables && reply == r.outcome
    {
      GiftFlow.SetNameOk(Snapshot(), data, text);
      match SetNameInput(data, text)
      case NameTooLong =>
        reply := Reply(Await(AwaitNewName), data);
      case NoParticipation =>
        reply := Reply(Ended, Cleared);
      case Rename(p, name) =>
        if p !in parts {
          reply := Reply(Crashed, data);
        } else {
          parts := parts[p := parts[p].(name := name)];
          reply := Reply(Ended, Cleared);
        }
    }

    /** send_gift: the participation's gift fields and gift_sent are updated and saved. */
    method SendGift(data: UserData, m: Message) returns (reply: Reply<SendGiftState>)
      requires Valid()
      modifies this
      ensures Valid()
      ensures var r := GiftFlow.SendGift(old(Snapshot()), data, m);
        Snapshot() == r.tables && reply == r.outcome
    {
      GiftFlow.SendGiftOk(Snapshot(), data, m);
      if !IdGiven(data.participationId) {
        reply := Reply(Ended, Cleared);
        return;
      }
      var p := data.participationId.value;
      if p !in parts {
        reply := Reply(Crashed, data);
        return;
      }
      var part := parts[p];
      match ApplyGift(Payload(part.giftMessage, part.giftPhoto), m)
      case Accepted(gift) =>
        parts := parts[p := part.(giftMessage := gift.message, giftPhoto := gift.photo, giftSent := true)];
        reply := Reply(Ended, Cleared);
      case _ =>
        reply := Reply(Await(AwaitGift), data);
    }

    // ----------------------------------------------------------------- draw

    /** The Draw.objects.create loop: giver i gives to receiver i, keys from the counter on. */
    method AddDrawRows(g: GroupId, givers: seq<PartId>, receivers: seq<PartId>)
      requires |givers| == |receivers|
      modifies this
      ensures draws == old(draws) + DrawRows(old(nextDraw), g, givers, receivers)
      ensures nextDraw == old(nextDraw) + |givers|
      ensures users == old(users) && groups == old(groups) && parts == old(parts)
      ensures nextUser == old(nextUser) && nextGroup == old(nextGroup) && nextPart == old(nextPart)
    {
      var rows, next := draws, nextDraw;
      var i := 0;
      while i < |givers|
        invariant 0 <= i <= |givers|
        invariant rows == draws + DrawRows(nextDraw, g, givers[..i], receivers[..i])
        invariant next == nextDraw + i
      {
        assert givers[..i + 1][..i] == givers[..i] && receivers[..i + 1][..i] == receivers[..i];
        rows := rows[next := Domain.Draw(g, givers[i], receivers[i])];
        next := next + 1;
        i := i + 1;
      }
      assert givers[..i] == givers && receivers[..i] == receivers;
      draws, nextDraw := rows, next;
    }

    /**
     * draw: the guards, the retry loop, one Draw row per participant in the
     * order of the participant list, then the group saved as drawn.
     */
    method Draw(tid: int, shuffle: (seq<PartId>, nat) -> seq<PartId>, now: Instant)
      returns (target: DrawFlow.DrawTarget, checks: nat, valid: bool)
      requires Valid()
      requires forall s: seq<PartId>, k: nat :: multiset(shuffle(s, k)) == multiset(s)
      modifies this
      ensures Valid()
      ensures var r := DrawFlow.DrawGroup(old(Snapshot()), tid, shuffle, now);
        Snapshot() == r.tables && target == r.outcome
      ensures target.ReadyToDraw? ==>
                && 1 <= checks <= MaxAttempts
                && (valid <==> FirstValid(target.givers, shuffle, 0) < MaxAttempts)
    {
      ghost var t0 := Snapshot();
      DrawFlow.DrawGroupOk(t0, tid, shuffle, now);
      target := DrawFlow.DrawTargetOf(Snapshot(), tid);
      checks, valid := 0, false;
      if !target.ReadyToDraw? {
        return;
      }
      var g := target.group;
      var givers := target.givers;
      var receivers;
      receivers, checks, valid := Assign(givers, shuffle);
      AddDrawRows(g, givers, receivers);
      groups := groups[g := DrawnRow(groups[g], now)];
      assert Snapshot() == WithDraws(t0, g, givers, receivers, now);
    }

    // ----------------------------------------------------------- distribute

    /** The sending loop of distribute_gifts: sent_count over the draws `ds`. */
    method CountParcels(group: Group, ds: seq<DrawId>, send: DrawFlow.Parcel -> bool) returns (sent: nat)
      ensures sent == DrawFlow.CountSent(Snapshot(), group, ds, send)
    {
      sent := 0;
      var i := 0;
      while i < |ds|
        invariant 0 <= i <= |ds|
        invariant sent == DrawFlow.CountSent(Snapshot(), group, ds[..i], send)
      {
        assert ds[..i + 1][..i] == ds[..i];
        var parcel := DrawFlow.ParcelOf(Snapshot(), group, ds[i]);
        if parcel.Some? && send(parcel.value) {
          sent := sent + 1;
        }
        i := i + 1;
      }
      assert ds[..i] == ds;
    }

    /** distribute_gifts: one send per draw, counted in sent_count, then the status saves. */
    method Distribute(tid: int, today: Date, send: DrawFlow.Parcel -> bool) returns (report: DrawFlow.DistributeReport)
      requires Valid()
      modifies this
      ensures Valid()
      ensures var r := DrawFlow.Distribute(old(Snapshot()), tid, today, send);
        Snapshot() == r.tables && report == r.outcome
    {
      ghost var t0 := Snapshot();
      DrawFlow.DistributeOk(t0, tid, today, send);
      var target := DrawFlow.DistributeTargetOf(Snapshot(), tid);
      if !target.ReadyToDistribute? {
        report := DrawFlow.DistributeReport(target, 0);
        return;
      }
      var g := target.group;
      var group := groups[g];
      var sent := CountParcels(group, target.draws, send);
      var handed := WithStatus(group, Distribution);
      if handed.closeDate.Some? && handed.closeDate.value <= today {
        handed := WithStatus(handed, Closed);
      }
      assert handed == DrawFlow.Distributed(group, today);
      groups := groups[g := handed];
      assert Snapshot() == SetGroup(t0, g, handed);
      report := DrawFlow.DistributeReport(target, sent);
    }

    // ---------------------------------------------------------- close-group

    /** The notice loop of close_group_message: notified_count over the participants `ps`. */
    method NotifyAll(ps: seq<PartId>, reach: int -> bool) returns (notified: nat)
      ensures notified == CloseFlow.NotifiedCount(Snapshot(), ps, reach)
    {
      notified := 0;
      var i := 0;
      while i < |ps|
        invariant 0 <= i <= |ps|
        invariant notified == CloseFlow.NotifiedCount(Snapshot(), ps[..i], reach)
      {
        assert ps[..i + 1][..i] == ps[..i];
        var p := ps[i];
        if p in parts && parts[p].user in users && reach(users[parts[p].user].telegramId) {
          notified := notified + 1;
        }
        i := i + 1;
      }
      assert ps[..i] == ps;
    }

    /** close_group_message, with the owner test as written: notify every participant, counting in notified_count, then save the group closed. */
    method CloseGroupMessage(tid: int, data: UserData, text: string, reach: int -> bool) returns (report: CloseFlow.CloseReport)
      requires Valid()
      modifies this
      ensures Valid()
      ensures var r := CloseFlow.CloseGroupMessage(CloseFlow.AsWritten, old(Snapshot()), tid, data, text, reach);
        Snapshot() == r.tables && report == r.outcome
    {
      ghost var t0 := Snapshot();
      CloseFlow.CloseGroupMessageOk(CloseFlow.AsWritten, t0, tid, data, text, reach);
      var decision := CloseFlow.CloseDecisionOf(CloseFlow.AsWritten, Snapshot(), tid, data, text);
      if decision == CloseFlow.MessageTooLong {
        report := CloseFlow.CloseReport(decision, Reply(Await(AwaitCloseMessage), data), 0);
        return;
      }
      if !decision.CloseNow? {
        report := CloseFlow.CloseReport(decision, Reply(Ended, Cleared), 0);
        return;
      }
      var g := decision.group;
      var notified := NotifyAll(Members(parts, g, nextPart), reach);
      groups := groups[g := CloseFlow.ClosedRow(groups[g])];
      report := CloseFlow.CloseReport(decision, Reply(Ended, Cleared), notified);
    }

    // --------------------------------------------------------- delete-group

    /** The "all" loop of delete_group_selection, with the owner test as written: each entry in turn, counting in deleted_count. */
    method DeleteEach(tid: int, entries: seq<ClosedEntry>) returns (deleted: nat)
      modifies this
      ensures var r := DeleteFlow.DeleteEach(CloseFlow.AsWritten, old(Snapshot()), tid, entries);
        Snapshot() == r.tables && deleted == r.outcome
    {
      deleted := 0;
      var i := 0;
      while i < |entries|
        invariant 0 <= i <= |entries|
        invariant var r := DeleteFlow.DeleteEach(CloseFlow.AsWritten, old(Snapshot()), tid, entries[..i]);
          Snapshot() == r.tables && deleted == r.outcome
      {
        assert entries[..i + 1][..i] == entries[..i];
        var step := DeleteFlow.DeleteEntry(CloseFlow.AsWritten, Snapshot(), tid, entries[i].group);
        Commit(step.tables);
        if step.outcome.Removed() {
          deleted := deleted + 1;
        }
        i := i + 1;
      }
      assert entries[..i] == entries;
    }

    /** delete_group_selection, with the owner test as written. */
    method DeleteGroupSelection(tid: int, data: UserData, text: string) returns (report: DeleteFlow.DeleteReport)
      requires Valid()
      modifies this
      ensures Valid()
      ensures var r := DeleteFlow.DeleteGroupSelection(CloseFlow.AsWritten, old(Snapshot()), tid, data, text);
        Snapshot() == r.tables && report == r.outcome
    {
      DeleteFlow.DeleteGroupSelectionOk(CloseFlow.AsWritten, Snapshot(), tid, data, text);
      var command := DeleteCommandOf(data, text);
      match command
      case DeleteAll =>
        var deleted := DeleteEach(tid, data.closedGroups.value);
        report := DeleteFlow.DeleteReport(command, deleted, None, Reply(Ended, Cleared));
      case DeleteOne(entry) =>
        var step := DeleteFlow.DeleteEntry(CloseFlow.AsWritten, Snapshot(), tid, entry.group);
        Commit(step.tables);
        report := DeleteFlow.DeleteReport(command, if step.outcome.Removed() then 1 else 0, Some(step.outcome), Reply(Ended, Cleared));
      case BadNumber =>
        report := DeleteFlow.DeleteReport(command, 0, None, Reply(Await(AwaitDeleteSelection), data));
      case NumberOutOfRange =>
        report := DeleteFlow.DeleteReport(command, 0, None, Reply(Await(AwaitDeleteSelection), data));
      case _ =>
        report := DeleteFlow.DeleteReport(command, 0, None, Reply(Ended, Cleared));
    }

    // -------------------------------------------------------- the sweep

    /** The notices to the participants `members`: their chats, and how many were delivered. */
    method NotifyGroup(members: seq<PartId>, reach: int -> bool) returns (chats: seq<int>, delivered: nat)
      ensures chats == CloseAll.Chats(users, parts, members)
      ensures delivered == CloseAll.Delivered(chats, reach)
    {
      var us, ps := users, parts;
      chats, delivered := [], 0;
      var j := 0;
      while j < |members|
        invariant 0 <= j <= |members|
        invariant chats == CloseAll.Chats(us, ps, members[..j])
        invariant delivered == CloseAll.Delivered(chats, reach)
      {
        assert members[..j + 1][..j] == members[..j];
        var p := members[j];
        if p in ps && ps[p].user in us {
          var chat := us[ps[p].user].telegramId;
          assert (chats + [chat])[..|chats|] == chats;
          chats := chats + [chat];
          delivered := delivered + if reach(chat) then 1 else 0;
        }
        j := j + 1;
      }
      assert members[..j] == members;
    }

    /**
     * The loop of close_groups_async over the groups `open`: the rows after
     * closing each as loaded before the loop, the chats written to, and how
     * many of them were delivered.
     */
    method CloseEach(open: seq<GroupId>, reach: int -> bool) returns (rows: map<GroupId, Group>, attempted: seq<int>, delivered: nat)
      ensures rows == CloseAll.ClosedGroups(groups, open)
      ensures attempted == CloseAll.SweepChats(Snapshot(), open)
      ensures delivered == CloseAll.Delivered(attempted, reach)
    {
      rows := groups;
      attempted, delivered := [], 0;
      var i := 0;
      while i < |open|
        invariant 0 <= i <= |open|
        invariant rows == CloseAll.ClosedGroups(groups, open[..i])
        invariant attempted == CloseAll.SweepChats(Snapshot(), open[..i])
        invariant delivered == CloseAll.Delivered(attempted, reach)
      {
        assert open[..i + 1][..i] == open[..i];
        var g := open[i];
        var chats, d := NotifyGroup(Members(parts, g, nextPart), reach);
        CloseAll.DeliveredAppend(attempted, chats, reach);
        attempted, delivered := attempted + chats, delivered + d;
        if g in groups {
          rows := rows[g := CloseFlow.ClosedRow(groups[g])];
        }
        i := i + 1;
      }
      assert open[..i] == open;
    }

    /**
     * close_all_groups: each open group, as loaded before the loop, is saved
     * closed, and each of its participants is sent a notice; a failed notice
     * is passed over.
     */
    method CloseAllGroups(tokenSet: bool, reach: int -> bool) returns (outcome: CloseAll.SweepOutcome)
      requires Valid()
      modifies this
      ensures Valid()
      ensures var r := CloseAll.Sweep(old(Snapshot()), tokenSet, reach);
        Snapshot() == r.tables && outcome == r.outcome
    {
      CloseAll.SweepCloses(Snapshot(), tokenSet, reach);
      var open := CloseAll.OpenGroups(Snapshot());
      if open == [] {
        return CloseAll.NothingToClose;
      }
      if !tokenSet {
        return CloseAll.NoToken;
      }
      var rows, attempted, delivered := CloseEach(open, reach);
      groups := rows;
      outcome := CloseAll.Swept(open, attempted, delivered);
    }
  }
}
