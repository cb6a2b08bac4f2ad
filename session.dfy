// The per-user conversation flows wired in setup_handlers
// (bot/bot_handler.py): create-group, set-name, send-gift, close-group and
// delete-group. All five ConversationHandlers share one `context.user_data`
// dictionary, modelled as the record UserData; every step either re-prompts
// in its own state, moves to another state, ends the conversation, or raises
// an exception that python-telegram-bot swallows, which leaves the
// conversation where it was (Crashed).
//
// This module holds the step logic that needs no database; the steps that
// read or write the tables are functions of the flow modules, and the class Bot.Database applies them.

module Session {
  import opened Text
  import opened Domain

  /** One entry of user_data['participations']: set_name stores 3-tuples, send_gift 2-tuples. */
  datatype Choice =
    | NameChoice(participation: PartId, groupName: string, currentName: string)
    | GiftChoice(participation: PartId, groupName: string)

  /** One entry of user_data['closed_groups']. */
  datatype ClosedEntry = ClosedEntry(group: GroupId, name: string, code: string, isOwner: bool)

  /** The keys the flows put into context.user_data; None is "key absent". */
  datatype UserData = UserData(
    groupName: Option<string>,
    description: Option<string>,
    giftViaBot: Option<bool>,
    drawDate: Option<Date>,
    distributionDate: Option<Date>,
    participationId: Option<PartId>,
    participations: Option<seq<Choice>>,
    closeGroupId: Option<GroupId>,
    closedGroups: Option<seq<ClosedEntry>>)

  /** user_data after clear(). */
  const Cleared: UserData := UserData(None, None, None, None, None, None, None, None, None)

  /** What the handler returned: a state to wait in, END, or an uncaught exception. */
  datatype Next<S> = Await(state: S) | Ended | Crashed

  datatype Reply<S> = Reply(next: Next<S>, data: UserData)

  datatype CreateState = AwaitName | AwaitDescription | AwaitGiftViaBot | AwaitDrawDate | AwaitDistributionDate | AwaitCloseDate
  datatype SetNameState = AwaitNameSelection | AwaitNewName
  datatype SendGiftState = AwaitGiftSelection | AwaitGift
  datatype CloseState = AwaitCloseMessage
  datatype DeleteState = AwaitDeleteSelection

  const MaxNameLength: nat := 200
  const MaxCloseMessageLength: nat := 1000

  // ---------------------------------------------------------------- create-group

  /** The position of each create-group state in the six-step order. */
  function CreateIndex(s: CreateState): (r: nat)
    ensures r < 6
  {
    match s
    case AwaitName => 0
    case AwaitDescription => 1
    case AwaitGiftViaBot => 2
    case AwaitDrawDate => 3
    case AwaitDistributionDate => 4
    case AwaitCloseDate => 5
  }

  /** create_group_name: a stripped name of at most 200 characters is stored. */
  function CreateName(data: UserData, text: string): (r: Reply<CreateState>)
    ensures |Strip(text)| > MaxNameLength ==> r == Reply(Await(AwaitName), data)
    ensures |Strip(text)| <= MaxNameLength ==> r == Reply(Await(AwaitDescription), data.(groupName := Some(Strip(text))))
  {
    var name := Strip(text);
    if |name| > MaxNameLength then Reply(Await(AwaitName), data)
    else Reply(Await(AwaitDescription), data.(groupName := Some(name)))
  }

  /** create_group_description: any stripped text is accepted. */
  function CreateDescription(data: UserData, text: string): (r: Reply<CreateState>)
    ensures r.next == Await(AwaitGiftViaBot) && r.data == data.(description := Some(Strip(text)))
  {
    Reply(Await(AwaitGiftViaBot), data.(description := Some(Strip(text))))
  }

  const YesWords: seq<string> := ["да", "yes", "y", "д"]
  const NoWords: seq<string> := ["нет", "no", "n", "н"]

  /** No word is both a yes and a no. */
  lemma AnswerWordsApart(w: string)
    ensures !(w in YesWords && w in NoWords)
  {
    if w in NoWords {
      assert |w| == 1 ==> w[0] == 'n' || w[0] == 'н';
      assert |w| != 1 ==> w == "нет" || w == "no";
    }
  }

  /** The answer word, or None when it is neither a yes nor a no. */
  function YesNo(text: string): (r: Option<bool>)
    ensures r == Some(true) <==> Lower(Strip(text)) in YesWords
    ensures r == Some(false) <==> Lower(Strip(text)) in NoWords
  {
    var answer := Lower(Strip(text));
    AnswerWordsApart(answer);
    if answer in YesWords then Some(true)
    else if answer in NoWords then Some(false)
    else None
  }

  /** create_group_gift_via_bot. */
  function CreateGiftViaBot(data: UserData, text: string): (r: Reply<CreateState>)
    ensures YesNo(text).None? <==> r == Reply(Await(AwaitGiftViaBot), data)
    ensures YesNo(text).Some? ==> r == Reply(Await(AwaitDrawDate), data.(giftViaBot := YesNo(text)))
  {
    match YesNo(text)
    case None => Reply(Await(AwaitGiftViaBot), data)
    case Some(b) => Reply(Await(AwaitDrawDate), data.(giftViaBot := Some(b)))
  }

  /** create_group_draw_date; `parseDate` stands for strptime(text, '%d.%m.%Y'), None for ValueError. */
  function CreateDrawDate(data: UserData, text: string, parseDate: string -> Option<Date>): (r: Reply<CreateState>)
    ensures parseDate(Strip(text)).None? ==> r == Reply(Await(AwaitDrawDate), data)
    ensures parseDate(Strip(text)).Some? ==> r == Reply(Await(AwaitDistributionDate), data.(drawDate := parseDate(Strip(text))))
  {
    match parseDate(Strip(text))
    case None => Reply(Await(AwaitDrawDate), data)
    case Some(d) => Reply(Await(AwaitDistributionDate), data.(drawDate := Some(d)))
  }

  /**
   * create_group_distribution_date. The draw date is read with get(); when it
   * is missing the comparison raises TypeError, which nothing catches.
   */
  function CreateDistributionDate(data: UserData, text: string, parseDate: string -> Option<Date>): (r: Reply<CreateState>)
    ensures r.next.Await? && r.next.state == AwaitCloseDate <==>
              parseDate(Strip(text)).Some? && data.drawDate.Some? && parseDate(Strip(text)).value > data.drawDate.value
    ensures r.next.Await? && r.next.state == AwaitCloseDate ==> r.data == data.(distributionDate := parseDate(Strip(text)))
    ensures r.next == Crashed <==> parseDate(Strip(text)).Some? && data.drawDate.None?
    ensures r.next != Await(AwaitCloseDate) ==> r.data == data
    ensures r.next.Await? ==> r.next.state in {AwaitDistributionDate, AwaitCloseDate}
  {
    match parseDate(Strip(text))
    case None => Reply(Await(AwaitDistributionDate), data)
    case Some(dist) =>
      if data.drawDate.None? then Reply(Crashed, data)
      else if dist <= data.drawDate.value then Reply(Await(AwaitDistributionDate), data)
      else Reply(Await(AwaitCloseDate), data.(distributionDate := Some(dist)))
  }

  const SkipWords: seq<string> := ["пропустить", "skip", ""]

  /** The values Group.objects.create receives from the close-date step. */
  datatype GroupDraft = GroupDraft(
    name: string,
    description: string,
    giftViaBot: bool,
    drawDate: Date,
    distributionDate: Date,
    closeDate: Option<Date>)

  datatype CloseDateDecision = RetryCloseDate | MissingKey | CreateGroup(draft: GroupDraft)

  /** Every accumulator key the group creation reads with user_data[...] is present. */
  predicate Complete(data: UserData) {
    && data.groupName.Some? && data.description.Some? && data.giftViaBot.Some?
    && data.drawDate.Some? && data.distributionDate.Some?
  }

  /**
   * create_group_close_date up to the creation: a skip word gives no close
   * date; a date must parse and be later than the distribution date; then the
   * accumulated values form the new group (a missing key is a KeyError, a
   * missing distribution date in the comparison a TypeError).
   */
  function CloseDateStep(data: UserData, text: string, parseDate: string -> Option<Date>): (r: CloseDateDecision)
    ensures r.CreateGroup? <==>
              (&& Complete(data)
               && (|| Lower(Strip(text)) in SkipWords
                   || (parseDate(Lower(Strip(text))).Some? && parseDate(Lower(Strip(text))).value > data.distributionDate.value)))
    ensures r.CreateGroup? ==>
              && r.draft.name == data.groupName.value && r.draft.description == data.description.value
              && r.draft.giftViaBot == data.giftViaBot.value && r.draft.drawDate == data.drawDate.value
              && r.draft.distributionDate == data.distributionDate.value
              && (r.draft.closeDate.None? <==> Lower(Strip(text)) in SkipWords)
              && (r.draft.closeDate.Some? ==> r.draft.closeDate.value > r.draft.distributionDate)
    ensures var d := Lower(Strip(text));
      r == RetryCloseDate <==>
        && d !in SkipWords
        && (|| parseDate(d).None?
            || (data.distributionDate.Some? && parseDate(d).value <= data.distributionDate.value))
    ensures var d := Lower(Strip(text));
      r == MissingKey <==>
        || (d in SkipWords && !Complete(data))
        || (&& d !in SkipWords && parseDate(d).Some?
            && (data.distributionDate.None? || (parseDate(d).value > data.distributionDate.value && !Complete(data))))
  {
    var dateText := Lower(Strip(text));
    if dateText in SkipWords then
      if Complete(data) then CreateGroup(Draft(data, None)) else MissingKey
    else
      match parseDate(dateText)
      case None => RetryCloseDate
      case Some(close) =>
        if data.distributionDate.None? then MissingKey
        else if close <= data.distributionDate.value then RetryCloseDate
        else if Complete(data) then CreateGroup(Draft(data, Some(close)))
        else MissingKey
  }

  function Draft(data: UserData, closeDate: Option<Date>): (r: GroupDraft)
    requires Complete(data)
    ensures r.name == data.groupName.value && r.closeDate == closeDate
  {
    GroupDraft(data.groupName.value, data.description.value, data.giftViaBot.value,
               data.drawDate.value, data.distributionDate.value, closeDate)
  }

  /** The /cancel fallback of every flow: clear the accumulator and end. */
  function Cancel<S>(data: UserData): (r: Reply<S>)
    ensures r.next == Ended && r.data == Cleared
  {
    Reply(Ended, Cleared)
  }

  /** The data-entry steps only ever move one step forward or stay. */
  lemma CreateFlowIsLinear(data: UserData, text: string, parseDate: string -> Option<Date>)
    ensures CreateName(data, text).next.Await?
    ensures CreateIndex(CreateName(data, text).next.state) in {0, 1}
    ensures CreateIndex(CreateDescription(data, text).next.state) == 2
    ensures CreateIndex(CreateGiftViaBot(data, text).next.state) in {2, 3}
    ensures CreateIndex(CreateDrawDate(data, text, parseDate).next.state) in {3, 4}
    ensures var r := CreateDistributionDate(data, text, parseDate);
            r.next.Await? ==> CreateIndex(r.next.state) in {4, 5}
  {
    NameStepIsLinear(data, text);
    DateStepsAreLinear(data, text, parseDate);
  }

  lemma NameStepIsLinear(data: UserData, text: string)
    ensures CreateName(data, text).next.Await?
    ensures CreateIndex(CreateName(data, text).next.state) in {0, 1}
    ensures CreateIndex(CreateDescription(data, text).next.state) == 2
    ensures CreateIndex(CreateGiftViaBot(data, text).next.state) in {2, 3}
  {
  }

  lemma DateStepsAreLinear(data: UserData, text: string, parseDate: string -> Option<Date>)
    ensures CreateIndex(CreateDrawDate(data, text, parseDate).next.state) in {3, 4}
    ensures var r := CreateDistributionDate(data, text, parseDate);
            r.next.Await? ==> CreateIndex(r.next.state) in {4, 5}
  {
  }

  /**
   * Answering every question in order from a cleared accumulator, with a
   * distribution date after the draw date and "пропустить" for the close date,
   * creates a group from exactly those answers.
   */
  lemma {:induction false} CreateFlowCompletes(
    name: string, description: string, yes: bool, drawText: string, distText: string,
    parseDate: string -> Option<Date>)
    requires |Strip(name)| <= MaxNameLength
    requires parseDate(Strip(drawText)).Some? && parseDate(Strip(distText)).Some?
    requires parseDate(Strip(distText)).value > parseDate(Strip(drawText)).value
    ensures
      var d1 := CreateName(Cleared, name).data;
      var d2 := CreateDescription(d1, description).data;
      var d3 := CreateGiftViaBot(d2, if yes then "да" else "нет").data;
      var d4 := CreateDrawDate(d3, drawText, parseDate).data;
      var d5 := CreateDistributionDate(d4, distText, parseDate).data;
      CloseDateStep(d5, "пропустить", parseDate) ==
        CreateGroup(GroupDraft(Strip(name), Strip(description), yes,
                               parseDate(Strip(drawText)).value, parseDate(Strip(distText)).value, None))
  {
    var answer := if yes then "да" else "нет";
    AnswerWordRecognized(yes);
    SkipWordRecognized();
    var d1 := CreateName(Cleared, name).data;
    var d2 := CreateDescription(d1, description).data;
    var d3 := CreateGiftViaBot(d2, answer).data;
    assert d3 == d2.(giftViaBot := Some(yes));
    var d4 := CreateDrawDate(d3, drawText, parseDate).data;
    var d5 := CreateDistributionDate(d4, distText, parseDate).data;
    assert d5 == d4.(distributionDate := parseDate(Strip(distText)));
    assert Complete(d5);
  }

  lemma AnswerWordRecognized(yes: bool)
    ensures YesNo(if yes then "да" else "нет") == Some(yes)
  {
    var answer := if yes then "да" else "нет";
    SmallWordKept(answer);
  }

  lemma SkipWordRecognized()
    ensures Lower(Strip("пропустить")) in SkipWords
  {
    SmallWordKept("пропустить");
  }

  // ------------------------------------------------------- group selection

  datatype Selection = NotANumber | NoSnapshot | OutOfRange | Selected(entry: Choice)

  /**
   * The shared part of set_name_select_group and send_gift_select_group:
   * int(text.strip()) first, then the snapshot, then the range 1..len.
   */
  function SelectEntry(data: UserData, text: string): (r: Selection)
    ensures ParseInt(Strip(text)).None? <==> r == NotANumber
    ensures ParseInt(Strip(text)).Some? && (data.participations.None? || data.participations.value == []) <==> r == NoSnapshot
    ensures r == OutOfRange ==>
              (&& data.participations.Some?
               && (ParseInt(Strip(text)).value < 1 || ParseInt(Strip(text)).value > |data.participations.value|))
    ensures r.Selected? <==>
              && ParseInt(Strip(text)).Some? && data.participations.Some?
              && 1 <= ParseInt(Strip(text)).value <= |data.participations.value|
    ensures r.Selected? ==> r.entry == data.participations.value[ParseInt(Strip(text)).value - 1]
  {
    match ParseInt(Strip(text))
    case None => NotANumber
    case Some(k) =>
      var snapshot := data.participations.GetOr([]);
      if snapshot == [] then NoSnapshot
      else if k < 1 || k > |snapshot| then OutOfRange
      else Selected(snapshot[k - 1])
  }

  /** set_name_select_group; a 2-tuple entry written by send_gift cannot be unpacked into three names. */
  function SetNameSelect(data: UserData, text: string): (r: Reply<SetNameState>)
    ensures SelectEntry(data, text) == NoSnapshot <==> r == Reply(Ended, Cleared)
    ensures SelectEntry(data, text) in {NotANumber, OutOfRange} ==> r == Reply(Await(AwaitNameSelection), data)
    ensures r.next == Await(AwaitNewName) <==> SelectEntry(data, text).Selected? && SelectEntry(data, text).entry.NameChoice?
    ensures r.next == Await(AwaitNewName) ==>
              r.data == data.(participationId := Some(SelectEntry(data, text).entry.participation), participations := None)
    ensures r.next == Crashed ==> r.data == data
  {
    match SelectEntry(data, text)
    case NotANumber => Reply(Await(AwaitNameSelection), data)
    case NoSnapshot => Reply(Ended, Cleared)
    case OutOfRange => Reply(Await(AwaitNameSelection), data)
    case Selected(e) =>
      if e.GiftChoice? then Reply(Crashed, data)
      else Reply(Await(AwaitNewName), data.(participationId := Some(e.participation), participations := None))
  }

  /**
   * send_gift_select_group up to the Participant lookup. A 3-tuple entry
   * written by set_name cannot be unpacked into two names.
   */
  function SendGiftSelect(data: UserData, text: string): (r: Reply<SendGiftState>)
    ensures SelectEntry(data, text) == NoSnapshot <==> r == Reply(Ended, Cleared)
    ensures SelectEntry(data, text) in {NotANumber, OutOfRange} ==> r == Reply(Await(AwaitGiftSelection), data)
    ensures r.next == Await(AwaitGift) <==> SelectEntry(data, text).Selected? && SelectEntry(data, text).entry.GiftChoice?
    ensures r.next == Await(AwaitGift) ==>
              r.data == data.(participationId := Some(SelectEntry(data, text).entry.participation), participations := None)
    ensures r.next == Crashed ==> r.data == data
  {
    match SelectEntry(data, text)
    case NotANumber => Reply(Await(AwaitGiftSelection), data)
    case NoSnapshot => Reply(Ended, Cleared)
    case OutOfRange => Reply(Await(AwaitGiftSelection), data)
    case Selected(e) =>
      if e.NameChoice? then Reply(Crashed, data)
      else Reply(Await(AwaitGift), data.(participationId := Some(e.participation), participations := None))
  }

  /** Typing the number shown next to the k-th entry selects that entry. */
  lemma {:induction false} SelectByShownNumber(data: UserData, k: nat)
    requires data.participations.Some? && 1 <= k <= |data.participations.value|
    ensures SelectEntry(data, NatToString(k)) == Selected(data.participations.value[k - 1])
  {
    var s := NatToString(k);
    DigitsAreNotSpace(s);
    StripNoSpace(s);
    ParseIntOfNatToString(k);
    SelectNumber(data, s, k);
  }

  /** A number that reads as k in 1..len selects entry k - 1. */
  lemma SelectNumber(data: UserData, text: string, k: nat)
    requires data.participations.Some? && 1 <= k <= |data.participations.value|
    requires Strip(text) == text && ParseInt(text) == Some(k)
    ensures SelectEntry(data, text) == Selected(data.participations.value[k - 1])
  {
  }

  /**
   * The lists set_name_start and send_gift_start store: both flows write the
   * same key, so a list from one flow reaching the other's selection step
   * crashes it instead of selecting.
   */
  lemma {:induction false} ForeignSnapshotCrashes(data: UserData, k: nat)
    requires data.participations.Some? && 1 <= k <= |data.participations.value|
    ensures data.participations.value[k - 1].GiftChoice? ==> SetNameSelect(data, NatToString(k)).next == Crashed
    ensures data.participations.value[k - 1].NameChoice? ==> SendGiftSelect(data, NatToString(k)).next == Crashed
  {
    SelectByShownNumber(data, k);
  }

  // --------------------------------------------------------------- set-name

  datatype NameInput = NameTooLong | NoParticipation | Rename(participation: PartId, name: string)

  /** A stored key that passes Python's `if key:` (present and not 0). */
  predicate IdGiven(id: Option<nat>) {
    id.Some? && id.value != 0
  }

  /** set_name before the lookup: the length check, then the stored participation id. */
  function SetNameInput(data: UserData, text: string): (r: NameInput)
    ensures r == NameTooLong <==> |Strip(text)| > MaxNameLength
    ensures r == NoParticipation <==> |Strip(text)| <= MaxNameLength && !IdGiven(data.participationId)
    ensures r.Rename? ==> r.participation == data.participationId.value && r.name == Strip(text) && |r.name| <= MaxNameLength
  {
    var name := Strip(text);
    if |name| > MaxNameLength then NameTooLong
    else if !IdGiven(data.participationId) then NoParticipation
    else Rename(data.participationId.value, name)
  }

  // ------------------------------------------------------------ close-group

  datatype CloseMessage = CloseTooLong | Notice(custom: Option<string>)

  /**
   * The notice close_group_message sends: the default text for a skip word
   * (compared after lower()), otherwise the owner's stripped text of at most
   * 1000 characters.
   */
  function CloseNotice(text: string): (r: CloseMessage)
    ensures Lower(Strip(text)) in SkipWords ==> r == Notice(None)
    ensures Lower(Strip(text)) !in SkipWords && |Strip(text)| > MaxCloseMessageLength <==> r == CloseTooLong
    ensures r == Notice(Some(Strip(text))) <==> Lower(Strip(text)) !in SkipWords && |Strip(text)| <= MaxCloseMessageLength
  {
    var message := Strip(text);
    if Lower(message) in SkipWords then Notice(None)
    else if |message| > MaxCloseMessageLength then CloseTooLong
    else Notice(Some(message))
  }

  /**
   * The owner test of close_group_message and delete_group_selection as
   * written: the group's owner key (TelegramUser primary key) against the
   * Telegram id of the sender.
   */
  predicate OwnerCheckAsWritten(g: Group, senderTid: int) {
    g.owner == senderTid
  }

  /** The owner test those handlers evidently intend: the owner key against the sender's own key. */
  predicate OwnerCheck(g: Group, senderKey: UserKey) {
    g.owner == senderKey
  }

  /** The sender is the owner of `g` exactly when the corrected test says so. */
  lemma OwnerCheckIsOwnership(users: map<UserKey, User>, g: Group, sender: User, senderKey: UserKey)
    requires senderKey in users && users[senderKey].telegramId == sender.telegramId
    requires forall u, v :: u in users && v in users && users[u].telegramId == users[v].telegramId ==> u == v
    ensures OwnerCheck(g, senderKey) <==> (g.owner in users && users[g.owner].telegramId == sender.telegramId)
  {
  }

  /**
   * For the real owner (stored under `ownerKey`), the written test passes
   * exactly when that key happens to equal their Telegram id; with keys
   * counted from 1 and Telegram ids in the hundreds of millions it rejects them.
   */
  lemma OwnerCheckAsWrittenRejectsOwner(g: Group, owner: User, ownerKey: UserKey)
    requires OwnerCheck(g, ownerKey)
    ensures OwnerCheckAsWritten(g, owner.telegramId) <==> ownerKey == owner.telegramId
  {
  }

  // ----------------------------------------------------------- delete-group

  const DeleteAllWords: seq<string> := ["все", "all", "удалить все", "delete all"]
  const CancelWords: seq<string> := ["отмена", "cancel", "отменить"]

  datatype DeleteCommand = NoList | DeleteAll | CancelDelete | BadNumber | NumberOutOfRange | DeleteOne(entry: ClosedEntry)

  /** No word both deletes all and cancels. */
  lemma DeleteWordsApart(w: string)
    ensures !(w in DeleteAllWords && w in CancelWords)
  {
    assert w in DeleteAllWords ==> |w| == 3 || |w| == 10 || |w| == 11;
    assert w in CancelWords ==> |w| == 6 || |w| == 8;
  }

  /**
   * delete_group_selection's reading of the cleaned input against the list
   * shown, in the handler's order of checks.
   */
  function ReadDelete(listed: seq<ClosedEntry>, input: string): (r: DeleteCommand)
    ensures r == NoList <==> listed == []
    ensures r.DeleteOne? ==> r.entry in listed
  {
    if listed == [] then NoList
    else if input in DeleteAllWords then DeleteAll
    else if input in CancelWords then CancelDelete
    else match ParseInt(input)
      case None => BadNumber
      case Some(k) =>
        if k < 1 || k > |listed| then NumberOutOfRange
        else DeleteOne(listed[k - 1])
  }

  /** The input is stripped and lower-cased; no stored list reads as an empty one. */
  function DeleteCommandOf(data: UserData, text: string): (r: DeleteCommand)
    ensures r == NoList <==> data.closedGroups.None? || data.closedGroups.value == []
    ensures r.DeleteOne? ==> r.entry in data.closedGroups.value
  {
    ReadDelete(data.closedGroups.GetOr([]), Lower(Strip(text)))
  }

  /**
   * With a list shown, the delete words delete all, the cancel words cancel,
   * and otherwise a number in 1..len picks the entry shown under it.
   */
  lemma ReadDeleteDecides(listed: seq<ClosedEntry>, input: string)
    requires listed != []
    ensures var r := ReadDelete(listed, input);
      && (r == DeleteAll <==> input in DeleteAllWords)
      && (r == CancelDelete <==> input in CancelWords)
      && (r.DeleteOne? <==>
            && input !in DeleteAllWords && input !in CancelWords
            && ParseInt(input).Some? && 1 <= ParseInt(input).value <= |listed|)
      && (r.DeleteOne? ==> r.entry == listed[ParseInt(input).value - 1])
  {
    DeleteWordsApart(input);
  }
}
