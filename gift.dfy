// The gift-payload update of the send_gift step (bot/bot_handler.py): how a
// photo, a caption or a text message changes the stored gift text and photo,
// and when the input is refused.

module Gift {
  import opened Text

  const MaxGiftLength: nat := 2000

  /**
   * One incoming Telegram message: the file id of the largest photo size
   * (None when the message carries no photo), the text and the caption.
   */
  datatype Message = Message(photo: Option<string>, text: Option<string>, caption: Option<string>)

  /** The stored gift of a participant: gift_message and gift_photo_file_id. */
  datatype Payload = Payload(message: Option<string>, photo: Option<string>)

  /** Why a message was refused (the step stays in WAITING_FOR_GIFT), or the payload to save. */
  datatype Outcome =
    | CaptionTooLong
    | TextTooLong
    | NothingSent
    | EmptyGift
    | Accepted(payload: Payload)

  /** A payload with something in it: a non-empty text or a non-empty photo id. */
  predicate HasContent(p: Payload) {
    Truthy(p.message) || Truthy(p.photo)
  }

  /**
   * The update applied to the stored payload `cur`. Only an Accepted outcome is
   * saved (together with gift_sent = True); every other outcome re-prompts and
   * leaves the stored participant as it was.
   */
  function ApplyGift(cur: Payload, m: Message): (r: Outcome)
    ensures r.Accepted? ==> HasContent(r.payload)
    ensures r.Accepted? && m.photo.Some? ==> r.payload.photo == m.photo
    ensures r.Accepted? && m.photo.None? ==> !Truthy(r.payload.photo)
    ensures r == CaptionTooLong <==> m.photo.Some? && Truthy(m.caption) && |m.caption.value| > MaxGiftLength
    ensures r == NothingSent <==> m.photo.None? && !Truthy(m.text)
    ensures r == TextTooLong <==> m.photo.None? && Truthy(m.text) && |Strip(m.text.value)| > MaxGiftLength
  {
    if m.photo.Some? then
      if Truthy(m.caption) then
        if |m.caption.value| > MaxGiftLength then CaptionTooLong
        else Checked(Payload(Some(Strip(m.caption.value)), m.photo))
      else if !Truthy(cur.message) then Checked(Payload(None, m.photo))
      else Checked(Payload(cur.message, m.photo))
    else if Truthy(m.text) then
      var msg := Strip(m.text.value);
      if |msg| > MaxGiftLength then TextTooLong
      else Checked(Payload(Some(msg), if Truthy(cur.photo) then None else cur.photo))
    else NothingSent
  }

  /** The final "text or photo" check. */
  function Checked(p: Payload): (r: Outcome)
    ensures r.Accepted? <==> HasContent(p)
    ensures r.Accepted? ==> r.payload == p
    ensures !r.Accepted? ==> r == EmptyGift
  {
    if !Truthy(p.message) && !Truthy(p.photo) then EmptyGift else Accepted(p)
  }

  /** A photo with a short caption stores both: the stripped caption and the photo. */
  lemma PhotoWithCaption(cur: Payload, id: string, caption: string, text: Option<string>)
    requires id != "" && caption != "" && |caption| <= MaxGiftLength
    ensures ApplyGift(cur, Message(Some(id), text, Some(caption))) == Accepted(Payload(Some(Strip(caption)), Some(id)))
  {
  }

  /** A photo without a caption keeps a stored gift text. */
  lemma PhotoKeepsText(cur: Payload, id: string, caption: Option<string>, text: Option<string>)
    requires id != "" && !Truthy(caption) && Truthy(cur.message)
    ensures ApplyGift(cur, Message(Some(id), text, caption)) == Accepted(Payload(cur.message, Some(id)))
  {
  }

  /** A text-only gift replaces the text and drops a stored photo. */
  lemma TextDropsPhoto(cur: Payload, text: string)
    requires Strip(text) != "" && |Strip(text)| <= MaxGiftLength
    ensures ApplyGift(cur, Message(None, Some(text), None)).Accepted?
    ensures ApplyGift(cur, Message(None, Some(text), None)).payload.message == Some(Strip(text))
    ensures !Truthy(ApplyGift(cur, Message(None, Some(text), None)).payload.photo)
  {
  }

  /** White space only is refused when no photo is stored (the stripped text is empty). */
  lemma BlankTextWithoutPhoto(cur: Payload, text: string)
    requires text != "" && Strip(text) == "" && !Truthy(cur.photo)
    ensures ApplyGift(cur, Message(None, Some(text), None)) == EmptyGift
  {
  }

  /**
   * Two successive submissions: a text and then a photo without caption end
   * with both, which is how the step lets a participant combine them.
   */
  lemma {:induction false} TextThenPhoto(cur: Payload, text: string, id: string)
    requires Strip(text) != "" && |Strip(text)| <= MaxGiftLength && id != ""
    ensures ApplyGift(cur, Message(None, Some(text), None)).Accepted?
    ensures
      var first := ApplyGift(cur, Message(None, Some(text), None)).payload;
      ApplyGift(first, Message(Some(id), None, None)) == Accepted(Payload(Some(Strip(text)), Some(id)))
  {
    TextDropsPhoto(cur, text);
    var first := ApplyGift(cur, Message(None, Some(text), None)).payload;
    PhotoKeepsText(first, id, None, None);
  }

  /** A photo and then a text: the later text-only message removes the photo again. */
  lemma {:induction false} PhotoThenText(cur: Payload, id: string, text: string)
    requires id != "" && Strip(text) != "" && |Strip(text)| <= MaxGiftLength
    ensures ApplyGift(cur, Message(Some(id), None, None)).Accepted?
    ensures
      var first := ApplyGift(cur, Message(Some(id), None, None)).payload;
      ApplyGift(first, Message(None, Some(text), None)) == Accepted(Payload(Some(Strip(text)), None))
  {
    var first := ApplyGift(cur, Message(Some(id), None, None)).payload;
    assert Truthy(first.photo);
    TextDropsPhoto(first, text);
  }
}
