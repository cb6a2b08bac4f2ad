// The invite message and the two ways a join code reaches the bot
// (bot/bot_handler.py): typed after /join_group, or carried by a forwarded
// invite after the "SANTA_INVITE:" marker; and the command-hint footer that
// most replies end with.

module Invite {
  import opened Text
  import opened Domain

  const Marker: string := "SANTA_INVITE:"

  /** The text in front of the marker on the invite's last line. */
  const KeyPrefix: string := "🔑 "

  /** How a date appears in a message; strftime('%d.%m.%Y') is a parameter. */
  function DateText(d: Option<Date>, format: Date -> string): string {
    if d.Some? then format(d.value) else "Не указана"
  }

  /**
   * Everything of generate_invite_message before its last line. With `html`
   * the name and the code carry the <b> and <code> tags the bot sends; without
   * it the text is what a recipient sees and forwards.
   */
  function InviteBody(g: Group, format: Date -> string, html: bool): string {
    var bold := if html then "<b>" + g.name + "</b>" else g.name;
    var code := if html then "<code>" + g.code + "</code>" else g.code;
    "🎄 Приглашение в группу Тайного Санты!\n\n"
    + "📋 Группа: " + bold + "\n"
    + "🔑 Код: " + code + "\n\n"
    + "📝 Описание подарка:\n" + g.description + "\n\n"
    + "📅 Дата жеребьевки: " + DateText(g.drawDate, format) + "\n"
    + "📅 Дата расдачи: " + DateText(g.distributionDate, format) + "\n\n"
    + "➡️ Перешлите это сообщение боту, чтобы автоматически присоединиться к группе!\n\n"
  }

  /** generate_invite_message: the body, then the marker line carrying the code. */
  function InviteMessage(g: Group, format: Date -> string, html: bool): (r: string)
    ensures html ==> r == InviteBody(g, format, html) + KeyPrefix + "<code>" + Marker + g.code + "</code>"
    ensures !html ==> r == InviteBody(g, format, html) + KeyPrefix + Marker + g.code
  {
    var last := if html then "<code>" + Marker + g.code + "</code>" else Marker + g.code;
    InviteBody(g, format, html) + KeyPrefix + last
  }

  /** The code typed after /join_group: text.strip().upper(). */
  function TypedCode(text: string): (r: string)
    ensures |r| <= |text|
    ensures forall i :: 0 <= i < |r| ==> !IsAsciiLower(r[i])
  {
    UpperHasNoAsciiLower(Strip(text));
    Upper(Strip(text))
  }

  /** The text handle_forwarded_message searches: text, else caption, else "". */
  function ForwardedText(text: Option<string>, caption: Option<string>): (r: string)
    ensures Truthy(text) ==> r == text.value
    ensures !Truthy(text) && Truthy(caption) ==> r == caption.value
    ensures !Truthy(text) && !Truthy(caption) ==> r == ""
  {
    if Truthy(text) then text.value else if Truthy(caption) then caption.value else ""
  }

  /** The index of the first newline at or after `i`, or the end of the text (str.find('\n', i), -1 read as the end). */
  function LineEnd(text: string, i: nat): (r: nat)
    requires i <= |text|
    ensures i <= r <= |text|
    ensures r < |text| ==> text[r] == '\n'
    ensures forall k :: i <= k < r ==> text[k] != '\n'
    decreases |text| - i
  {
    if i == |text| || text[i] == '\n' then i else LineEnd(text, i + 1)
  }

  /** The code read from `start`: up to the line end, stripped and upper-cased. */
  function CodeAt(text: string, start: nat): (r: string)
    requires start <= |text|
    ensures forall i :: 0 <= i < |r| ==> r[i] != '\n' && !IsAsciiLower(r[i])
  {
    var raw := text[start..LineEnd(text, start)];
    assert '\n' !in raw;
    StripChars(raw);
    UpperHasNoAsciiLower(Strip(raw));
    Upper(Strip(raw))
  }

  /** The marker extraction of handle_forwarded_message; None when the text has no marker. */
  function ExtractCode(text: string): (r: Option<string>)
    ensures r.None? <==> !Contains(text, Marker)
    ensures r.Some? ==> forall i :: 0 <= i < |r.value| ==> r.value[i] != '\n' && !IsAsciiLower(r.value[i])
  {
    match Find(text, Marker, 0)
    case None => None
    case Some(at) => Some(CodeAt(text, at + |Marker|))
  }

  /** A code the bot could have generated: no white space, no newline, already upper case. */
  predicate IsPlainCode(code: string) {
    forall i :: 0 <= i < |code| ==> !IsSpace(code[i]) && code[i] != '\n' && UpperChar(code[i]) == code[i]
  }

  /** Upper-casing a string that is already upper case changes nothing. */
  lemma UpperFixed(s: string)
    requires forall i :: 0 <= i < |s| ==> UpperChar(s[i]) == s[i]
    ensures Upper(s) == s
  {
  }

  /**
   * When `body` does not contain the marker and `sep` consists of characters
   * the marker does not use, the first marker is the one right after `sep`.
   */
  lemma {:induction false} FirstMarkerAfter(body: string, sep: string, tail: string)
    requires !Contains(body, Marker)
    requires |sep| > 0 && forall i :: 0 <= i < |sep| ==> sep[i] !in Marker
    ensures Find(body + sep + Marker + tail, Marker, 0) == Some(|body| + |sep|)
  {
    var text := body + sep + Marker + tail;
    var at := |body| + |sep|;
    assert text[at..at + |Marker|] == Marker;
    forall j | 0 <= j < at ensures !IsAt(text, Marker, j) {
      if j + |Marker| <= |body| {
        assert text[j..j + |Marker|] == body[j..j + |Marker|];
        assert !IsAt(body, Marker, j);
      } else {
        var k := if j < |body| then |body| else j;
        assert text[k] == sep[k - |body|];
      }
    }
    FindFirst(text, Marker, 0, at);
  }

  /** The marker uses none of the characters that precede it on the invite's last line. */
  lemma SeparatorsAreForeign()
    ensures forall i :: 0 <= i < |KeyPrefix| ==> KeyPrefix[i] !in Marker
  {
  }

  /** When the first marker ends at `start` and `tail` holds no newline, the code is the whole tail. */
  lemma {:induction false} CodeIsTail(head: string, tail: string)
    requires Find(head + Marker + tail, Marker, 0) == Some(|head|)
    requires forall i :: 0 <= i < |tail| ==> tail[i] != '\n'
    ensures ExtractCode(head + Marker + tail) == Some(Upper(Strip(tail)))
  {
    var text := head + Marker + tail;
    var start := |head| + |Marker|;
    assert text[start..] == tail;
    assert LineEnd(text, start) == |text|;
    assert text[start..|text|] == tail;
  }

  /**
   * Forwarding the invite as a recipient sees it joins the right group: the
   * extraction returns the group's code, provided the name, description and
   * dates above the last line do not themselves spell the marker.
   */
  lemma {:induction false} ForwardedInviteYieldsCode(g: Group, format: Date -> string)
    requires IsPlainCode(g.code)
    requires !Contains(InviteBody(g, format, false), Marker)
    ensures ExtractCode(InviteMessage(g, format, false)) == Some(g.code)
  {
    var body := InviteBody(g, format, false);
    SeparatorsAreForeign();
    FirstMarkerAfter(body, KeyPrefix, g.code);
    assert InviteMessage(g, format, false) == body + KeyPrefix + Marker + g.code;
    CodeIsTail(body + KeyPrefix, g.code);
    StripNoSpace(g.code);
    UpperFixed(g.code);
  }

  /** The invite forwarded as plain text is searched as it is, and yields the group's code. */
  lemma ForwardedInviteText(g: Group, format: Date -> string)
    requires IsPlainCode(g.code)
    requires !Contains(InviteBody(g, format, false), Marker)
    ensures ExtractCode(ForwardedText(Some(InviteMessage(g, format, false)), None)) == Some(g.code)
  {
    var m := InviteMessage(g, format, false);
    assert m[0] == InviteBody(g, format, false)[0];
    assert ForwardedText(Some(m), None) == m;
    ForwardedInviteYieldsCode(g, format);
  }

  // ----------------------------------------------------------- command hints

  const HintsHeader: string := "\n\n💡 Полезные команды:\n"

  function Bullet(cmd: string): string { "• " + cmd + "\n" }

  /** The bullets for `cmds`, in order. */
  function Bullets(cmds: seq<string>): (r: string)
    ensures cmds == [] <==> r == []
  {
    if cmds == [] then "" else Bullets(cmds[..|cmds| - 1]) + Bullet(cmds[|cmds| - 1])
  }

  /** get_command_hints as a value: nothing without commands, else the header and one bullet per command. */
  function Hints(cmds: seq<string>): string {
    if cmds == [] then "" else HintsHeader + Bullets(cmds)
  }

  /** get_command_hints: the header, then one bullet per command appended in a loop. */
  method CommandHints(cmds: seq<string>) returns (hints: string)
    ensures hints == Hints(cmds)
  {
    if cmds == [] {
      return "";
    }
    hints := HintsHeader;
    var i := 0;
    while i < |cmds|
      invariant 0 <= i <= |cmds|
      invariant hints == HintsHeader + Bullets(cmds[..i])
    {
      assert cmds[..i + 1][..i] == cmds[..i];
      hints := hints + Bullet(cmds[i]);
      i := i + 1;
    }
    assert cmds[..i] == cmds;
  }

  /** Every command appears as its own bullet line, and the hints are empty exactly when there is none. */
  lemma {:induction false} HintsListEveryCommand(cmds: seq<string>, k: nat)
    requires k < |cmds|
    ensures Hints(cmds) != ""
    ensures Contains(Hints(cmds), Bullet(cmds[k]))
  {
    BulletsContain(cmds, k);
    var b := Bullets(cmds);
    var j :| 0 <= j <= |b| && IsAt(b, Bullet(cmds[k]), j);
    var h := Hints(cmds);
    assert h == HintsHeader + b;
    assert h[|HintsHeader| + j..|HintsHeader| + j + |Bullet(cmds[k])|] == b[j..j + |Bullet(cmds[k])|];
    assert IsAt(h, Bullet(cmds[k]), |HintsHeader| + j);
  }

  lemma {:induction false} BulletsContain(cmds: seq<string>, k: nat)
    requires k < |cmds|
    ensures Contains(Bullets(cmds), Bullet(cmds[k]))
  {
    var n := |cmds|;
    var front := Bullets(cmds[..n - 1]);
    var b := Bullets(cmds);
    assert b == front + Bullet(cmds[n - 1]);
    if k == n - 1 {
      assert b[|front|..|front| + |Bullet(cmds[k])|] == Bullet(cmds[k]);
      assert IsAt(b, Bullet(cmds[k]), |front|);
    } else {
      BulletsContain(cmds[..n - 1], k);
      var j :| 0 <= j <= |front| && IsAt(front, Bullet(cmds[k]), j);
      assert b[j..j + |Bullet(cmds[k])|] == front[j..j + |Bullet(cmds[k])|];
      assert IsAt(b, Bullet(cmds[k]), j);
    }
  }
}
