/** The message side of the extension's notifications: checking the arguments of a
    notification, choosing its title, message, buttons and id, wording the time left,
    and turning a click on one of its buttons into a command for the background
    worker. Showing and clearing notifications and sending messages are Chrome calls;
    here they are the values these functions return. */
module NotificationManager {
  import opened Js

  // ---------------------------------------------------------------------------
  // Arguments
  // ---------------------------------------------------------------------------

  /** A JavaScript argument as these functions look at it: a string, a Number, or any
      other value (a boolean, null, undefined, an object) given by its `String()` text
      and its truthiness. */
  datatype Value = Str(s: string) | Number(n: JsNumber) | Other(text: string, truthy: bool)

  /** `String(v)`. */
  function ValueText(v: Value): string {
    match v
    case Str(s) => s
    case Number(NaN) => "NaN"
    case Number(Num(x)) => IntToString(x)
    case Other(text, _) => text
  }

  /** JavaScript truthiness: the empty string, 0 and NaN are falsy. */
  predicate Truthy(v: Value) {
    match v
    case Str(s) => s != ""
    case Number(NaN) => false
    case Number(Num(x)) => x != 0
    case Other(_, truthy) => truthy
  }

  /** The tab id a notification accepts: a Number that is neither NaN nor negative. */
  function TabIdOf(tabId: Value): Option<nat> {
    if tabId.Number? && tabId.n.Num? && tabId.n.value >= 0 then Some(tabId.n.value) else None
  }

  /** A count of seconds the time text accepts: a Number that is neither NaN nor below 1. */
  function SecondsOf(v: Value): Option<nat> {
    if v.Number? && v.n.Num? && v.n.value > 0 then Some(v.n.value) else None
  }

  // ---------------------------------------------------------------------------
  // createNotification
  // ---------------------------------------------------------------------------

  const NotificationPrefix: string := "fade-that-notification-"
  const DefaultTitle: string := "Fade That"
  const InvalidTabIdLead: string := "Invalid tabId: "

  datatype Button = Button(title: string)

  /** The options handed to `chrome.notifications.create`; `buttons` is absent when no
      button was given. The fixed type, icon and `requireInteraction` are not modelled. */
  datatype NotificationOptions = NotificationOptions(title: string, message: string, buttons: Option<seq<Button>>)

  /** What `createNotification` does: reject with an error, or create a notification. */
  datatype Creation = Rejected(error: string) | Created(id: string, options: NotificationOptions)

  /** The title shown: a non-string title falls back to the default when falsy and is
      turned into text otherwise, and an empty title falls back to the default again. */
  function TitleText(title: Value): (t: string)
    ensures t != ""
    ensures t == if Truthy(title) && ValueText(title) != "" then ValueText(title) else DefaultTitle
  {
    var given := if title.Str? then title.s else if Truthy(title) then ValueText(title) else DefaultTitle;
    if given == "" then DefaultTitle else given
  }

  /** The message shown: the text of a truthy message, and the empty string otherwise. */
  function MessageText(message: Value): (t: string)
    ensures Truthy(message) ==> t == ValueText(message)
    ensures !Truthy(message) ==> t == ""
  {
    var given := if message.Str? then message.s else if Truthy(message) then ValueText(message) else "";
    if given == "" then "" else given
  }

  /** The id given to a notification created without one of its own. */
  function DefaultId(tabId: nat, now: int): (id: string)
    ensures StartsWith(id, NotificationPrefix)
  {
    var rest := NatToString(tabId) + "-" + IntToString(now);
    assert (NotificationPrefix + rest)[..|NotificationPrefix|] == NotificationPrefix;
    NotificationPrefix + rest
  }

  /** A custom id is used unless it is absent or empty. */
  function NotificationId(tabId: nat, customId: Option<string>, now: int): (id: string)
    ensures customId.Some? && customId.value != "" ==> id == customId.value
    ensures customId.None? || customId.value == "" ==> id == DefaultId(tabId, now)
    ensures id != ""
  {
    if customId.Some? && customId.value != "" then customId.value else DefaultId(tabId, now)
  }

  /** `createNotification(tabId, title, message, buttons, customNotificationId)` at time `now`. */
  function CreateNotification(tabId: Value, title: Value, message: Value, buttons: seq<Button>,
                              customId: Option<string>, now: int): (r: Creation)
    ensures r.Rejected? <==> TabIdOf(tabId).None?
    ensures r.Rejected? ==> r.error == InvalidTabIdLead + ValueText(tabId)
    ensures r.Created? ==> r.options.title != "" && r.id != ""
    ensures r.Created? ==> (r.options.buttons.Some? <==> buttons != [])
    ensures r.Created? && r.options.buttons.Some? ==> r.options.buttons.value == buttons
    ensures r.Created? ==>
      && r.id == NotificationId(TabIdOf(tabId).value, customId, now)
      && r.options.title == TitleText(title)
      && r.options.message == MessageText(message)
  {
    match TabIdOf(tabId)
    case None => Rejected(InvalidTabIdLead + ValueText(tabId))
    case Some(t) =>
      var options := NotificationOptions(TitleText(title), MessageText(message),
                                         if |buttons| > 0 then Some(buttons) else None);
      Created(NotificationId(t, customId, now), options)
  }

  // ---------------------------------------------------------------------------
  // Time text
  // ---------------------------------------------------------------------------

  /** "N minutes and M seconds" above one minute, "N seconds" up to it. */
  function TimeText(seconds: nat): string
    requires seconds > 0
  {
    if seconds > 60 then NatToString(seconds / 60) + " minutes and " + NatToString(seconds % 60) + " seconds"
    else NatToString(seconds) + " seconds"
  }

  /** Reads a time text back into seconds. */
  function ReadTimeText(text: string): Option<nat> {
    var words := Split(text, ' ');
    if |words| == 2 && words[1] == "seconds" then ReadDecimal(words[0])
    else if |words| == 5 && words[1] == "minutes" && words[2] == "and" && words[4] == "seconds" then
      match (ReadDecimal(words[0]), ReadDecimal(words[3]))
      case (Some(m), Some(s)) => Some(m * 60 + s)
      case _ => None
    else None
  }

  lemma NoSpaceInNumber(n: nat)
    ensures ' ' !in NatToString(n)
  {
    DigitsLack(NatToString(n), ' ');
  }

  /** The phrase between minutes and seconds, as words. */
  lemma MinutesAndWords()
    ensures " minutes and " == [' '] + "minutes" + [' '] + "and" + [' ']
  {
  }

  /** The words of a time text over a minute, for any numbers without spaces. */
  lemma MinutesWords(m: string, s: string)
    requires ' ' !in m && ' ' !in s
    ensures Split(m + " minutes and " + s + " seconds", ' ') == [m, "minutes", "and", s, "seconds"]
  {
    var words := [m, "minutes", "and", s, "seconds"];
    assert m + " minutes and " + s + " seconds" == Join(words, ' ') by {
      MinutesAndWords();
      assert " seconds" == [' '] + "seconds";
      JoinOfFive(m, "minutes", "and", s, "seconds", ' ');
    }
    SplitJoined(words, ' ');
  }

  /** The words of a time text of a minute or less, for any number without spaces. */
  lemma SecondsWords(s: string)
    requires ' ' !in s
    ensures Split(s + " seconds", ' ') == [s, "seconds"]
  {
    assert s + " seconds" == s + [' '] + "seconds";
    SplitAfterPiece(s, ' ', "seconds");
    SplitWithoutSeparator("seconds", ' ');
  }

  /** The words of a time text. */
  lemma TimeTextWords(seconds: nat)
    requires seconds > 0
    ensures seconds > 60 ==>
      Split(TimeText(seconds), ' ') == [NatToString(seconds / 60), "minutes", "and", NatToString(seconds % 60), "seconds"]
    ensures seconds <= 60 ==> Split(TimeText(seconds), ' ') == [NatToString(seconds), "seconds"]
  {
    if seconds > 60 {
      NoSpaceInNumber(seconds / 60);
      NoSpaceInNumber(seconds % 60);
      MinutesWords(NatToString(seconds / 60), NatToString(seconds % 60));
    } else {
      NoSpaceInNumber(seconds);
      SecondsWords(NatToString(seconds));
    }
  }

  /** The time text names exactly the seconds it was made from. */
  lemma TimeTextRoundTrip(seconds: nat)
    requires seconds > 0
    ensures ReadTimeText(TimeText(seconds)) == Some(seconds)
  {
    TimeTextWords(seconds);
    if seconds > 60 {
      ReadDecimalOfNat(seconds / 60);
      ReadDecimalOfNat(seconds % 60);
    } else {
      ReadDecimalOfNat(seconds);
    }
  }

  /** Every time text ends in the word "seconds". */
  lemma TimeTextEndsInSeconds(seconds: nat)
    requires seconds > 0
    ensures var text := TimeText(seconds); |text| >= 2 && text[|text| - 1] == 's'
  {
    var lead := if seconds > 60 then NatToString(seconds / 60) + " minutes and " + NatToString(seconds % 60) + " "
                else NatToString(seconds) + " ";
    assert TimeText(seconds) == lead + "seconds";
  }

  // ---------------------------------------------------------------------------
  // createTimerWarningNotification
  // ---------------------------------------------------------------------------

  const WarningTitle: string := "Tab Closing Soon"
  const WarningLead: string := "The tab will close in "

  function WarningMessage(seconds: nat): string
    requires seconds > 0
  {
    WarningLead + TimeText(seconds) + "."
  }

  /** Reads the seconds back out of a warning message. */
  function ReadWarningMessage(message: string): Option<nat> {
    if |message| > |WarningLead| && StartsWith(message, WarningLead) && message[|message| - 1] == '.' then
      ReadTimeText(message[|WarningLead|..|message| - 1])
    else None
  }

  lemma WarningMessageRoundTrip(seconds: nat)
    requires seconds > 0
    ensures ReadWarningMessage(WarningMessage(seconds)) == Some(seconds)
  {
    var text := TimeText(seconds);
    var message := WarningMessage(seconds);
    assert message[|WarningLead|..|message| - 1] == text;
    assert message[..|WarningLead|] == WarningLead;
    TimeTextRoundTrip(seconds);
  }

  /** `createTimerWarningNotification(tabId, secondsLeft)` at time `now`: nothing for an
      invalid tab id or a count of seconds that is not positive; otherwise a notification
      with the warning title, no buttons and a message naming the seconds left. */
  function WarningNotification(tabId: Value, secondsLeft: Value, now: int): (r: Option<Creation>)
    ensures r.Some? <==> TabIdOf(tabId).Some? && SecondsOf(secondsLeft).Some?
    ensures r.Some? ==> r.value.Created? && r.value.options.title == WarningTitle
    ensures r.Some? ==> r.value.Created? && r.value.options.buttons == None
    ensures r.Some? ==> r.value.Created? && ReadWarningMessage(r.value.options.message) == SecondsOf(secondsLeft)
    ensures r.Some? ==>
      && r.value.Created?
      && r.value.options.message == WarningMessage(SecondsOf(secondsLeft).value)
      && r.value.id == DefaultId(TabIdOf(tabId).value, now)
  {
    if TabIdOf(tabId).None? then None
    else match SecondsOf(secondsLeft)
      case None => None
      case Some(s) =>
        WarningMessageRoundTrip(s);
        Some(CreateNotification(tabId, Str(WarningTitle), Str(WarningMessage(s)), [], None, now))
  }

  // ---------------------------------------------------------------------------
  // notifyTimerCreated
  // ---------------------------------------------------------------------------

  const IteratedTitle: string := "Timer Iterated"
  const StartedTitle: string := "Timer Started"
  const IterateSuffix: string := " Timer will iterate after completion."
  const OkButton: Button := Button("Ok")
  const RecreatedLead: string := "Tab recreated and will close again in "
  const RecreatedTail: string := " (iteration mode)."
  const StartedLead: string := "Tab will close in "

  /** The message of a timer-created notification: the time text of the duration, in the
      sentence for a recreated tab or for a first timer, the latter followed by the
      "will iterate" sentence when the timer iterates. */
  function CreatedMessage(seconds: nat, isIteration: bool, iterateTimer: bool): string
    requires seconds > 0
  {
    var text := TimeText(seconds);
    if isIteration then RecreatedLead + text + RecreatedTail
    else StartedLead + text + "." + (if iterateTimer then IterateSuffix else "")
  }

  /** Reads the duration back out of a timer-created message of either kind. */
  function ReadCreatedMessage(message: string): Option<nat> {
    if |RecreatedLead| + |RecreatedTail| <= |message| && StartsWith(message, RecreatedLead)
       && EndsWith(message, RecreatedTail) then
      ReadTimeText(message[|RecreatedLead|..|message| - |RecreatedTail|])
    else
      var sentence := if EndsWith(message, IterateSuffix) then message[..|message| - |IterateSuffix|] else message;
      if |sentence| > |StartedLead| && StartsWith(sentence, StartedLead) && sentence[|sentence| - 1] == '.' then
        ReadTimeText(sentence[|StartedLead|..|sentence| - 1])
      else None
  }

  /** The recreated-tab sentence reads back as its time text. */
  lemma ReadRecreated(text: string)
    ensures ReadCreatedMessage(RecreatedLead + text + RecreatedTail) == ReadTimeText(text)
  {
    var message := RecreatedLead + text + RecreatedTail;
    assert message[..|RecreatedLead|] == RecreatedLead;
    assert message[|message| - |RecreatedTail|..] == RecreatedTail;
    assert message[|RecreatedLead|..|message| - |RecreatedTail|] == text;
  }

  /** Text opening with the first-timer lead is never taken for the recreated-tab sentence. */
  lemma NotRecreated(message: string)
    requires StartsWith(message, StartedLead)
    ensures !StartsWith(message, RecreatedLead)
  {
    assert message[4] == StartedLead[4] == 'w';
    if |RecreatedLead| <= |message| {
      assert message[..|RecreatedLead|][4] != RecreatedLead[4];
    }
  }

  /** The first-timer sentence, with or without the "will iterate" sentence after it,
      reads back as its time text when that text ends in "s". */
  lemma ReadStarted(text: string, iterateTimer: bool)
    requires text != [] && text[|text| - 1] == 's'
    ensures ReadCreatedMessage(StartedLead + text + "." + (if iterateTimer then IterateSuffix else ""))
            == ReadTimeText(text)
  {
    var sentence := StartedLead + text + ".";
    var message := sentence + (if iterateTimer then IterateSuffix else "");
    assert sentence[..|StartedLead|] == StartedLead;
    assert message[..|StartedLead|] == StartedLead;
    NotRecreated(message);
    if iterateTimer {
      assert message[|message| - |IterateSuffix|..] == IterateSuffix;
      assert message[..|message| - |IterateSuffix|] == sentence;
    } else {
      assert message == sentence;
      EndsWithDiffers(message, IterateSuffix, |IterateSuffix| - 2);
    }
    assert sentence[|StartedLead|..|sentence| - 1] == text;
  }

  lemma CreatedMessageRoundTrip(seconds: nat, isIteration: bool, iterateTimer: bool)
    requires seconds > 0
    ensures ReadCreatedMessage(CreatedMessage(seconds, isIteration, iterateTimer)) == Some(seconds)
  {
    var text := TimeText(seconds);
    TimeTextRoundTrip(seconds);
    if isIteration {
      ReadRecreated(text);
    } else {
      TimeTextEndsInSeconds(seconds);
      ReadStarted(text, iterateTimer);
    }
  }

  /** The "will iterate" sentence closes the message exactly for a first timer that iterates. */
  lemma CreatedMessageSuffix(seconds: nat, isIteration: bool, iterateTimer: bool)
    requires seconds > 0
    ensures EndsWith(CreatedMessage(seconds, isIteration, iterateTimer), IterateSuffix)
        <==> !isIteration && iterateTimer
  {
    var message := CreatedMessage(seconds, isIteration, iterateTimer);
    var text := TimeText(seconds);
    assert IterateSuffix[|IterateSuffix| - 2] == 'n';
    if !isIteration && iterateTimer {
      var lead := StartedLead + text + ".";
      assert message == lead + IterateSuffix;
      assert message[|message| - |IterateSuffix|..] == IterateSuffix;
    } else {
      if isIteration {
        var lead := RecreatedLead + text + " (iteration mode";
        assert message == lead + ").";
        assert message[|message| - 2] == ')';
      } else {
        TimeTextEndsInSeconds(seconds);
        var lead := StartedLead + text;
        assert message == lead + ".";
        assert message[|message| - 2] == text[|text| - 1] == 's';
      }
      EndsWithDiffers(message, IterateSuffix, |IterateSuffix| - 2);
    }
  }

  /** `notifyTimerCreated(tabId, duration, isIteration, iterateTimer)` at time `now`:
      nothing for an invalid tab id or a duration that is not positive; otherwise a
      notification with one "Ok" button, titled after whether the tab was recreated. */
  function TimerCreatedNotification(tabId: Value, duration: Value, isIteration: bool, iterateTimer: bool,
                                    now: int): (r: Option<Creation>)
    ensures r.Some? <==> TabIdOf(tabId).Some? && SecondsOf(duration).Some?
    ensures r.Some? ==> r.value.Created? && (r.value.options.title == IteratedTitle <==> isIteration)
    ensures r.Some? ==> r.value.Created? && r.value.options.buttons == Some([OkButton])
    ensures r.Some? ==>
      r.value.Created? && (EndsWith(r.value.options.message, IterateSuffix) <==> !isIteration && iterateTimer)
    ensures r.Some? ==>
      r.value.Created? && r.value.options.title == (if isIteration then IteratedTitle else StartedTitle)
    ensures r.Some? ==>
      r.value.Created? && ReadCreatedMessage(r.value.options.message) == SecondsOf(duration)
    ensures r.Some? ==>
      && r.value.Created?
      && r.value.options.message == CreatedMessage(SecondsOf(duration).value, isIteration, iterateTimer)
      && r.value.id == DefaultId(TabIdOf(tabId).value, now)
  {
    if TabIdOf(tabId).None? then None
    else match SecondsOf(duration)
      case None => None
      case Some(s) =>
        CreatedMessageSuffix(s, isIteration, iterateTimer);
        CreatedMessageRoundTrip(s, isIteration, iterateTimer);
        var title := if isIteration then IteratedTitle else StartedTitle;
        Some(CreateNotification(tabId, Str(title), Str(CreatedMessage(s, isIteration, iterateTimer)),
                                [OkButton], None, now))
  }

  // ---------------------------------------------------------------------------
  // Button clicks
  // ---------------------------------------------------------------------------

  /** The extension of a timer asked for from a notification: five minutes. */
  const ExtendSeconds: int := 5 * 60

  /** The messages `handleExtendTimerFromNotification` and
      `handleCancelTimerFromNotification` send to the background worker. */
  datatype Command = ExtendTimer(tabId: JsNumber, additionalTime: int) | StopTimer(tabId: JsNumber)

  /** What a click does: nothing for a foreign notification; for one of the extension's,
      perhaps a command, and the notification cleared. */
  datatype Click = Ignored | Handled(command: Option<Command>, clear: string)

  /** The tab id a click reads from a notification id: `parseInt` of its last `-` piece. */
  function ClickedTab(id: string): JsNumber {
    ParseInt(Last(Split(id, '-')), 0)
  }

  /** The `onButtonClicked` listener. */
  function OnButtonClicked(id: string, buttonIndex: int): (r: Click)
    ensures r.Ignored? <==> !StartsWith(id, NotificationPrefix)
    ensures r.Handled? ==> r.clear == id
    ensures r.Handled? && r.command.Some? ==> buttonIndex == 0 || buttonIndex == 1
    ensures r.Handled? && buttonIndex == 1 ==> r.command == Some(StopTimer(ClickedTab(id)))
    ensures r.Handled? && buttonIndex == 0 ==>
      r.command == if Contains(id, "warning") then Some(ExtendTimer(ClickedTab(id), ExtendSeconds)) else None
  {
    if !StartsWith(id, NotificationPrefix) then Ignored
    else
      var tabId := ClickedTab(id);
      var command :=
        if buttonIndex == 0 then (if Contains(id, "warning") then Some(ExtendTimer(tabId, ExtendSeconds)) else None)
        else if buttonIndex == 1 then Some(StopTimer(tabId))
        else None;
      Handled(command, id)
  }

  /** The words of the id prefix. */
  lemma PrefixWords()
    ensures NotificationPrefix == "fade" + ['-'] + "that" + ['-'] + "notification" + ['-']
  {
  }

  /** A default id is split into the words of the prefix, the tab id and the time. */
  lemma DefaultIdPieces(tabId: nat, now: nat)
    ensures Split(DefaultId(tabId, now), '-')
      == ["fade", "that", "notification", NatToString(tabId), NatToString(now)]
  {
    var t, n := NatToString(tabId), NatToString(now);
    var pieces := ["fade", "that", "notification", t, n];
    assert DefaultId(tabId, now) == Join(pieces, '-') by {
      PrefixWords();
      JoinOfFive("fade", "that", "notification", t, n, '-');
    }
    DigitsLack(t, '-');
    DigitsLack(n, '-');
    SplitJoined(pieces, '-');
  }

  /** Clicking a notification created without its own id reads the creation time as the
      tab id: button 1 asks to stop the timer of "tab" `now`, and button 0 does nothing,
      since a default id never contains "warning". */
  lemma DefaultIdClicks(tabId: nat, now: nat)
    ensures OnButtonClicked(DefaultId(tabId, now), 1) == Handled(Some(StopTimer(Num(now))), DefaultId(tabId, now))
    ensures OnButtonClicked(DefaultId(tabId, now), 0) == Handled(None, DefaultId(tabId, now))
  {
    var id := DefaultId(tabId, now);
    assert StartsWith(id, NotificationPrefix) by {
      assert id[..|NotificationPrefix|] == NotificationPrefix;
    }
    DefaultIdTab(tabId, now);
    DefaultIdLacksWarning(tabId, now);
  }

  /** The tab id a click reads from a default id is the creation time. */
  lemma DefaultIdTab(tabId: nat, now: nat)
    ensures ClickedTab(DefaultId(tabId, now)) == Num(now)
  {
    var pieces := Split(DefaultId(tabId, now), '-');
    DefaultIdPieces(tabId, now);
    assert Last(pieces) == NatToString(now);
    ParseNatToString(now, 0);
  }

  lemma DefaultIdLacksWarning(tabId: nat, now: nat)
    ensures !Contains(DefaultId(tabId, now), "warning")
  {
    var t, n := NatToString(tabId), NatToString(now);
    DigitsLack(t, 'w');
    DigitsLack(n, 'w');
    assert 'w' !in NotificationPrefix;
    assert 'w' !in DefaultId(tabId, now);
    NotContainsWithoutFirstChar(DefaultId(tabId, now), "warning");
  }

  /** Every notification the warning and timer-created paths show has a default id, so
      their buttons never extend a timer. */
  lemma ShownNotificationsNeverExtend(tabId: Value, seconds: Value, isIteration: bool, iterateTimer: bool, now: nat)
    ensures var r := WarningNotification(tabId, seconds, now);
      r.Some? ==> OnButtonClicked(r.value.id, 0) == Handled(None, r.value.id)
    ensures var r := TimerCreatedNotification(tabId, seconds, isIteration, iterateTimer, now);
      r.Some? ==> OnButtonClicked(r.value.id, 0) == Handled(None, r.value.id)
  {
    if TabIdOf(tabId).Some? {
      DefaultIdClicks(TabIdOf(tabId).value, now);
    }
  }

  /** An id that carries "warning" and ends in a tab id is read as that tab: button 0
      extends its timer by five minutes and button 1 stops it. */
  lemma WarningIdClicks(tabId: nat)
    ensures var id := NotificationPrefix + "warning-" + NatToString(tabId);
      OnButtonClicked(id, 0) == Handled(Some(ExtendTimer(Num(tabId), ExtendSeconds)), id)
      && OnButtonClicked(id, 1) == Handled(Some(StopTimer(Num(tabId))), id)
  {
    var t := NatToString(tabId);
    var id := NotificationPrefix + "warning-" + t;
    assert StartsWith(id, NotificationPrefix) by {
      assert id[..|NotificationPrefix|] == NotificationPrefix;
    }
    assert Contains(id, "warning") by {
      assert id[|NotificationPrefix|..][..7] == "warning";
      ContainsAt(id, "warning", |NotificationPrefix|);
    }
    assert ClickedTab(id) == Num(tabId) by {
      assert id == (NotificationPrefix + "warning") + ['-'] + t;
      LastPieceAfter(NotificationPrefix + "warning", '-', t);
      DigitsLack(t, '-');
      SplitWithoutSeparator(t, '-');
      ParseNatToString(tabId, 0);
    }
  }
}
