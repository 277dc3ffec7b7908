# Fade That — a verified model of the timer core

Fade That is a Chrome extension that closes a tab when a countdown runs out. This
project models its logic in Dafny and proves properties of that model. It covers three
source files.

- **The background worker** (`background.js`). It keeps the `activeTimers` registry, which maps a
  tab id to `{startTime, duration, endTime}`. Runtime messages (`startTimer`, `checkTimer`,
  `stopTimer`, `getAllTimers`), the tab-removed event and `closeTab_<id>` alarms change it.
  When the worker starts, it rebuilds the registry from the alarms that survived.
  The registry is the class `Background.TimerRegistry`, which holds a `map<int, TimerRecord>`.
  Each handler is a method whose contract states the whole new map and the response.
  The Chrome calls appear in two ways:
  - The alarm the handler would create or clear is returned as an `AlarmCall` value.
  - The outcomes that come back from Chrome are parameters: an error thrown by
    `alarms.create`, the result of `alarms.clear`, and whether the tab was found and removed.
- **The popup** (`popup/popup.js`). It models:
  - `formatTime`;
  - the tab sort comparator;
  - the loop that groups the sorted tabs under one heading per window;
  - the 40-character title cut;
  - the checks the start button makes;
  - the timer shown when the popup opens;
  - the countdown state (`endTime`, the interval, the display text, the status line), as the class `Popup.Countdown`.
- **The notification manager** (`notification-manager.js`). These are pure functions. They cover:
  - the argument checks and defaults of `createNotification`;
  - the notification id;
  - the "N minutes and M seconds" time text;
  - the messages of the warning and timer-created notifications;
  - the button-click listener, which returns the extend or stop command it would send.

The JavaScript built-ins the code relies on are stated in module `Js`: `String(n)`, `parseInt`
with and without a radix, `split` on one character, `startsWith`, `includes`, and
`Math.ceil(x / 1000)`. The module `Scenarios` proves the outcome of a few event sequences on the
registry. Two of them give the registry the commands a notification click produces.

Each operation is paired with a partner:
- `formatTime` with a reader of `H:M:S` text;
- the time text with a reader of that text;
- alarm names with `parseInt(name.split("_")[1])`;
- the sort with the uniqueness of a sorted permutation;
- the grouping loop with the list of placements it must produce.

Lemmas connect each operation to its partner for all inputs.

Three behaviours of the code look unintended; the model keeps them as written:

- **Restored records.** `initializeTimers` (`background.js:12-16`) stores `startTime = now - duration * 1000`, where `duration` is the time left. So for a restored record, `startTime + duration * 1000` is *now*, not `endTime`. `Background.RestoredRecord` states exactly that.
- **Notification ids and the tab id.** A notification created without its own id gets `fade-that-notification-<tabId>-<time>` (`notification-manager.js:73-75`). The click listener reads the tab id from the *last* `-` piece (`notification-manager.js:205`), which is the creation time. This is modelled as written. `NotificationManager.DefaultIdClicks` proves the consequence: button 1 asks to stop the timer of "tab" `<time>`. No notification this file creates has a second button, though: warnings pass no buttons (`notification-manager.js:149`) and timer-created ones pass only "Ok" (`notification-manager.js:193`), so the stop is sent only for a default-id notification created elsewhere with two buttons. `Scenarios.CancelFromDefaultNotification` proves that this stops no timer, unless some tab's id equals the creation time.
- **No `extendTimer` handler.** The extend command is sent (`notification-manager.js:238-244`), but the background worker has no handler for it. It receives no response and changes nothing (`Scenarios.ExtendFromNotification`).

## Model

| member | source | states |
|---|---|---|
| Background.AlarmName | background.js:46 | the alarm of a tab is named with the `closeTab_` prefix |
| Background.AlarmNameRoundTrip | background.js:121 | `parseInt(name.split("_")[1])` on the name built at line 46 gives back every integer tab id (below 2^53 for JavaScript, see "Left out") |
| Background.AlarmTabId | background.js:119-121 | `parseInt(name.split("_")[1])`, with NaN read as no tab; `Background.AlarmNameRoundTrip` shows it inverts `Background.AlarmName` |
| Background.ClosedTab | background.js:8-9 | only a name with the `closeTab_` prefix stands for a tab, the one `Background.AlarmTabId` reads from it; `Background.RestoresOwnAlarm` shows a tab's own alarm stands for that tab |
| Background.RestoresOwnAlarm | background.js:8-9 | an alarm made for a tab is recognised as a close alarm for that same tab when timers are restored |
| Background.NewRecord | background.js:39-43 | a started record begins now and ends `duration * 1000` ms later, keeping the duration |
| Background.RestoredRecord | background.js:11-19 | a restored record ends at the alarm's scheduled time; its duration is the time left in seconds; start plus duration is now |
| Background.RemainingSeconds | background.js:64-67 | the remaining time is the fewest whole seconds covering the time left, and 0 once the end has passed (never negative) |
| Background.RemainingAtStart | background.js:42 | checked at its start instant, a timer reports its whole integer duration |
| Background.LastScheduledFound | background.js:7-19 | every readable close alarm yields a record for its tab; the last alarm for a tab decides it |
| Background.TimerRegistry.constructor | background.js:2 | the registry starts empty |
| Background.TimerRegistry.StartTimer | background.js:35-59 | the tab's record is replaced by the new one, all other keys unchanged, even when creating the alarm throws; the alarm asked for is `closeTab_<tabId>`; the response is success or the thrown message |
| Background.TimerRegistry.CheckTimer | background.js:60-72 | active exactly when the tab has a record, with its remaining seconds; the registry is unchanged |
| Background.TimerRegistry.StopTimer | background.js:73-102 | after a clean clear, a present record is deleted (only that key) with success, an absent one gives "No active timer found" and no change; a clear error or a throw leaves the registry unchanged and reports the error ("Unknown error" for an empty one) |
| Background.TimerRegistry.GetAllTimers | background.js:103-106 | the response is the whole registry, unchanged |
| Background.TimerRegistry.HandleMessage | background.js:34-108 | dispatch on `action`; queries change nothing; an unknown action gets no response and changes nothing |
| Background.TimerRegistry.OnTabRemoved | background.js:111-117 | a tracked tab loses exactly its record and its alarm is cleared; an untracked tab changes nothing |
| Background.TimerRegistry.OnAlarm | background.js:119-150 | a `closeTab_` alarm deletes its tab's record whether or not the tab is then found and removed; other alarms change nothing |
| Background.TimerRegistry.InitializeTimers | background.js:5-29 | each tab named by a close alarm gets the record restored from its last such alarm; every other tab keeps what it had |
| Js.ParseIntToString | background.js:9 | `parseInt(String(n))` is `n` for every integer, with no radix or radix 10; for JavaScript this holds below 2^53 (see "Left out") |
| Js.ParseInt | background.js:9 | `parseInt(s, radix)`, radix 0 standing for none: leading whitespace skipped, one sign, a `0x` prefix when the radix is absent or 16, then the longest run of digits; NaN when there are none or the radix is outside 2..36; its meaning on `String(n)` is `Js.ParseIntToString` |
| Js.SplitJoin | background.js:9 | splitting text made of two parts and a separator gives the pieces of each part |
| Js.SplitJoined | notification-manager.js:205 | splitting pieces joined with a separator they lack gives the pieces back |
| Js.CeilDiv1000 | background.js:66 | `Math.ceil(x / 1000)` is the least integer whose thousandfold reaches `x` |
| Popup.ClockFields | popup/popup.js:7-9 | `hours * 3600 + minutes * 60 + secs == seconds` with minutes and seconds below 60 |
| Popup.Pad | popup/popup.js:11 | a padded field has no ":" and is two characters for values below 100 |
| Popup.ParsePad | popup/popup.js:11 | a padded field reads back as its value |
| Popup.FormatTime | popup/popup.js:6-12 | the hours, minutes and seconds of `Popup.ClockFields`, padded and joined by ":"; `Popup.FormatTimeRoundTrip` reads the seconds back |
| Popup.FormatTimeLength | popup/popup.js:11 | below 100 hours the text is exactly 8 characters |
| Popup.FormatTimeRoundTrip | popup/popup.js:6-12 | reading the `HH:MM:SS` text back gives exactly the seconds formatted |
| Popup.CompareTabs | popup/popup.js:64-69 | negative, zero or positive exactly when the first tab comes before, at the same place as, or after the second |
| Popup.Insert | popup/popup.js:64-69 | inserting into a sorted list keeps it sorted and adds exactly the tab |
| Popup.SortTabs | popup/popup.js:64-69 | the sort returns a permutation of the tabs ordered by window, then position |
| Popup.SortedPermutationUnique | popup/popup.js:64-69 | with distinct places there is only one sorted permutation, so any sort algorithm agrees with this one |
| Popup.OptionFor | popup/popup.js:84-88 | a tab's option has the tab's id as its value and a text of at most 43 characters |
| Popup.TruncateTitle | popup/popup.js:86-87 | titles over 40 characters become their first 40 plus "..."; others are unchanged; at most 43 characters |
| Popup.WindowLabel | popup/popup.js:79 | the heading `Window <id>` of a window's group |
| Popup.WindowLabelRoundTrip | popup/popup.js:79 | a group's heading starts with "Window " and the window id reads back from the rest |
| Popup.AppendOption | popup/popup.js:89 | appending an option fills only the last group and places the option after all placed so far |
| Popup.GroupByWindow | popup/popup.js:72-90 | every tab's option ends up, in order, under a group of its own window; one group per change of window; every group is non-empty and labelled `Window <id>` |
| Popup.SortedGroupCount | popup/popup.js:72-90 | on a sorted list the number of groups is the number of distinct windows |
| Popup.GroupsFollowOrder | popup/popup.js:64-90 | grouping a sorted list gives groups in increasing window order |
| Popup.PopulateTabSelection | popup/popup.js:62-90 | after sort and grouping: the placements of the sorted tabs, one group per distinct window, windows increasing, every group non-empty and headed `Window <id>` |
| Popup.OnStartClick | popup/popup.js:162-191 | a duration that parses as NaN or not positive is rejected with the status message and nothing is sent; a positive duration starts a timer exactly unless "current tab" is chosen and no active tab is found, which is rejected with its own status; the start names the active tab or the parsed selection |
| Popup.StartListedTab | popup/popup.js:186-189 | choosing a listed tab, whose option value is its id, starts that tab's timer with the entered duration |
| Popup.MinKey | popup/popup.js:147 | the first of `Object.keys` over integer keys is the least key |
| Popup.ActiveTimerOnOpen | popup/popup.js:141-157 | nothing is shown for an empty registry; otherwise the least tab id, read back with `parseInt`, with its remaining seconds (never negative) |
| Popup.TimeLeft | popup/popup.js:17 | the time left is the fewest whole seconds covering the milliseconds up to the end |
| Popup.TimeLeftOfWholeSeconds | popup/popup.js:17 | an end set whole seconds ahead gives back those seconds |
| Popup.Countdown.constructor | popup/popup.js:1-3 | no interval runs and nothing is shown |
| Popup.Countdown.UpdateTimerDisplay | popup/popup.js:15-30 | once no time is left the interval stops and the completed status shows; otherwise the display shows `formatTime` of the time left |
| Popup.Countdown.ShowActiveTimer | popup/popup.js:33-42 | the end is set `remainingTime` seconds ahead, the display is updated once, and an interval is running afterwards |
| Popup.Countdown.HideTimerUI | popup/popup.js:45-51 | the interval stops and the status line is emptied |
| NotificationManager.TitleText | notification-manager.js:45-64 | the title is the argument's text when truthy and non-empty, otherwise "Fade That"; never empty |
| NotificationManager.MessageText | notification-manager.js:49-65 | the message is the argument's text when truthy, otherwise empty |
| NotificationManager.DefaultId | notification-manager.js:75 | the default id starts with `fade-that-notification-`; `NotificationManager.DefaultIdPieces` gives its pieces |
| NotificationManager.NotificationId | notification-manager.js:73-75 | a non-empty custom id is used, otherwise `fade-that-notification-<tabId>-<now>` |
| NotificationManager.CreateNotification | notification-manager.js:31-101 | rejected with "Invalid tabId: ..." exactly when the tab id is not a non-negative Number; otherwise the id, title and message chosen by `NotificationId`, `TitleText` and `MessageText` (so a non-empty title and id), and buttons attached exactly when some were given |
| NotificationManager.TimeText | notification-manager.js:131-138 | the "N minutes and M seconds" text; `NotificationManager.TimeTextWords` gives its words and `NotificationManager.TimeTextRoundTrip` reads the seconds back |
| NotificationManager.TimeTextWords | notification-manager.js:132-138 | above 60 seconds the text is `<s/60> minutes and <s%60> seconds`, otherwise `<s> seconds`, word by word |
| NotificationManager.TimeTextRoundTrip | notification-manager.js:132-138 | reading the time text back gives exactly the seconds |
| NotificationManager.WarningMessage | notification-manager.js:148 | `The tab will close in <time text>.`; `NotificationManager.WarningMessageRoundTrip` reads the seconds back |
| NotificationManager.WarningMessageRoundTrip | notification-manager.js:148 | the seconds left can be read back out of the warning message |
| NotificationManager.WarningNotification | notification-manager.js:109-151 | a warning exists exactly for a valid tab id and positive seconds; it has the default id `fade-that-notification-<tabId>-<now>`, is titled "Tab Closing Soon" and has no buttons; its message is `The tab will close in <time text>.` with the minutes-and-seconds rule of the time text, and names the seconds left |
| NotificationManager.CreatedMessage | notification-manager.js:183-187 | the recreated-tab or first-timer sentence around the time text; `NotificationManager.CreatedMessageRoundTrip` reads the duration back and `NotificationManager.CreatedMessageSuffix` places the "will iterate" sentence |
| NotificationManager.CreatedMessageRoundTrip | notification-manager.js:183-187 | the duration can be read back out of the timer-created message of either kind |
| NotificationManager.CreatedMessageSuffix | notification-manager.js:183-187 | the message ends with the "will iterate" sentence exactly when the tab was not recreated and the timer iterates |
| NotificationManager.TimerCreatedNotification | notification-manager.js:161-195 | created exactly for a valid tab id and positive duration; titled "Timer Iterated" when recreated and "Timer Started" otherwise; one "Ok" button; the default id `fade-that-notification-<tabId>-<now>`; the message is the recreated-tab or first-timer sentence around the same minutes-and-seconds time text used for warnings, names the duration, and ends with the "will iterate" sentence exactly for a first timer that iterates |
| NotificationManager.ClickedTab | notification-manager.js:205 | `parseInt` of the last `-` piece of the id; `NotificationManager.DefaultIdTab` and `NotificationManager.WarningIdClicks` show which tab that is |
| NotificationManager.OnButtonClicked | notification-manager.js:200-223 | ids without the prefix are ignored; every other id is cleared; button 0 extends by 300 s only on ids containing "warning"; button 1 stops; other buttons send nothing |
| NotificationManager.DefaultIdPieces | notification-manager.js:73-75 | a default id splits on "-" into "fade", "that", "notification", the tab id and the time |
| NotificationManager.DefaultIdTab | notification-manager.js:205 | the tab id read from a default id is its creation time |
| NotificationManager.DefaultIdLacksWarning | notification-manager.js:210 | a default id never contains "warning" |
| NotificationManager.DefaultIdClicks | notification-manager.js:204-220 | on a default id, button 1 stops "tab" `<time>` and button 0 sends nothing; both clear the notification |
| NotificationManager.ShownNotificationsNeverExtend | notification-manager.js:145-194 | no warning or timer-created notification can send an extend command |
| NotificationManager.WarningIdClicks | notification-manager.js:204-217 | on `fade-that-notification-warning-<t>`, button 0 extends tab `t` by 300 s and button 1 stops it |
| Scenarios.StopTwice | background.js:88-96 | two stops give success, then "No active timer found"; only that key is removed |
| Scenarios.StartThenCheck | background.js:62-68 | a check at the start instant reports the whole duration |
| Scenarios.StartThenTabClosed | background.js:111-117 | closing a started tab removes its record and clears its alarm |
| Scenarios.StartThenAlarm | background.js:119-128 | a started tab's own alarm removes its record whatever happens to the tab |
| Scenarios.ExtendFromNotification | notification-manager.js:238-244 | the extend command gets no response and changes no timer |
| Scenarios.CancelFromDefaultNotification | notification-manager.js:264-270 | cancelling from a default-id notification stops no timer unless some tab is numbered like the time |

## Left out

- Chrome APIs (`alarms`, `tabs`, `notifications`, `runtime.sendMessage`, `storage.sync`): calls are returned values and their outcomes are parameters; asynchronous callbacks are taken to run to completion one at a time, so interleavings of handlers are not modelled.
- `console` logging, promise wrapping, the DOM beyond the status line and timer display, the settings panel (`loadSettings`, `saveSettings`, `toggleSettings`), `startTimerForTab` and the stop button handler: user interface code outside the modelled logic.
- `Date.now()` is the parameter `now`. The two calls in `initializeTimers` and `startTimer` are taken to return the same instant, and so are the two reads in the popup's `showActiveTimer` (`popup/popup.js:39`) and the `updateTimerDisplay` it calls (`popup/popup.js:16`); the results differ only if a whole second passes between them.
- The alarm delay `duration / 60` minutes is a float; `AlarmCall.CreateAlarm` carries the delay in whole seconds instead.
- Tab ids and durations are integers; fractional Numbers, `-0` and `Infinity` are not modelled. Registry keys are `int`, not the strings JavaScript turns them into.
- Numbers are unbounded integers. JavaScript rounds integers above 2^53 to the nearest double (so `parseInt("9007199254740993", 10)` is 9007199254740992, while `Popup.OnStartClick` sends 9007199254740993) and writes values from 10^21 up in exponent form (`String(10**21)` is `"1e+21"`). So `Js.IntToString`, `Js.ParseIntToString` and `Background.AlarmNameRoundTrip` describe JavaScript only for magnitudes below 2^53; tab ids, window ids, durations and times stay far below that.
- Background.TimerRegistry.OnAlarm: a `closeTab_` alarm whose suffix parses as NaN would delete the key "NaN" and look up tab NaN in JavaScript; the model changes nothing and reports `UnreadableTabId`.
- Background.TimerRegistry.InitializeTimers: an alarm whose suffix parses as NaN is skipped rather than stored under the key "NaN".
- Popup.ActiveTimerOnOpen: requires tab ids that are array indices (0 up to 2^32 - 2), because only for those does `Object.keys` list keys in increasing order; above that, JavaScript lists keys in insertion order, which a map does not keep.
- Popup.SortTabs: the browser's sort algorithm is not specified; the model sorts by insertion, and `Popup.SortedPermutationUnique` shows that any correct sort gives the same list when window and position tell tabs apart.
- Popup.TruncateTitle: lengths count Unicode scalar values, not the UTF-16 code units JavaScript counts.
- NotificationManager.CreateNotification: a `null` button list and the fixed `type`, `iconUrl` and `requireInteraction` fields are not modelled; the outcome of `chrome.notifications.create` is not modelled.
- NotificationManager.WarningNotification and NotificationManager.TimerCreatedNotification: fractional seconds and durations are not modelled.
- The `onClosed` listener only logs and is not modelled.
