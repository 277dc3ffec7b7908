/** The service worker's timer registry: the map `activeTimers` from tab id to timer
    record, the message handlers that start, check, stop and list timers, and the
    listeners for removed tabs and fired `closeTab_<tabId>` alarms. The Chrome calls are
    not made here: what a handler asks of the alarms API is returned as an `AlarmCall`,
    and what the host reports back (a thrown error, a `lastError`, a missing tab) is a
    parameter. Clock readings are the parameter `now`, in epoch milliseconds. */
module Background {
  import opened Js

  /** One entry of `activeTimers`: start and end in epoch milliseconds, duration in
      seconds. The duration is a real number because a timer restored at start-up
      stores a fractional number of seconds. */
  datatype TimerRecord = TimerRecord(startTime: int, duration: real, endTime: int)

  /** A pending alarm as `chrome.alarms.getAll` lists it. */
  datatype Alarm = Alarm(name: string, scheduledTime: int)

  /** A request to the alarms API. The delay handed to the host is `delayInMinutes:
      duration / 60`; here it is kept as the duration in seconds. */
  datatype AlarmCall = CreateAlarm(name: string, delaySeconds: int) | ClearAlarm(name: string)

  /** How `chrome.alarms.clear` ends: its callback runs without `lastError`, its callback
      runs with `lastError` set, or the call itself throws. */
  datatype ClearResult = Cleared | ClearLastError(message: string) | ClearThrew(message: string)

  /** A runtime message: its `action` and the fields the handlers read from it. */
  datatype Request = Request(action: string, tabId: int, duration: int)

  /** The objects handed to `sendResponse`. */
  datatype Response =
    | Success                                   // { success: true }
    | Failure(error: string)                    // { success: false, error }
    | Active(remainingTime: nat)                // { active: true, remainingTime }
    | Inactive                                  // { active: false }
    | AllTimers(timers: map<int, TimerRecord>)  // { success: true, timers }

  /** What the alarm listener ends up doing with the tab. */
  datatype AlarmOutcome =
    | NotCloseAlarm            // the alarm name lacks the closeTab_ prefix
    | UnreadableTabId          // the name's tab id reads as NaN
    | TabNotFound(tabId: int)  // chrome.tabs.get reported an error; no removal is tried
    | RemoveFailed(tabId: int) // chrome.tabs.remove reported an error
    | TabRemoved(tabId: int)   // the tab was closed

  const AlarmPrefix: string := "closeTab_"
  const NoTimerError: string := "No active timer found"
  const UnknownError: string := "Unknown error"

  // ---------------------------------------------------------------------------
  // Alarm names
  // ---------------------------------------------------------------------------

  /** `"closeTab_" + tabId`. */
  function AlarmName(tabId: int): (name: string)
    ensures StartsWith(name, AlarmPrefix)
  {
    AlarmPrefix + IntToString(tabId)
  }

  /** `parseInt(name.split("_")[1])`, with NaN as `None`; a name without a second piece
      reads `undefined`, which parses as NaN too. */
  function AlarmTabId(name: string): Option<int> {
    var parts := Split(name, '_');
    if |parts| < 2 then None
    else
      match ParseInt(parts[1], 0)
      case NaN => None
      case Num(t) => Some(t)
  }

  lemma NoUnderscoreInNumber(n: int)
    ensures '_' !in IntToString(n)
  {
    var s := IntToString(n);
    if n >= 0 {
      assert AllDigits(s);
    } else {
      assert s == "-" + NatToString(-n);
      assert AllDigits(s[1..]);
    }
  }

  /** The tab id written into an alarm name is the one read back from it. */
  lemma AlarmNameRoundTrip(tabId: int)
    ensures AlarmTabId(AlarmName(tabId)) == Some(tabId)
  {
    var digits := IntToString(tabId);
    assert Split(AlarmName(tabId), '_') == ["closeTab", digits] by {
      NoUnderscoreInNumber(tabId);
      assert AlarmName(tabId) == "closeTab" + ['_'] + digits;
      SplitJoin("closeTab", '_', digits);
      SplitWithoutSeparator("closeTab", '_');
      SplitWithoutSeparator(digits, '_');
    }
    ParseIntToString(tabId, 0);
  }

  /** The tab an alarm stands for, when it is a close alarm with a readable tab id. */
  function ClosedTab(alarm: Alarm): (r: Option<int>)
    ensures r.Some? ==> StartsWith(alarm.name, AlarmPrefix) && r == AlarmTabId(alarm.name)
  {
    if StartsWith(alarm.name, AlarmPrefix) then AlarmTabId(alarm.name) else None
  }

  // ---------------------------------------------------------------------------
  // Records and remaining time
  // ---------------------------------------------------------------------------

  /** The record `startTimer` stores: started now, ending `duration` seconds later. */
  function NewRecord(now: int, duration: int): (r: TimerRecord)
    ensures r.startTime == now
    ensures r.endTime - r.startTime == duration * 1000
    ensures r.duration == duration as real
  {
    TimerRecord(now, duration as real, now + duration * 1000)
  }

  /** The record `initializeTimers` rebuilds from an alarm scheduled for `scheduledTime`:
      the duration is the time left in seconds, and the start time is set that duration
      before now, so start plus duration is now rather than the end time. */
  function RestoredRecord(scheduledTime: int, now: int): (r: TimerRecord)
    ensures r.endTime == scheduledTime
    ensures r.duration * 1000.0 == (scheduledTime - now) as real
    ensures r.startTime as real + r.duration * 1000.0 == now as real
  {
    var duration := (scheduledTime - now) as real / 1000.0;
    TimerRecord(now - (scheduledTime - now), duration, scheduledTime)
  }

  /** `Math.max(0, Math.ceil((endTime - now) / 1000))`: the fewest whole seconds that
      cover the time left, and 0 once the end has passed. */
  function RemainingSeconds(endTime: int, now: int): (r: nat)
    ensures r * 1000 >= endTime - now
    ensures r == 0 || (r - 1) * 1000 < endTime - now
  {
    var c := CeilDiv1000(endTime - now);
    if c < 0 then 0 else c
  }

  /** A timer checked at the instant it was started reports its whole duration. */
  lemma RemainingAtStart(now: int, duration: nat)
    ensures RemainingSeconds(NewRecord(now, duration).endTime, now) == duration
  {
  }

  // ---------------------------------------------------------------------------
  // Restoring timers from surviving alarms
  // ---------------------------------------------------------------------------

  /** The scheduled time of the last close alarm in `alarms` that names tab `tabId`. */
  function LastScheduled(alarms: seq<Alarm>, tabId: int): Option<int> {
    if alarms == [] then None
    else if ClosedTab(Last(alarms)) == Some(tabId) then Some(Last(alarms).scheduledTime)
    else LastScheduled(alarms[..|alarms| - 1], tabId)
  }

  /** Every readable close alarm gives its tab a restored record, and the last such alarm
      for a tab decides that record. */
  lemma {:induction false} LastScheduledFound(alarms: seq<Alarm>, i: nat)
    requires i < |alarms| && ClosedTab(alarms[i]).Some?
    ensures LastScheduled(alarms, ClosedTab(alarms[i]).value).Some?
    ensures (forall j :: i < j < |alarms| ==> ClosedTab(alarms[j]) != ClosedTab(alarms[i]))
            ==> LastScheduled(alarms, ClosedTab(alarms[i]).value) == Some(alarms[i].scheduledTime)
  {
    var k := ClosedTab(alarms[i]).value;
    if i < |alarms| - 1 && ClosedTab(Last(alarms)) != Some(k) {
      var front := alarms[..|alarms| - 1];
      assert front[i] == alarms[i];
      LastScheduledFound(front, i);
      if forall j :: i < j < |alarms| ==> ClosedTab(alarms[j]) != ClosedTab(alarms[i]) {
        assert forall j :: i < j < |front| ==> front[j] == alarms[j];
      }
    }
  }

  /** An alarm made by `startTimer` restores a record for the same tab. */
  lemma RestoresOwnAlarm(tabId: int, scheduledTime: int)
    ensures ClosedTab(Alarm(AlarmName(tabId), scheduledTime)) == Some(tabId)
  {
    AlarmNameRoundTrip(tabId);
  }

  // ---------------------------------------------------------------------------
  // The registry
  // ---------------------------------------------------------------------------

  /** The module-level `activeTimers` object, keyed by tab id. */
  class TimerRegistry {
    var timers: map<int, TimerRecord>

    constructor ()
      ensures timers == map[]
    {
      timers := map[];
    }

    /** `startTimer`: the record for the tab is set (replacing any earlier one) before the
        alarm is created, so it stays even when creating the alarm throws. */
    method StartTimer(tabId: int, duration: int, now: int, createError: Option<string>)
      returns (call: AlarmCall, response: Response)
      modifies this
      ensures timers == old(timers)[tabId := NewRecord(now, duration)]
      ensures call == CreateAlarm(AlarmName(tabId), duration)
      ensures response == if createError.Some? then Failure(createError.value) else Success
    {
      timers := timers[tabId := NewRecord(now, duration)];
      call := CreateAlarm(AlarmName(tabId), duration);
      match createError {
        case None => response := Success;
        case Some(message) => response := Failure(message);
      }
    }

    /** `checkTimer`: active exactly when the tab has a record, with the seconds left. */
    method CheckTimer(tabId: int, now: int) returns (response: Response)
      ensures response.Active? <==> tabId in timers
      ensures response.Active? || response == Inactive
      ensures response.Active? ==> response.remainingTime == RemainingSeconds(timers[tabId].endTime, now)
    {
      if tabId in timers {
        response := Active(RemainingSeconds(timers[tabId].endTime, now));
      } else {
        response := Inactive;
      }
    }

    /** `stopTimer`: the alarm is cleared first; only when that reports no error is the
        record deleted, or its absence reported. */
    method StopTimer(tabId: int, clear: ClearResult) returns (call: AlarmCall, response: Response)
      modifies this
      ensures call == ClearAlarm(AlarmName(tabId))
      ensures clear.Cleared? && tabId in old(timers) ==> timers == old(timers) - {tabId} && response == Success
      ensures clear.Cleared? && tabId !in old(timers) ==> timers == old(timers) && response == Failure(NoTimerError)
      ensures clear.ClearLastError? ==> timers == old(timers) && response == Failure(clear.message)
      ensures clear.ClearThrew? ==> timers == old(timers)
      ensures clear.ClearThrew? ==> response == Failure(if clear.message == "" then UnknownError else clear.message)
    {
      call := ClearAlarm(AlarmName(tabId));
      match clear {
        case ClearThrew(message) =>
          response := Failure(if message == "" then UnknownError else message);
        case ClearLastError(message) =>
          response := Failure(message);
        case Cleared =>
          if tabId in timers {
            timers := timers - {tabId};
            response := Success;
          } else {
            response := Failure(NoTimerError);
          }
      }
    }

    /** `getAllTimers`: the whole registry. */
    method GetAllTimers() returns (response: Response)
      ensures response.AllTimers? && response.timers == timers
    {
      response := AllTimers(timers);
    }

    /** The runtime message listener: dispatch on `action`; an action it does not know gets
        no response and changes nothing. */
    method HandleMessage(request: Request, now: int, createError: Option<string>, clear: ClearResult)
      returns (call: Option<AlarmCall>, response: Option<Response>)
      modifies this
      ensures request.action == "startTimer" ==>
                timers == old(timers)[request.tabId := NewRecord(now, request.duration)]
                && call == Some(CreateAlarm(AlarmName(request.tabId), request.duration))
                && response == Some(if createError.Some? then Failure(createError.value) else Success)
      ensures request.action == "checkTimer" ==>
                timers == old(timers) && call == None
                && response == Some(if request.tabId in timers
                                    then Active(RemainingSeconds(timers[request.tabId].endTime, now))
                                    else Inactive)
      ensures request.action == "stopTimer" ==>
                call == Some(ClearAlarm(AlarmName(request.tabId)))
                && (clear.Cleared? ==> timers == old(timers) - {request.tabId})
                && (!clear.Cleared? ==> timers == old(timers))
                && (clear.Cleared? ==> response == Some(if request.tabId in old(timers) then Success else Failure(NoTimerError)))
                && (clear.ClearLastError? ==> response == Some(Failure(clear.message)))
                && (clear.ClearThrew? ==>
                      response == Some(Failure(if clear.message == "" then UnknownError else clear.message)))
      ensures request.action == "getAllTimers" ==>
                timers == old(timers) && call == None && response == Some(AllTimers(timers))
      ensures request.action !in {"startTimer", "checkTimer", "stopTimer", "getAllTimers"} ==>
                timers == old(timers) && call == None && response == None
    {
      if request.action == "startTimer" {
        var c, r := StartTimer(request.tabId, request.duration, now, createError);
        call, response := Some(c), Some(r);
      } else if request.action == "checkTimer" {
        var r := CheckTimer(request.tabId, now);
        call, response := None, Some(r);
      } else if request.action == "stopTimer" {
        var c, r := StopTimer(request.tabId, clear);
        call, response := Some(c), Some(r);
      } else if request.action == "getAllTimers" {
        var r := GetAllTimers();
        call, response := None, Some(r);
      } else {
        call, response := None, None;
      }
    }

    /** The tab-removed listener: a tracked tab loses its record and its alarm is cleared;
        an untracked tab changes nothing. */
    method OnTabRemoved(tabId: int) returns (call: Option<AlarmCall>)
      modifies this
      ensures tabId in old(timers) ==> timers == old(timers) - {tabId} && call == Some(ClearAlarm(AlarmName(tabId)))
      ensures tabId !in old(timers) ==> timers == old(timers) && call == None
    {
      if tabId in timers {
        call := Some(ClearAlarm(AlarmName(tabId)));
        timers := timers - {tabId};
      } else {
        call := None;
      }
    }

    /** The alarm listener: a close alarm deletes its tab's record first, whatever then
        happens when the tab is looked up (`tabFound`) and removed (`removeOk`). */
    method OnAlarm(name: string, tabFound: bool, removeOk: bool) returns (outcome: AlarmOutcome)
      modifies this
      ensures !StartsWith(name, AlarmPrefix) ==> timers == old(timers) && outcome == NotCloseAlarm
      ensures StartsWith(name, AlarmPrefix) && AlarmTabId(name).None? ==>
                timers == old(timers) && outcome == UnreadableTabId
      ensures StartsWith(name, AlarmPrefix) && AlarmTabId(name).Some? ==>
                var tabId := AlarmTabId(name).value;
                timers == old(timers) - {tabId}
                && outcome == if !tabFound then TabNotFound(tabId)
                              else if removeOk then TabRemoved(tabId)
                              else RemoveFailed(tabId)
    {
      if !StartsWith(name, AlarmPrefix) {
        return NotCloseAlarm;
      }
      match AlarmTabId(name) {
        case None =>
          outcome := UnreadableTabId;
        case Some(tabId) =>
          if tabId in timers {
            timers := timers - {tabId};
          }
          if !tabFound {
            outcome := TabNotFound(tabId);
          } else if removeOk {
            outcome := TabRemoved(tabId);
          } else {
            outcome := RemoveFailed(tabId);
          }
      }
    }

    /** `initializeTimers`: each close alarm listed by the host (re)sets its tab's record,
        later alarms for the same tab overriding earlier ones; other alarms and other tabs
        are left alone. */
    method InitializeTimers(alarms: seq<Alarm>, now: int)
      modifies this
      ensures forall tabId :: LastScheduled(alarms, tabId).Some? ==>
                tabId in timers && timers[tabId] == RestoredRecord(LastScheduled(alarms, tabId).value, now)
      ensures forall tabId :: LastScheduled(alarms, tabId).None? ==>
                (tabId in timers <==> tabId in old(timers))
                && (tabId in timers ==> timers[tabId] == old(timers)[tabId])
    {
      for i := 0 to |alarms|
        invariant forall tabId :: LastScheduled(alarms[..i], tabId).Some? ==>
                    tabId in timers && timers[tabId] == RestoredRecord(LastScheduled(alarms[..i], tabId).value, now)
        invariant forall tabId :: LastScheduled(alarms[..i], tabId).None? ==>
                    (tabId in timers <==> tabId in old(timers))
                    && (tabId in timers ==> timers[tabId] == old(timers)[tabId])
      {
        assert alarms[..i + 1][..i] == alarms[..i];
        var alarm := alarms[i];
        if StartsWith(alarm.name, AlarmPrefix) {
          match AlarmTabId(alarm.name) {
            case None =>
            case Some(tabId) =>
              timers := timers[tabId := RestoredRecord(alarm.scheduledTime, now)];
          }
        }
      }
      assert alarms[..|alarms|] == alarms;
    }
  }
}
