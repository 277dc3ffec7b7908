/** The outcome of sequences of events on the background registry, including the commands a
    notification click sends to it. */
module Scenarios {
  import opened Js
  import opened Background
  import NotificationManager

  /** Two stops in a row: the first removes the record, the second finds none. */
  method StopTwice(registry: TimerRegistry, tabId: int) returns (first: Response, second: Response)
    requires tabId in registry.timers
    modifies registry
    ensures first == Success && second == Failure(NoTimerError)
    ensures registry.timers == old(registry.timers) - {tabId}
  {
    var _, r1 := registry.StopTimer(tabId, Cleared);
    var _, r2 := registry.StopTimer(tabId, Cleared);
    first, second := r1, r2;
  }

  /** A timer checked at the instant it was started reports its whole duration. */
  method StartThenCheck(registry: TimerRegistry, tabId: int, duration: nat, now: int) returns (response: Response)
    modifies registry
    ensures response == Active(duration)
    ensures registry.timers == old(registry.timers)[tabId := NewRecord(now, duration)]
  {
    var _, _ := registry.StartTimer(tabId, duration, now, None);
    response := registry.CheckTimer(tabId, now);
    RemainingAtStart(now, duration);
  }

  /** A start, then the tab closed by hand: the registry is as before for every other tab. */
  method StartThenTabClosed(registry: TimerRegistry, tabId: int, duration: nat, now: int)
    returns (call: Option<AlarmCall>)
    modifies registry
    ensures call == Some(ClearAlarm(AlarmName(tabId)))
    ensures registry.timers == old(registry.timers) - {tabId}
  {
    var _, _ := registry.StartTimer(tabId, duration, now, None);
    call := registry.OnTabRemoved(tabId);
  }

  /** A start, then its own alarm firing: the alarm names the started tab, whose record
      is gone whatever happens to the tab. */
  method StartThenAlarm(registry: TimerRegistry, tabId: int, duration: nat, now: int, tabFound: bool, removeOk: bool)
    returns (outcome: AlarmOutcome)
    modifies registry
    ensures outcome == if !tabFound then TabNotFound(tabId) else if removeOk then TabRemoved(tabId) else RemoveFailed(tabId)
    ensures registry.timers == old(registry.timers) - {tabId}
  {
    var _, _ := registry.StartTimer(tabId, duration, now, None);
    AlarmNameRoundTrip(tabId);
    outcome := registry.OnAlarm(AlarmName(tabId), tabFound, removeOk);
  }

  /** Button 0 on a "warning" notification asks to extend its tab's timer, but the
      background worker has no `extendTimer` action: no response comes and nothing changes. */
  method ExtendFromNotification(registry: TimerRegistry, tabId: nat, now: int, clear: ClearResult)
    returns (response: Option<Response>)
    modifies registry
    ensures response == None
    ensures registry.timers == old(registry.timers)
  {
    var id := NotificationManager.NotificationPrefix + "warning-" + NatToString(tabId);
    NotificationManager.WarningIdClicks(tabId);
    var click := NotificationManager.OnButtonClicked(id, 0);
    assert click.command == Some(NotificationManager.ExtendTimer(Num(tabId), NotificationManager.ExtendSeconds));
    var _, r := registry.HandleMessage(Request("extendTimer", tabId, 0), now, None, clear);
    response := r;
  }

  /** Button 1 on a notification with a default id sends a stop for the creation time
      instead of the tab: unless some tab has that number, the tab's timer keeps running
      and the worker answers that no timer was found. */
  method CancelFromDefaultNotification(registry: TimerRegistry, tabId: nat, now: nat)
    returns (response: Option<Response>)
    requires now !in registry.timers
    modifies registry
    ensures response == Some(Failure(NoTimerError))
    ensures registry.timers == old(registry.timers)
  {
    var id := NotificationManager.DefaultId(tabId, now);
    NotificationManager.DefaultIdClicks(tabId, now);
    var click := NotificationManager.OnButtonClicked(id, 1);
    assert click.command == Some(NotificationManager.StopTimer(Num(now)));
    var _, r := registry.HandleMessage(Request("stopTimer", now, 0), now, None, Cleared);
    response := r;
  }
}
