/**
 * The stretch reminder of dehn-polizei: after `stretchInterval` minutes of work one
 * initial notification, then a reminder whenever `reminderInterval` minutes have
 * passed since the last notification. Minutes since the timer was started are passed
 * in; the clock is not modelled.
 */
module DehnPolizei {
  import Arith
  import opened Text

  datatype NotificationAction = NoAction | Initial(message: string) | Reminder(message: string)

  function InitialMessage(stretchInterval: nat): string {
    "You have been working for " + NatToString(stretchInterval) + " minutes" + ".\nTime for a stretch\\!\\!"
  }

  function ReminderMessage(overdueMinutes: nat): string {
    "You are " + NatToString(overdueMinutes) + " minutes overdue" + "! Go stretch!"
  }

  /**
   * `current - last_notification_minutes` is a `usize` subtraction that the code does
   * once the stretch interval has been reached, so from then on the minutes passed in
   * must not lie before the last notification.
   */
  predicate CanPoll(stretchInterval: nat, last: nat, cur: nat) {
    cur >= stretchInterval ==> cur >= last
  }

  /** The action `calculate_notification_at_time` returns. */
  function NotificationAt(stretchInterval: nat, reminderInterval: nat, last: nat, cur: nat): NotificationAction
    requires CanPoll(stretchInterval, last, cur)
  {
    if cur < stretchInterval then NoAction
    else if last == 0 then Initial(InitialMessage(stretchInterval))
    else if cur - last >= reminderInterval then Reminder(ReminderMessage(cur - stretchInterval))
    else NoAction
  }

  /** `last_notification_minutes` after that call: the call minute whenever something was sent. */
  function LastAfter(stretchInterval: nat, reminderInterval: nat, last: nat, cur: nat): nat
    requires CanPoll(stretchInterval, last, cur)
  {
    if NotificationAt(stretchInterval, reminderInterval, last, cur) == NoAction then last else cur
  }

  /** The cases of one call, each with the condition that selects it. */
  lemma {:induction false} NotificationAtCases(stretchInterval: nat, reminderInterval: nat, last: nat, cur: nat)
    requires CanPoll(stretchInterval, last, cur)
    ensures cur < stretchInterval ==>
      NotificationAt(stretchInterval, reminderInterval, last, cur) == NoAction
      && LastAfter(stretchInterval, reminderInterval, last, cur) == last
    ensures NotificationAt(stretchInterval, reminderInterval, last, cur).Initial? <==> cur >= stretchInterval && last == 0
    ensures NotificationAt(stretchInterval, reminderInterval, last, cur).Reminder? <==>
      cur >= stretchInterval && last != 0 && cur - last >= reminderInterval
    ensures NotificationAt(stretchInterval, reminderInterval, last, cur).Reminder? ==>
      NotificationAt(stretchInterval, reminderInterval, last, cur).message == ReminderMessage(cur - stretchInterval)
    ensures LastAfter(stretchInterval, reminderInterval, last, cur) ==
      if NotificationAt(stretchInterval, reminderInterval, last, cur) == NoAction then last else cur
  {
  }

  /** The initial message names the stretch interval in minutes. */
  lemma {:induction false} InitialMessageMentionsInterval(stretchInterval: nat)
    ensures Contains(InitialMessage(stretchInterval), NatToString(stretchInterval) + " minutes")
  {
    ContainsAdjacent("You have been working for ", NatToString(stretchInterval), " minutes", ".\nTime for a stretch\\!\\!");
  }

  /** A reminder names how many minutes past the stretch interval it is sent. */
  lemma {:induction false} ReminderMessageMentionsOverdue(overdueMinutes: nat)
    ensures Contains(ReminderMessage(overdueMinutes), NatToString(overdueMinutes) + " minutes overdue")
  {
    ContainsAdjacent("You are ", NatToString(overdueMinutes), " minutes overdue", "! Go stretch!");
  }

  /** A daemon loop, with a fresh timer, that polls once at every minute `0 .. n - 1`. */
  function PollEveryMinute(stretchInterval: nat, reminderInterval: nat, n: nat): (r: (seq<NotificationAction>, nat))
    ensures |r.0| == n
    ensures r.1 == 0 || r.1 < n
  {
    if n == 0 then ([], 0)
    else
      var (actions, last) := PollEveryMinute(stretchInterval, reminderInterval, n - 1);
      (actions + [NotificationAt(stretchInterval, reminderInterval, last, n - 1)],
       LastAfter(stretchInterval, reminderInterval, last, n - 1))
  }

  /** What the every-minute loop sends at minute `m`. */
  function Scheduled(stretchInterval: nat, reminderInterval: nat, m: nat): NotificationAction
    requires reminderInterval > 0
  {
    if m < stretchInterval then NoAction
    else if m == stretchInterval then Initial(InitialMessage(stretchInterval))
    else if Arith.Remainder(m - stretchInterval, reminderInterval) == 0 then Reminder(ReminderMessage(m - stretchInterval))
    else NoAction
  }

  /** The last notification minute once minutes `0 .. n - 1` have been polled. */
  function ScheduledLast(stretchInterval: nat, reminderInterval: nat, n: nat): nat
    requires reminderInterval > 0
  {
    if n <= stretchInterval then 0 else (n - 1) - Arith.Remainder(n - 1 - stretchInterval, reminderInterval)
  }

  /** After the stretch interval the last notification minute trails by less than the reminder interval. */
  lemma {:induction false} ScheduledLastStep(stretchInterval: nat, reminderInterval: nat, m: nat)
    requires reminderInterval > 0 && m > stretchInterval
    ensures var last := ScheduledLast(stretchInterval, reminderInterval, m);
      && stretchInterval <= last < m
      && (m - last >= reminderInterval <==> Arith.Remainder(m - stretchInterval, reminderInterval) == 0)
      && ScheduledLast(stretchInterval, reminderInterval, m + 1) ==
         if Arith.Remainder(m - stretchInterval, reminderInterval) == 0 then m else last
  {
    var s, i := stretchInterval, reminderInterval;
    Arith.RemainderIsMod(m - 1 - s, i);
    Arith.RemainderIsMod(m - s, i);
    Arith.ModSmaller(m - 1 - s, i);
    Arith.ModSucc(m - 1 - s, i);
    assert m - 1 - s + 1 == m - s;
  }

  lemma {:induction false} ScheduleStep(stretchInterval: nat, reminderInterval: nat, m: nat)
    requires stretchInterval > 0 && reminderInterval > 0
    ensures CanPoll(stretchInterval, ScheduledLast(stretchInterval, reminderInterval, m), m)
    ensures NotificationAt(stretchInterval, reminderInterval, ScheduledLast(stretchInterval, reminderInterval, m), m)
      == Scheduled(stretchInterval, reminderInterval, m)
    ensures LastAfter(stretchInterval, reminderInterval, ScheduledLast(stretchInterval, reminderInterval, m), m)
      == ScheduledLast(stretchInterval, reminderInterval, m + 1)
  {
    if m > stretchInterval {
      ScheduledLastStep(stretchInterval, reminderInterval, m);
    }
  }

  /**
   * Polled every minute, the timer stays quiet until the stretch interval, notifies at
   * that minute, and then reminds exactly at every multiple of the reminder interval
   * after it.
   */
  lemma {:induction false} EveryMinuteSchedule(stretchInterval: nat, reminderInterval: nat, n: nat)
    requires stretchInterval > 0 && reminderInterval > 0
    ensures FollowsSchedule(stretchInterval, reminderInterval, PollEveryMinute(stretchInterval, reminderInterval, n).0)
    ensures PollEveryMinute(stretchInterval, reminderInterval, n).1 == ScheduledLast(stretchInterval, reminderInterval, n)
  {
    if n > 0 {
      var s, i := stretchInterval, reminderInterval;
      EveryMinuteSchedule(s, i, n - 1);
      var (actions, last) := PollEveryMinute(s, i, n - 1);
      ScheduleStep(s, i, n - 1);
      var action := NotificationAt(s, i, last, n - 1);
      assert PollEveryMinute(s, i, n).0 == actions + [action];
      ScheduleSnoc(s, i, actions, action);
    }
  }

  /** The actions of minutes `0 .. |actions| - 1` are the scheduled ones. */
  predicate FollowsSchedule(stretchInterval: nat, reminderInterval: nat, actions: seq<NotificationAction>)
    requires reminderInterval > 0
  {
    forall m :: 0 <= m < |actions| ==> actions[m] == Scheduled(stretchInterval, reminderInterval, m)
  }

  lemma {:induction false} ScheduleSnoc(stretchInterval: nat, reminderInterval: nat, actions: seq<NotificationAction>, action: NotificationAction)
    requires reminderInterval > 0
    requires FollowsSchedule(stretchInterval, reminderInterval, actions)
    requires action == Scheduled(stretchInterval, reminderInterval, |actions|)
    ensures FollowsSchedule(stretchInterval, reminderInterval, actions + [action])
  {
    var a := actions + [action];
    forall m | 0 <= m < |a| ensures a[m] == Scheduled(stretchInterval, reminderInterval, m) {
      if m < |actions| {
        assert a[m] == actions[m];
      }
    }
  }

  /** The stretch timer: the two intervals and the minute of the last notification. */
  class StretchTimer {
    var reminderInterval: nat
    var stretchInterval: nat
    var lastNotificationMinutes: nat

    constructor(interval: nat, reminderInterval: nat)
      ensures this.stretchInterval == interval && this.reminderInterval == reminderInterval
      ensures lastNotificationMinutes == 0
    {
      this.stretchInterval := interval;
      this.reminderInterval := reminderInterval;
      lastNotificationMinutes := 0;
    }

    method Reset()
      modifies this
      ensures lastNotificationMinutes == 0
      ensures stretchInterval == old(stretchInterval) && reminderInterval == old(reminderInterval)
    {
      lastNotificationMinutes := 0;
    }

    method CalculateNotificationAtTime(currentMinutes: nat) returns (action: NotificationAction)
      requires CanPoll(stretchInterval, lastNotificationMinutes, currentMinutes)
      modifies this
      ensures stretchInterval == old(stretchInterval) && reminderInterval == old(reminderInterval)
      ensures action == NotificationAt(stretchInterval, reminderInterval, old(lastNotificationMinutes), currentMinutes)
      ensures lastNotificationMinutes == LastAfter(stretchInterval, reminderInterval, old(lastNotificationMinutes), currentMinutes)
    {
      if currentMinutes < stretchInterval {
        return NoAction;
      }
      var minutesSinceLastNotification := currentMinutes - lastNotificationMinutes;
      if lastNotificationMinutes == 0 {
        lastNotificationMinutes := currentMinutes;
        return Initial(InitialMessage(stretchInterval));
      }
      if minutesSinceLastNotification >= reminderInterval {
        var overdueMinutes := currentMinutes - stretchInterval;
        lastNotificationMinutes := currentMinutes;
        return Reminder(ReminderMessage(overdueMinutes));
      }
      return NoAction;
    }
  }

  /** Nothing before the stretch interval, including the minute before it. */
  method NoNotificationWithinInterval() returns (at45: NotificationAction, at89: NotificationAction)
    ensures at45 == NoAction && at89 == NoAction
  {
    var timer := new StretchTimer(90, 10);
    at45 := timer.CalculateNotificationAtTime(45);
    at89 := timer.CalculateNotificationAtTime(89);
  }

  /** The initial notification is sent at or after the stretch interval and records the call minute. */
  method SendsInitialNotification(minutes: nat) returns (action: NotificationAction, recorded: nat)
    requires minutes >= 90
    ensures action == Initial(InitialMessage(90)) && recorded == minutes
  {
    var timer := new StretchTimer(90, 10);
    action := timer.CalculateNotificationAtTime(minutes);
    recorded := timer.lastNotificationMinutes;
  }

  /** After the initial notification at 90: quiet at 95, reminders at 100 and 110. */
  method SendsReminders() returns (at95: NotificationAction, at100: NotificationAction, at110: NotificationAction)
    ensures at95 == NoAction
    ensures at100 == Reminder(ReminderMessage(10)) && at110 == Reminder(ReminderMessage(20))
  {
    var timer := new StretchTimer(90, 10);
    var first := timer.CalculateNotificationAtTime(90);
    at95 := timer.CalculateNotificationAtTime(95);
    at100 := timer.CalculateNotificationAtTime(100);
    at110 := timer.CalculateNotificationAtTime(110);
  }

  /** A reset clears the last notification minute and keeps the intervals. */
  method ResetsAllValues() returns (last: nat, stretch: nat, reminder: nat)
    ensures last == 0 && stretch == 90 && reminder == 10
  {
    var timer := new StretchTimer(90, 10);
    timer.lastNotificationMinutes := 25;
    timer.Reset();
    last, stretch, reminder := timer.lastNotificationMinutes, timer.stretchInterval, timer.reminderInterval;
  }
}
