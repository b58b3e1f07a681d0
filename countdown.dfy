/** The recurring-task countdown shared by two screens: the seven-day
    counter screen and the one-day notifications screen, which adds a task
    name and an explicitly scheduled reminder. Both persist one record
    under the same storage key. */
module Countdown {
  import opened JsValues

  /** `1000 * 3600 * 24 * 7`: the counter screen's cycle, in milliseconds. */
  const SevenDaysMs: int := 1000 * 3600 * 24 * 7
  /** `1000 * 60 * 60 * 24`: the notifications screen's cycle. */
  const OneDayMs: int := 1000 * 60 * 60 * 24

  /** What tells the two screens apart: the cycle length, and whether the
      screen has a task-name input and stores `taskName`. */
  datatype ScreenConfig = ScreenConfig(frequency: int, tracksTaskName: bool)

  /** A cycle of whole seconds, so that the scheduler's trigger, given
      in seconds, is exactly one cycle. */
  predicate WholeSeconds(config: ScreenConfig) {
    config.frequency % 1000 == 0
  }

  const CounterConfig: ScreenConfig := ScreenConfig(SevenDaysMs, false)
  const NotificationsConfig: ScreenConfig := ScreenConfig(OneDayMs, true)

  /** The stored record, newest completion first. */
  datatype PersistedCountdownState = PersistedCountdownState(
    currentNotificationId: Option<string>,
    completedAtTimestamps: seq<int>,
    taskName: Option<string>)

  /** What the screen shows: overdue or not, and how far `now` is from the
      due time, as a magnitude in milliseconds. */
  datatype CountdownStatus = CountdownStatus(isOverdue: bool, distance: nat)

  /** The `{ start, end }` handed to `intervalToDuration`. */
  datatype Interval = Interval(start: int, end: int)

  /** When a notification fires: after a number of seconds, or at a
      chosen instant (epoch milliseconds). */
  datatype Trigger = AfterSeconds(seconds: int) | AtTime(timestamp: int)

  /** What `handleSetReminder` did. */
  datatype ReminderOutcome =
    | TaskMissing
    | PermissionDenied
    | ReminderSet(at: Trigger, body: string)

  // ---------------------------------------------------------------------
  // The tick

  /** `countdownState?.completedAtTimestamps[0]`: undefined without a
      record or with an empty history. */
  function LastCompleted(state: Option<PersistedCountdownState>): (last: Option<int>)
    ensures last.Some? <==> state.Some? && state.value.completedAtTimestamps != []
    ensures last.Some? ==> last.value == state.value.completedAtTimestamps[0]
  {
    if state.Some? && state.value.completedAtTimestamps != [] then
      Some(state.value.completedAtTimestamps[0])
    else
      None
  }

  /** The due timestamp of the current cycle: one frequency after a truthy
      last completion; otherwise the task is due right now. */
  function DueTimestamp(last: Option<int>, now: int, frequency: int): (due: int)
    ensures TruthyNumber(last) ==> due - last.value == frequency
    ensures !TruthyNumber(last) ==> due == now
  {
    if TruthyNumber(last) then last.value + frequency else now
  }

  /** The interval measured to the due time: always ordered, so its length
      is the distance between `due` and `now` whichever comes first. */
  function DistanceInterval(due: int, now: int): (iv: Interval)
    ensures iv.start <= iv.end
    ensures iv.end - iv.start == Abs(now - due)
    ensures (iv.start == due && iv.end == now) || (iv.start == now && iv.end == due)
    ensures iv.start == due <==> due < now || due == now
  {
    var isOverdue := due < now;
    if isOverdue then Interval(due, now) else Interval(now, due)
  }

  /** The body of the one-second interval, read with one clock reading.
      With a truthy last completion the task is overdue exactly when the
      cycle has run out strictly before `now`; without one the task is due
      at `now`, so it is neither overdue nor any distance away. */
  function TickStatus(last: Option<int>, now: int, frequency: int): (st: CountdownStatus)
    ensures TruthyNumber(last) ==>
      && (st.isOverdue <==> last.value + frequency < now)
      && st.distance == Abs(now - (last.value + frequency))
    ensures !TruthyNumber(last) ==> !st.isOverdue && st.distance == 0
  {
    var due := DueTimestamp(last, now, frequency);
    var iv := DistanceInterval(due, now);
    CountdownStatus(due < now, iv.end - iv.start)
  }

  /** Around the due time: one millisecond before it the task is due in 1 ms,
      at it the task is due now, one millisecond after it overdue by 1 ms. */
  lemma OverdueBoundary(last: int, frequency: int)
    requires last != 0
    ensures TickStatus(Some(last), last + frequency - 1, frequency) == CountdownStatus(false, 1)
    ensures TickStatus(Some(last), last + frequency, frequency) == CountdownStatus(false, 0)
    ensures TickStatus(Some(last), last + frequency + 1, frequency) == CountdownStatus(true, 1)
  {
  }

  /** A task completed at `t = 0` is never seen as completed: a zero stamp
      is falsy, so the tick treats the history as empty. */
  lemma ZeroStampIsNoHistory(now: int, frequency: int)
    ensures TickStatus(Some(0), now, frequency) == TickStatus(None, now, frequency)
  {
  }

  // ---------------------------------------------------------------------
  // Completion

  /** `countdownState?.completedAtTimestamps ?? []`. */
  function History(state: Option<PersistedCountdownState>): (h: seq<int>)
    ensures state.None? ==> h == []
    ensures state.Some? ==> h == state.value.completedAtTimestamps
    ensures LastCompleted(state) == if h == [] then None else Some(h[0])
  {
    if state.Some? then state.value.completedAtTimestamps else []
  }

  /** The record a completion writes: `now` in front of the old history,
      the id of the notification just scheduled (if any) and, on the
      notifications screen, `task || countdownState?.taskName`. The counter
      screen writes no `taskName`, so a name stored by the other screen is
      dropped. */
  function CompletionRecord(
    prior: Option<PersistedCountdownState>, now: int, notificationId: Option<string>,
    task: string, config: ScreenConfig): (r: PersistedCountdownState)
    ensures |r.completedAtTimestamps| == |History(prior)| + 1
    ensures r.completedAtTimestamps[0] == now && r.completedAtTimestamps[1..] == History(prior)
    ensures r.currentNotificationId == notificationId
    ensures !config.tracksTaskName ==> r.taskName == None
    ensures config.tracksTaskName && task != "" ==> r.taskName == Some(task)
    ensures config.tracksTaskName && task == "" ==>
      r.taskName == (if prior.Some? then prior.value.taskName else None)
  {
    var taskName :=
      if !config.tracksTaskName then None
      else if task != "" then Some(task)
      else if prior.Some? then prior.value.taskName
      else None;
    PersistedCountdownState(notificationId, [now] + History(prior), taskName)
  }

  /** Right after a completion at a non-zero `now` the next cycle starts:
      the tick sees `now` as the last completion, the task is not overdue
      and is exactly one frequency away. */
  lemma CompletionRestartsCycle(
    prior: Option<PersistedCountdownState>, now: int, notificationId: Option<string>,
    task: string, config: ScreenConfig)
    requires now != 0 && config.frequency >= 0
    ensures var r := CompletionRecord(prior, now, notificationId, task, config);
      && LastCompleted(Some(r)) == Some(now)
      && TickStatus(LastCompleted(Some(r)), now, config.frequency) == CountdownStatus(false, config.frequency)
  {
  }

  /** The completion history only grows: after any run of completions the
      original history is still the suffix, behind the new stamps newest
      first. */
  lemma {:induction false} CompletionsKeepHistory(
    prior: Option<PersistedCountdownState>, stamps: seq<int>, config: ScreenConfig)
    ensures History(Some(Completions(prior, stamps, config))) == Reverse(stamps) + History(prior)
    decreases |stamps|
  {
    if stamps != [] {
      var last := |stamps| - 1;
      CompletionsKeepHistory(prior, stamps[..last], config);
      assert Reverse(stamps) == [stamps[last]] + Reverse(stamps[..last]);
    }
  }

  /** Completions at the given times, in order, each with no notification
      id and no task text; the history part is what matters here. */
  function Completions(prior: Option<PersistedCountdownState>, stamps: seq<int>, config: ScreenConfig): PersistedCountdownState
    decreases |stamps|
  {
    if stamps == [] then
      (if prior.Some? then prior.value else PersistedCountdownState(None, [], None))
    else
      var before := Completions(prior, stamps[..|stamps| - 1], config);
      CompletionRecord(Some(before), stamps[|stamps| - 1], None, "", config)
  }

  function Reverse(s: seq<int>): (r: seq<int>)
    ensures |r| == |s|
    ensures forall i :: 0 <= i < |s| ==> r[i] == s[|s| - 1 - i]
  {
    if s == [] then [] else [s[|s| - 1]] + Reverse(s[..|s| - 1])
  }

  /** The notification record after `handleSetReminder` succeeded:
      `{ ...countdownState, taskName: task }`. */
  function WithTaskName(prior: Option<PersistedCountdownState>, task: string): (r: PersistedCountdownState)
    ensures r.taskName == Some(task)
    ensures prior.Some? ==>
      && r.completedAtTimestamps == prior.value.completedAtTimestamps
      && r.currentNotificationId == prior.value.currentNotificationId
    ensures prior.None? ==> r.completedAtTimestamps == [] && r.currentNotificationId == None
  {
    if prior.Some? then prior.value.(taskName := Some(task))
    else PersistedCountdownState(None, [], Some(task))
  }

  /** Setting a reminder never moves the countdown: the tick reads the
      same last completion before and after. */
  lemma ReminderKeepsCountdown(prior: Option<PersistedCountdownState>, task: string, now: int, frequency: int)
    ensures TickStatus(LastCompleted(Some(WithTaskName(prior, task))), now, frequency)
         == TickStatus(LastCompleted(prior), now, frequency)
  {
  }

  // ---------------------------------------------------------------------
  // Screen state

  /** The screen component's state: the loading flag, the record read from
      storage (`None` until read, or when storage holds none), the shown
      status and the task-name input. */
  class CountdownScreen {
    const config: ScreenConfig
    var loading: bool
    var countdownState: Option<PersistedCountdownState>
    var status: CountdownStatus
    var task: string

    /** The cycle is whole seconds, a screen without the task-name input
        never holds task text, and a screen past its loading indicator has
        a stored record (only a tick that reads one clears `loading`). */
    ghost predicate Valid()
      reads this
    {
      && WholeSeconds(config)
      && (!config.tracksTaskName ==> task == "")
      && (!loading ==> countdownState.Some?)
    }

    constructor (config: ScreenConfig)
      requires WholeSeconds(config)
      ensures Valid()
      ensures this.config == config && loading && countdownState == None
      ensures status == CountdownStatus(false, 0) && task == ""
    {
      this.config := config;
      loading := true;
      countdownState := None;
      status := CountdownStatus(false, 0);
      task := "";
    }

    /** `init`: the value read from storage at mount. */
    method Init(stored: Option<PersistedCountdownState>)
      requires Valid() && loading
      modifies this
      ensures Valid()
      ensures countdownState == stored
      ensures loading == old(loading) && status == old(status) && task == old(task)
    {
      countdownState := stored;
    }

    /** `onChangeText={setTask}`: only the notifications screen has the
        input, and it is only shown once loading is over. */
    method SetTask(text: string)
      requires Valid() && config.tracksTaskName && !loading
      modifies this
      ensures Valid()
      ensures task == text
      ensures loading == old(loading) && status == old(status) && countdownState == old(countdownState)
    {
      task := text;
    }

    /** One run of the interval body. `loading` is cleared on a tick that
        sees a truthy last completion and is never set again; in
        particular, without a stored completion the screen stays on its
        loading indicator. */
    method Tick(now: int)
      requires Valid()
      modifies this
      ensures Valid()
      ensures status == TickStatus(LastCompleted(countdownState), now, config.frequency)
      ensures loading == (old(loading) && !TruthyNumber(LastCompleted(countdownState)))
      ensures !old(loading) ==> !loading
      ensures countdownState == old(countdownState) && task == old(task)
    {
      var last := LastCompleted(countdownState);
      var timestamp := DueTimestamp(last, now, config.frequency);
      if TruthyNumber(last) {
        loading := false;
      }
      var isOverdue := timestamp < now;
      var interval := DistanceInterval(timestamp, now);
      status := CountdownStatus(isOverdue, interval.end - interval.start);
    }

    /** `scheduleNotification` on the counter screen, `handleCompletion` on
        the notifications screen. `permission` is what the permission
        request returned and `scheduledId` the id the scheduler hands back
        when asked. The method reports the notification it scheduled, the
        handle it cancelled, whether it showed the permission alert and the
        record it saved. */
    method HandleCompletion(now: int, permission: string, scheduledId: string)
      returns (scheduled: Option<Trigger>, cancelled: Option<string>, alerted: bool,
               saved: PersistedCountdownState)
      requires Valid() && !loading
      modifies this
      ensures Valid()
      ensures permission == "granted" ==>
        scheduled == Some(AfterSeconds(config.frequency / 1000)) && !alerted
      ensures permission == "granted" ==> scheduled.value.seconds * 1000 == config.frequency
      ensures permission != "granted" ==> scheduled == None && alerted
      ensures old(countdownState).Some? && TruthyString(old(countdownState).value.currentNotificationId) ==>
        cancelled == old(countdownState).value.currentNotificationId
      ensures !(old(countdownState).Some? && TruthyString(old(countdownState).value.currentNotificationId)) ==>
        cancelled == None
      ensures saved == CompletionRecord(old(countdownState), now,
        if permission == "granted" then Some(scheduledId) else None, old(task), config)
      ensures !config.tracksTaskName ==> saved.taskName == None && old(task) == ""
      ensures countdownState == Some(saved)
      ensures task == ""
      ensures loading == old(loading) && status == old(status)
    {
      var notificationId: Option<string> := None;
      scheduled := None;
      alerted := false;
      if permission == "granted" {
        scheduled := Some(AfterSeconds(config.frequency / 1000));
        notificationId := Some(scheduledId);
      } else {
        alerted := true;
      }

      cancelled := None;
      if countdownState.Some? && TruthyString(countdownState.value.currentNotificationId) {
        cancelled := countdownState.value.currentNotificationId;
      }

      saved := CompletionRecord(countdownState, now, notificationId, task, config);
      countdownState := Some(saved);
      task := "";
    }

    /** `handleSetReminder` on the notifications screen: a blank task or a
        refused permission returns early with nothing changed; otherwise a
        reminder with the task as its body is scheduled for `reminderTime`,
        the untrimmed task becomes the stored `taskName`, and the input is
        cleared. */
    method HandleSetReminder(reminderTime: int, permission: string)
      returns (outcome: ReminderOutcome, saved: Option<PersistedCountdownState>)
      requires Valid() && config.tracksTaskName && !loading
      modifies this
      ensures Valid()
      ensures Trim(old(task)) == "" ==>
        && outcome == TaskMissing && saved == None
        && task == old(task) && countdownState == old(countdownState)
      ensures Trim(old(task)) != "" && permission != "granted" ==>
        && outcome == PermissionDenied && saved == None
        && task == old(task) && countdownState == old(countdownState)
      ensures Trim(old(task)) != "" && permission == "granted" ==>
        && old(countdownState).Some?
        && outcome == ReminderSet(AtTime(reminderTime), old(task))
        && countdownState == Some(WithTaskName(old(countdownState), old(task)))
        && saved == countdownState
        && task == ""
      ensures loading == old(loading) && status == old(status)
    {
      if Trim(task) == "" {
        return TaskMissing, None;
      }
      if permission != "granted" {
        return PermissionDenied, None;
      }
      outcome := ReminderSet(AtTime(reminderTime), task);
      var updated := WithTaskName(countdownState, task);
      countdownState := Some(updated);
      saved := Some(updated);
      task := "";
    }
  }

  /** The notification triggers the two screens schedule after a
      completion: one week and one day, in whole seconds. */
  lemma TriggerSeconds()
    ensures WholeSeconds(CounterConfig) && WholeSeconds(NotificationsConfig)
    ensures CounterConfig.frequency / 1000 == 604800
    ensures NotificationsConfig.frequency / 1000 == 86400
    ensures (CounterConfig.frequency / 1000) * 1000 == CounterConfig.frequency
    ensures (NotificationsConfig.frequency / 1000) * 1000 == NotificationsConfig.frequency
  {
  }
}
