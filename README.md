# Nukesor's scripts, modelled in Dafny

The repository is a collection of small desktop helpers written in Rust:

- status-bar widgets: a todo summary, headphone battery, network info;
- two attention daemons: the stretch reminder `dehn-polizei` and the game-time watcher `polizei`;
- wrappers around pacman that keep a list of explicitly installed packages;
- a repository finder, a file-name cleaner, a duration humanizer, a staggered backup pruner;
- a screen blurrer for the lock screen;
- helpers that pick PipeWire audio sinks.

This project models the decision-making core of these tools. Every input the tools get from outside is a parameter in the model:

| What the tools read | What the model takes instead |
|---|---|
| the clock | minutes |
| command output | strings |
| the file system | an abstract tree or content strings |
| decoded JSON | datatypes |

The model then proves what the code promises about its inputs. The modules are:

- `Timer`: the shared phase timer. `TimerScenarios` holds the concrete runs its unit tests describe.
- `DehnPolizei`: the stretch timer.
- `GameWatch`, `Polizei`, `PolizeiLegacy`: the game-time daemon, current and older versions.
- `Rings`: the cyclic cursor used by the audio scripts.
- `Pipewire`: the `pw-dump` filter. `Sink`: sink selection.
- `StaggeredBackups` and `StaggeredBrackets`: backup retention and its date brackets.
- `CleanNames` and `CleanNamesLegacy`: the name cleaner, current and older versions.
- `PrintTodo`: the todo summary.
- `PackageList` and `Files`: package-list bookkeeping and its file helpers.
- `Humanizer`: the duration humanizer.
- `Blur`: pixelation, shared by `blur` and `blurlock`.
- `HeadphoneBattery`, `NetInfo` and `NetInfoLegacy`: the status-bar widgets.
- `FindRepos`: the repository finder.
- `Text`, `Sorting`, `Arith` and `Wrappers`: the Rust standard-library behaviour the models rely on.

Where Rust code updates state in place, the model is a method: a loop with invariants, or a class whose fields the methods change. Each such method is proved against a specification function, and the lemmas beside that function state the promised properties.

At minute 120 in the five-call scenario over `[Recurring(60, 30, R), OneTime(120, S)]`, the recurring phase and the stop phase are both due with the same effective time. `max_by_key` keeps the last maximum, so the stop phase S wins, as the test at src/timer.rs:232-261 expects. `TimerScenarios.MultipleAt120` proves this for the timer's state after the calls at 60 and 90, and `TimerScenarios.PrioritizesLaterPhases` proves it for a fresh timer called first at 120 (the test at src/timer.rs:284-297).

## Model

| member | source | states |
|---|---|---|
| Timer.OneTimePhase | src/timer.rs:34-41 | a one-time phase with the given trigger minute and action that has never fired |
| Timer.RecurringPhase | src/timer.rs:44-51 | a recurring phase with the given trigger minute, interval and action that has never fired |
| Timer.SortByTriggerOrders | src/timer.rs:67-75 | creation orders the phases by non-decreasing trigger minute, keeps exactly the same phases, and phases with equal trigger minutes keep their input order |
| Sorting.SortStable | src/timer.rs:69 | the stable sort keeps the relative order of all elements that compare equal |
| Timer.PhaseTimer.constructor | src/timer.rs:67-75 | the timer holds the phases sorted stably by trigger minute |
| Timer.PhaseTimer.Reset | src/timer.rs:78-83 | every phase's last action time becomes 0; the phases, their order and everything else are unchanged |
| Timer.ResetPhases | src/timer.rs:80-82 | same length, and each phase equals the old one with only its last action time set to 0 |
| Timer.LastOccurrenceBounds | src/timer.rs:133-136 | a recurring phase's effective time is at least its trigger minute, at most the current minute, and greater than the current minute minus the interval |
| Timer.LastOccurrenceFormula | src/timer.rs:133-136 | the effective time equals `trigger + ((cur - trigger) / interval) * interval` and lies on the phase's grid of occurrences |
| Timer.LastOccurrenceUnique | src/timer.rs:133-136 | any occurrence `trigger + k * interval` in the window `(cur - interval, cur]` is the effective time |
| Timer.EffectiveCases | src/timer.rs:100-104 | a phase that starts later is no candidate; a reached one-time phase is a candidate iff its last action is before its trigger minute; a reached recurring phase is a candidate iff its last action is before its latest occurrence; a candidate's effective time is reached and not before its trigger |
| Timer.MaxCandidate | src/timer.rs:107-110 | the index returned is a valid phase index |
| Timer.MaxCandidateIsLastMaximum | src/timer.rs:107-110 | no candidate means no result; otherwise the chosen phase is a candidate whose effective time is maximal, and every later candidate has a strictly smaller effective time (`max_by_key` keeps the last maximum) |
| Timer.Winner | src/timer.rs:96-110 | the winner, if any, is a valid phase index |
| Timer.WinnerIsLastMaximum | src/timer.rs:96-110 | there is no winner iff no phase is a candidate; a winner is a candidate with the maximal effective time and ties go to the later phase |
| Timer.StepPhases | src/timer.rs:111 | a call keeps the number of phases |
| Timer.StepChangesOnlyWinner | src/timer.rs:111 | only the winner changes, and only its last action time, which becomes the current minute; without a winner nothing changes |
| Timer.PhaseTimer.CalculateActionAtTime | src/timer.rs:92-116 | returns the winner's action (or none) and leaves the phases as the step function says |
| Timer.Winners | src/timer.rs:92-116 | one winner per call in a run of successive calls |
| Timer.NothingBeforeFirstTrigger | src/timer.rs:100 | when every phase starts later than the current minute the call returns nothing and changes nothing |
| Timer.SpentOneTimeNeverWins | src/timer.rs:124-131 | a one-time phase whose last action is at or after its trigger minute never wins any later call |
| Timer.OneTimeFiresAtMostOnce | src/timer.rs:124-131 | in any run of calls without a reset, a one-time phase wins at most once |
| Timer.ResetRearmsOneTime | src/timer.rs:78-83 | after a reset, a one-time phase with a positive trigger minute is a candidate again once reached |
| Timer.OneTimeAtZeroNeverFires | src/timer.rs:126 | a one-time phase at minute 0 is never a candidate, since its last action time 0 is not below 0 |
| Timer.RecurringDueOccurrence | src/timer.rs:132-144 | a recurring phase whose occurrence k is the latest due one and was not yet recorded is a candidate with that occurrence as effective time |
| TimerScenarios.WinnerOfOne | src/timer.rs:107-110 | with a single phase, it wins iff it is a candidate |
| TimerScenarios.WinnerOfTwo | src/timer.rs:107-110 | with two phases, the second wins when its effective time is at least the first's |
| TimerScenarios.CreatesSortedPhases | src/timer.rs:167-179 | phases created as one-time 90 and recurring 30 are stored with trigger minutes 30, 90 |
| TimerScenarios.OneTimeSteps | src/timer.rs:181-201 | a one-time phase at 90 gives nothing at 45, fires at 90 and records it, and gives nothing at 95 |
| TimerScenarios.OneTimeScenario | src/timer.rs:190-201 | the calls at 45, 90 and 95 return nothing, Initial, nothing |
| TimerScenarios.RecurringSteps | src/timer.rs:203-219 | a recurring phase (90, every 10) fires at 90, not at 95, again at 100 |
| TimerScenarios.RecurringScenario | src/timer.rs:203-219 | the three calls return Reminder, nothing, Reminder |
| TimerScenarios.MultipleAt60 | src/timer.rs:240-242 | the reminder fires at 60 |
| TimerScenarios.MultipleAt90 | src/timer.rs:244-246 | the reminder fires again at 90 |
| TimerScenarios.MultipleAt120 | src/timer.rs:248-250 | at 120 the reminder and the stop are both due with effective time 120; the stop, later in the list, wins |
| TimerScenarios.MultipleAt125 | src/timer.rs:252-256 | the reminder's unrecorded 120 occurrence fires at 125 |
| TimerScenarios.MultipleAt150 | src/timer.rs:258-260 | the reminder fires at 150 |
| TimerScenarios.MultiplePhases | src/timer.rs:232-261 | the calls at 60, 90, 120, 125 and 150 return Reminder, Reminder, Stop, Reminder, Reminder |
| TimerScenarios.ResetScenario | src/timer.rs:263-282 | a fired one-time phase fires again at the same minute after a reset |
| TimerScenarios.IndependentAt60 | src/timer.rs:307-309 | at 60 only the first recurring phase is reached and it fires |
| TimerScenarios.IndependentAt61 | src/timer.rs:311-314 | at 61 the second phase fires, though the first fired one minute earlier |
| TimerScenarios.IndependentPhases | src/timer.rs:299-315 | the calls at 60 and 61 return Reminder, then Stop |
| TimerScenarios.FreshAt120 | src/timer.rs:284-297 | on a fresh timer over a reminder every 30 minutes from 60 and a one-time stop at 120, both are due at 120 and the stop wins |
| TimerScenarios.PrioritizesLaterPhases | src/timer.rs:284-297 | a fresh timer over `[Recurring(60, 30, Reminder), OneTime(120, Stop)]`, first called at 120, returns Stop |
| TimerScenarios.TieAt90 | src/timer.rs:107-110 | two one-time phases at 60 tie at 90 and the later one wins |
| TimerScenarios.TieGoesToLaterPhase | src/timer.rs:107-110 | a fresh timer over two one-time phases at 60, called at 90, returns the later phase's action, since `max_by_key` keeps the last maximum |
| DehnPolizei.StretchTimer.constructor | src/bin/dehn-polizei.rs:33-40 | the timer stores both intervals and starts with last notification minute 0 |
| DehnPolizei.StretchTimer.Reset | src/bin/dehn-polizei.rs:42-45 | the last notification minute becomes 0 and both intervals are unchanged |
| DehnPolizei.StretchTimer.CalculateNotificationAtTime | src/bin/dehn-polizei.rs:52-80 | returns the action of one call and records the call minute exactly when something is sent; the intervals do not change |
| DehnPolizei.NotificationAtCases | src/bin/dehn-polizei.rs:54-79 | before the stretch interval nothing is sent and nothing changes; Initial iff the interval is reached and nothing was sent yet; Reminder iff something was sent and at least the reminder interval has passed, with the overdue minutes counted from the stretch interval |
| DehnPolizei.InitialMessageMentionsInterval | src/bin/dehn-polizei.rs:63-66 | the initial message names the stretch interval followed by " minutes" |
| DehnPolizei.ReminderMessageMentionsOverdue | src/bin/dehn-polizei.rs:73-76 | the reminder names the overdue minutes followed by " minutes overdue" |
| DehnPolizei.PollEveryMinute | src/bin/dehn-polizei.rs:147-174 | a daemon run polling at minutes `0 .. n - 1` yields one action per minute, and the recorded minute is 0 or one of those minutes |
| DehnPolizei.ScheduledLastStep | src/bin/dehn-polizei.rs:70-72 | after the stretch interval the recorded minute trails the current one by less than the reminder interval, and a reminder is due exactly at the multiples of the reminder interval past the stretch interval |
| DehnPolizei.ScheduleStep | src/bin/dehn-polizei.rs:52-80 | one call at minute m of the every-minute run sends what the closed-form schedule says and records the schedule's next minute |
| DehnPolizei.EveryMinuteSchedule | src/bin/dehn-polizei.rs:147-174 | polled every minute, the timer is quiet before the stretch interval, notifies at it, and reminds exactly at every multiple of the reminder interval after it |
| DehnPolizei.ScheduleSnoc | src/bin/dehn-polizei.rs:149-174 | extending a run that follows the schedule by the scheduled action keeps it on schedule |
| DehnPolizei.NoNotificationWithinInterval | src/bin/dehn-polizei.rs:216-228 | with intervals 90 and 10, calls at 45 and 89 send nothing |
| DehnPolizei.SendsInitialNotification | src/bin/dehn-polizei.rs:230-246 | any call at 90 or later on a fresh timer sends the initial message naming 90 and records the call minute |
| DehnPolizei.SendsReminders | src/bin/dehn-polizei.rs:248-304 | after the initial notification at 90: nothing at 95, reminders with 10 and then 20 overdue minutes at 100 and 110 |
| DehnPolizei.ResetsAllValues | src/bin/dehn-polizei.rs:202-214 | a reset after setting the last minute to 25 leaves it 0 and the intervals 90 and 10 |
| GameWatch.DurationParts | src/bin/polizei.rs:197-199 | the hours and minutes of `i64` division truncating toward zero: hours * 60 + minutes is the elapsed time, the minutes lie strictly between -60 and 60 and have the sign of the elapsed time, and the hours are zero iff less than an hour (either way) has elapsed |
| GameWatch.FormatDurationUnderAnHour | rust/src/bin/polizei.rs:178-187 | under an hour only the minutes are printed, as "<minutes> Minutes" |
| GameWatch.FirstMatchFrom | src/bin/polizei.rs:131-141 | the first entry from a given position on that occurs in the lowercased command line: it occurs, no earlier entry does, and none occurs when there is no result |
| GameWatch.FirstMatch | rust/src/bin/polizei.rs:84-94 | the first watched binary occurring in the lowercased command line: it occurs, no earlier one does, and there is no result iff none occurs |
| GameWatch.MatchGame | src/bin/polizei.rs:129-141 | the loop over the game list skips every binary not in the lowercased command line and stops at the first match |
| GameWatch.Evicted | src/bin/polizei.rs:144-151 | after a round exactly the running games that were found remain, each with its state unchanged |
| GameWatch.EvictClosed | rust/src/bin/polizei.rs:97-104 | the removal loop computes exactly the kept games |
| Polizei.Binaries | src/bin/polizei.rs:42-54 | the watched binaries, in the order of the game list |
| Polizei.LoweredBinaries | src/bin/polizei.rs:42-54 | the watched binaries lowercased, in the order of the game list |
| Polizei.NoUpperAfterLowering | src/bin/polizei.rs:133 | a lowercased command line holds no upper-case ASCII letter |
| Polizei.OxygenNotIncludedNeverFound | src/bin/polizei.rs:43 | as written, "OxygenNotIncluded" is never found in any lowercased command line |
| Polizei.OxygenNotIncludedFoundIgnoringCase | src/bin/polizei.rs:131-140 | with the binaries lowercased too, a command line naming Oxygen Not Included in any letter case is matched to that game |
| Polizei.CorrectionOnlyAffectsOxygen | src/bin/polizei.rs:44-53 | lowercasing the binaries changes no entry but the first, so every other game matches as written |
| Polizei.MatchedUnlessOxygen | src/bin/polizei.rs:131-141 | the match as written never picks Oxygen Not Included, and wherever the corrected match picks another game or none, the two agree |
| Polizei.FindGame | src/bin/polizei.rs:131-141 | the game a command line is matched to, the first in list order whose binary, as written, occurs in the lowercased command line; a valid index, and never Oxygen Not Included |
| Polizei.AsUsize | src/bin/polizei.rs:78 | `i64 as usize`: a non-negative value is kept and a negative one wraps around by 2^64 |
| Polizei.GamePhases | src/bin/polizei.rs:73-91 | every phase built has a positive interval and has never fired |
| Polizei.GamePhasesCases | src/bin/polizei.rs:75-91 | a game gets the regular phase iff the notification interval is positive, and the stop phase iff it is strict and the stop interval is positive |
| Polizei.NoPhasesNoNotification | src/bin/polizei.rs:73-95 | a game without either phase never notifies at any minute |
| Polizei.StrictGameTimer | src/bin/polizei.rs:76-94 | with a regular interval not above the threshold, the sorted timer holds the regular phase (from the interval, every interval) then the stop phase (from the threshold, every stop interval) |
| Polizei.StopWinsWhenDue | src/bin/polizei.rs:84-91 | in such a timer a stop notification is sent at every unrecorded stop occurrence, even when a regular occurrence falls on the same minute |
| Polizei.LastDueWins | src/timer.rs:107-110 | a phase at the end of the list whose effective time is the current minute wins |
| Polizei.SortKeepsIntervals | src/timer.rs:69 | sorting the phases keeps every interval positive |
| Polizei.StepKeepsIntervals | src/timer.rs:111 | a timer call keeps every interval positive |
| Polizei.NewRunningGame | src/bin/polizei.rs:163-170 | a new game's timer starts now and all its intervals are positive |
| Polizei.HandleRunningGame | src/bin/polizei.rs:157-195 | the game's entry is created if missing and every other entry is unchanged; an existing game keeps its start, a new one starts now; a notification belongs to this game |
| Polizei.Matched | src/bin/polizei.rs:131-141 | the match of `main` as written (binary unlowered, command line lowercased); a matched game is a valid index of the game list |
| Polizei.HandleProcess | src/bin/polizei.rs:129-142 | one process keeps every timer's intervals positive and no start after the current minute |
| Polizei.HandleAll | src/bin/polizei.rs:129-142 | the whole process loop keeps every timer valid |
| Polizei.PollRound | src/bin/polizei.rs:124-151 | one loop iteration of `main`, on a given process list and minute, computes exactly the round function, with the match as written |
| Polizei.PollProcess | src/bin/polizei.rs:130-141 | the body of the process loop computes exactly one step of the round |
| Polizei.FoundInAppend | src/bin/polizei.rs:129-142 | a name is found among the processes plus one more iff it was found before or the new one matches it |
| Polizei.HandleAllFound | src/bin/polizei.rs:138 | a name is in the found set iff some process's command line is matched to that game |
| Polizei.HandleAllRunning | src/bin/polizei.rs:163-170 | the process loop adds exactly the found games to the running ones; old games keep their start and new ones start now |
| Polizei.RoundRunningGames | src/bin/polizei.rs:144-151 | after a round exactly the games found in it are running; a game that was running keeps its timer start and a new one starts at this minute |
| PolizeiLegacy.Binaries | rust/src/bin/polizei.rs:36-42 | the watched binaries, in the order of the game list |
| PolizeiLegacy.NewRunningGame | rust/src/bin/polizei.rs:50-58 | first seen now, both counters 0 |
| PolizeiLegacy.HandleCounters | rust/src/bin/polizei.rs:115-165 | the counter rule keeps the first-seen minute |
| PolizeiLegacy.HandleCountersCases | rust/src/bin/polizei.rs:124-162 | a zero divisor on the branch taken panics; below the threshold the regular counter becomes the current interval and a notification is sent iff it was behind; at or past it a stop notification is sent iff the stop counter was behind, which then becomes the current stop interval, and otherwise nothing changes |
| PolizeiLegacy.FirstStopAtThreshold | rust/src/bin/polizei.rs:147-162 | a game with no stop notification yet gets one as soon as it is at or past the threshold |
| PolizeiLegacy.RegularEveryMinute | rust/src/bin/polizei.rs:124-141 | a game handled once a minute below the threshold: one result per minute, first seen at 0 |
| PolizeiLegacy.RegularSchedule | rust/src/bin/polizei.rs:124-141 | handled every minute below the threshold, a game gets its regular notifications exactly at the positive multiples of the notification interval, and the counter is the interval number of the last minute |
| PolizeiLegacy.RegularStep | rust/src/bin/polizei.rs:126 | the interval number grows by one exactly when the minute reaches the next multiple |
| PolizeiLegacy.HandleRunningGame | rust/src/bin/polizei.rs:110-119 | unless it panics, the game's entry is created if missing and every other entry is unchanged; an existing game keeps its first-seen minute, a new one is first seen now |
| PolizeiLegacy.Matched | rust/src/bin/polizei.rs:84-94 | a matched game is a valid index of the game list |
| PolizeiLegacy.HandleProcess | rust/src/bin/polizei.rs:82-95 | unless it panics, one process keeps every first-seen minute at or before the current one |
| PolizeiLegacy.HandleAll | rust/src/bin/polizei.rs:82-95 | unless it panics, the process loop keeps every first-seen minute at or before the current one |
| PolizeiLegacy.PollRound | rust/src/bin/polizei.rs:77-104 | one loop iteration of `main` computes exactly the round function, stopping at the first panic |
| PolizeiLegacy.HandleAllStaysPanicked | rust/src/bin/polizei.rs:92 | once a prefix of the process list has panicked, the whole round has |
| PolizeiLegacy.FoundInAppend | rust/src/bin/polizei.rs:82-95 | a name is found among the processes plus one more iff it was found before or the new one matches it |
| PolizeiLegacy.HandleAllFound | rust/src/bin/polizei.rs:91 | in a round that does not panic, a name is found iff some process is matched to that game |
| PolizeiLegacy.HandleAllRunning | rust/src/bin/polizei.rs:115 | a round that does not panic adds exactly the found games to the running ones; old games keep their first-seen minute and new ones are first seen now |
| PolizeiLegacy.RoundRunningGames | rust/src/bin/polizei.rs:97-104 | after a round that does not panic exactly the games found in it are running, with their first-seen minutes kept or set to now |
| Rings.NextIndex | src/ring.rs:32-36 | the index after the last one is the first; the result is a valid index |
| Rings.PrevIndex | src/ring.rs:45-49 | the index before the first one is the last; the result is a valid index |
| Rings.NextIndexMod | src/ring.rs:30-39 | `next` adds one modulo the ring's length |
| Rings.PrevIndexMod | src/ring.rs:43-52 | `prev` subtracts one modulo the ring's length |
| Rings.NextPrevInverse | src/ring.rs:30-52 | `prev` undoes `next` and `next` undoes `prev` |
| Rings.Steps | src/ring.rs:30-39 | k calls of `next` stay on a valid index |
| Rings.StepsMod | src/ring.rs:30-39 | k calls of `next` from index i reach `(i + k) % n`, so n calls come back to the start |
| Rings.FirstIndex | src/ring.rs:60 | the first index whose entry satisfies the filter: the entry satisfies it, no earlier one does, and there is none iff no entry does |
| Rings.FirstIndexFrom | src/ring.rs:60 | the first index from a given position on whose entry satisfies the filter |
| Rings.Ring.constructor | src/ring.rs:18 | a ring over the given non-empty list with the cursor at the first entry |
| Rings.NewRing | src/ring.rs:13-19 | an empty list is refused with the message "Ring cannot work with an empty Vec"; otherwise a new ring holds the list with the cursor at 0 |
| Rings.Ring.Get | src/ring.rs:23-25 | the entry under the cursor, the ring unchanged |
| Rings.Ring.Next | src/ring.rs:30-39 | the cursor moves to the next index, wrapping from the last entry to the first, and the new entry is returned |
| Rings.Ring.Prev | src/ring.rs:43-52 | the cursor moves to the previous index, wrapping from the first entry to the last, and the new entry is returned |
| Rings.Ring.Find | src/ring.rs:56-64 | the cursor moves to the first entry satisfying the filter and that entry is returned; when none does the cursor stays and nothing is returned |
| Rings.NextThenPrev | src/ring.rs:30-52 | `next` then `prev` leaves the cursor where it was and returns the entry there |
| Pipewire.ConvertAll | src/pipewire/schema/mod.rs:55-62 | converting every element, when it succeeds, gives one record per element |
| Pipewire.ParsePwDump | src/pipewire/schema/mod.rs:12-71 | the loop over the decoded array computes exactly the dump function: non-objects and uninteresting types are skipped, a missing "type" panics, and the first failed conversion ends the parse |
| Pipewire.FailureIsFinal | src/pipewire/schema/mod.rs:28 | once an element has failed, the rest of the array does not change the outcome |
| Pipewire.FilterSnoc | src/pipewire/schema/mod.rs:22-68 | the kept objects of a longer array are those of the shorter one plus the new element when it is kept |
| Pipewire.ConvertAllSnoc | src/pipewire/schema/mod.rs:55-62 | converting one more element extends the converted list or fails |
| Pipewire.DumpStepLists | src/pipewire/schema/mod.rs:29-66 | one element adds its converted record to the list its class names, and nothing to the other |
| Pipewire.DumpContents | src/pipewire/schema/mod.rs:22-70 | a successful parse holds exactly the converted node objects and the converted device objects, each in array order |
| Pipewire.DumpSucceeds | src/pipewire/schema/mod.rs:22-70 | the parse succeeds iff every object has a "type" key and every node and device object converts |
| Pipewire.NodeObjectIsAudio | src/pipewire/schema/mod.rs:34-52 | a kept node has an info object whose props hold a media class starting with "Audio" |
| Sink.FirstMatching | src/pipewire/sink.rs:87-97 | the first profile (or route) whose description is the node's or whose name is "output:" and the node's profile name: it matches, no earlier one does, and there is none iff none matches |
| Sink.FindDevice | src/pipewire/sink.rs:82-84 | the first device with the node's device id, or none iff no device has it |
| Sink.IsNotPluggedIn | src/pipewire/sink.rs:66-122 | the loops over the devices, the profiles and then the routes answer exactly the unplugged predicate: unavailable ("no") for the first matching profile, or, without one, for the first matching route |
| Sink.MissingInformationMeansPlugged | src/pipewire/sink.rs:74-84 | without a profile description, a profile name or a device with the node's id the node never counts as unplugged |
| Sink.ProfileDecidesBeforeRoutes | src/pipewire/sink.rs:99-100 | once a profile matches, the routes are not consulted: replacing them changes nothing |
| Sink.GetSinks | src/pipewire/sink.rs:19-52 | the filter loop keeps exactly the nodes of class "Audio/Sink" that are not ignored and not unplugged, in order |
| Sink.SinksAreTheKeptNodes | src/pipewire/sink.rs:25-49 | a node is kept iff it is one of the nodes and passes all three tests |
| Sink.InputIds | src/pipewire/sink.rs:182-187 | one id per non-blank line of the sink-input listing, none holding a tab or a newline |
| Sink.FirstFieldIsPrefix | src/pipewire/sink.rs:186 | the id is the start of its line, ending at the line's end or at its first tab |
| Sink.Rotation | src/pipewire/sink.rs:141-169 | a sink that is returned is one of the sinks |
| Sink.RotateSink | src/pipewire/sink.rs:132-170 | with no sinks the ring refuses to be built; when no sink has the default sink's trimmed name it fails with "Failed to determine current sink"; otherwise it returns the ring neighbour, in the chosen direction, of the first sink with that name |
| Sink.RotateBack | src/pipewire/sink.rs:157-160 | with distinct node names, rotating forward and then back from the sink reached returns to the default sink |
| StaggeredBackups.DayOfMonotone | src/bin/staggered_backups.rs:174 | a later date-time never falls on an earlier date |
| StaggeredBackups.InsertSorted | src/bin/staggered_backups.rs:140 | inserting into the date-ordered map keeps it strictly ordered by date-time |
| StaggeredBackups.InsertContents | src/bin/staggered_backups.rs:140 | after an insertion the map holds the new entry, nothing that was not there before, and every entry of another date-time |
| StaggeredBackups.InsertReplaces | src/bin/staggered_backups.rs:140 | in an ordered map the inserted date-time has only the inserted file |
| StaggeredBackups.CollectFiles | src/bin/staggered_backups.rs:113-141 | the loop over the directory computes the collected map, skipping every file whose date could not be read |
| StaggeredBackups.CollectedSorted | src/bin/staggered_backups.rs:109-141 | the collected entries are strictly ordered by date-time |
| StaggeredBackups.CollectedLastWins | src/bin/staggered_backups.rs:140 | of several files with the same date-time, the last one listed is the one in the map |
| StaggeredBackups.CollectedFromFiles | src/bin/staggered_backups.rs:126-140 | every entry comes from a file whose name gave that date-time |
| StaggeredBackups.CollectedEmpty | src/bin/staggered_backups.rs:142-145 | the map is empty iff no file's date could be read |
| StaggeredBackups.TakePartition | src/bin/staggered_backups.rs:160-190 | a bracket takes entries inside its range only; what is left followed by what was taken is exactly what there was, and what is left ends before the bracket starts |
| StaggeredBackups.TakeFails | src/bin/staggered_backups.rs:177-185 | on ordered entries a bracket fails iff the newest remaining entry lies after its end, and the error names that entry |
| StaggeredBackups.FillBracket | src/bin/staggered_backups.rs:160-190 | the inner loop pops the newest entries while they lie in the bracket, stops at the first older one, fails on a newer one, and leaves the rest ordered |
| StaggeredBackups.TakeNothing | src/bin/staggered_backups.rs:160 | before the first pop the loop's outcome is the bracket's outcome |
| StaggeredBackups.TakeDone | src/bin/staggered_backups.rs:164-176 | with nothing left, or the newest entry before the bracket, the loop ends with what it took |
| StaggeredBackups.TakeStep | src/bin/staggered_backups.rs:188-189 | popping an entry inside the bracket moves it into the bracket's entries |
| StaggeredBackups.PopNewest | src/bin/staggered_backups.rs:188-189 | the popped entry is older than every entry taken before, so it becomes the bracket's first entry |
| StaggeredBackups.StackedMember | src/bin/staggered_backups.rs:159-191 | an entry of any bracket is among the brackets' entries |
| StaggeredBackups.AssignPartition | src/bin/staggered_backups.rs:159-191 | a successful assignment fills one bracket per bracket, each entry lies in its bracket's range, and leftovers plus bracket contents are exactly the entries: none is lost and none is in two brackets |
| StaggeredBackups.AssignFailureIsFinal | src/bin/staggered_backups.rs:178 | an error ends the bracket loop: later brackets do not change the outcome |
| StaggeredBackups.Files | src/bin/staggered_backups.rs:213 | the file names of the entries, in order |
| StaggeredBackups.Run | src/bin/staggered_backups.rs:107-236 | no files are found iff no date could be read; nothing is removed without `execute`, and with it exactly the listed files are removed |
| StaggeredBackups.RunStaggeredBackup | src/bin/staggered_backups.rs:107-236 | the collect, bracket and removal loops compute exactly the run function |
| StaggeredBackups.ListBracket | src/bin/staggered_backups.rs:209-219 | every entry of a bracket after its first is listed, and removed when executing |
| StaggeredBackups.AssignSorted | src/bin/staggered_backups.rs:159-191 | filling the brackets from the ordered map leaves every bracket and the leftovers ordered by date-time |
| StaggeredBackups.KeepsOldest | src/bin/staggered_backups.rs:159-219 | whenever the brackets can be filled from the collected files, the run finishes, and in every non-empty bracket it keeps the oldest entry and lists every other one, all newer, for removal |
| StaggeredBackups.LeftoversUntouched | src/bin/staggered_backups.rs:159-191 | entries older than every bracket are neither kept nor listed for removal |
| StaggeredBackups.NotInBoth | src/bin/staggered_backups.rs:109 | the ordered map holds no entry twice, so a leftover is in no bracket |
| StaggeredBackups.ListedInFilled | src/bin/staggered_backups.rs:209 | a listed entry comes from one of the brackets |
| StaggeredBackups.KeptInFilled | src/bin/staggered_backups.rs:202-219 | every kept entry comes from one of the brackets |
| StaggeredBrackets.Daily | src/bin/staggered_backups.rs:272-279 | the daily run has one bracket per requested day |
| StaggeredBrackets.Weekly | src/bin/staggered_backups.rs:289-294 | the weekly run has one bracket per requested week |
| StaggeredBrackets.Monthly | src/bin/staggered_backups.rs:306-327 | the monthly run has one bracket per requested month |
| StaggeredBrackets.InitBrackets | src/bin/staggered_backups.rs:268-330 | the three loops produce exactly the daily, weekly and monthly runs laid end to end |
| StaggeredBrackets.DailyShape | src/bin/staggered_backups.rs:272-279 | daily bracket i starts i days before today and spans that one day |
| StaggeredBrackets.WeeklyShape | src/bin/staggered_backups.rs:289-294 | weekly bracket i starts 7 * i days before the first Monday and spans 7 days |
| StaggeredBrackets.MonthlyShape | src/bin/staggered_backups.rs:306-327 | monthly bracket i starts at the i-th month start stepped back to and spans to its month's last day |
| StaggeredBrackets.Shape | src/bin/staggered_backups.rs:264-305 | 30 daily, then 22 weekly (26 - 30/7), then 18 monthly (24 - 26*7/30) brackets: 70 in all |
| StaggeredBrackets.MonthStartsDecrease | src/bin/staggered_backups.rs:321-326 | each month start stepped back to lies before the one it was found from |
| StaggeredBrackets.Brackets | src/bin/staggered_backups.rs:268-330 | the brackets are 30 daily, 22 weekly and 18 monthly ones, in that order, with strictly decreasing start dates |
| StaggeredBrackets.NothingTakenBefore | src/bin/staggered_backups.rs:175-176 | brackets that all start after the newest entry take nothing |
| StaggeredBrackets.MonthlyGapFails | src/bin/staggered_backups.rs:299-303 | as written, the first monthly bracket ends before the oldest weekly bracket begins; a backup in the days between is in no bracket and the run fails with a file "in the future" |
| StaggeredBrackets.CorrectedLeavesNoGap | src/bin/staggered_backups.rs:296-327 | with the monthly brackets starting at the month of the day before the oldest weekly bracket, every day from that month's start to today lies in some bracket |
| StaggeredBrackets.CorrectedBracketsDecrease | src/bin/staggered_backups.rs:268-330 | the corrected brackets are still 70, with strictly decreasing start dates |
| CleanNames.PairAt | src/bin/clean_names.rs:37-50 | finds the first opening brace and the first closing brace after it; None exactly when no opening brace is followed by a closing one |
| CleanNames.RemovePairs | src/bin/clean_names.rs:36-59 | draining pairs until none is found never lengthens the name and leaves no opening brace followed by a closing one |
| CleanNames.RemovePairsSubsequence | src/bin/clean_names.rs:58 | the characters left after pair removal are a sub-multiset of the name's |
| CleanNames.FindPair | src/bin/clean_names.rs:37-50 | the scan returns the pair `PairAt` describes, and reports a missing index when there is none |
| CleanNames.ScanFound | src/bin/clean_names.rs:40-48 | a scan that stops at a closing brace after the first opening brace has found the pair |
| CleanNames.ScanExhausted | src/bin/clean_names.rs:53-55 | a scan that reaches the end without a closing brace means there is no pair |
| CleanNames.PairUnique | src/bin/clean_names.rs:40-42 | a found pair always starts at the first opening brace |
| CleanNames.PairFound | src/bin/clean_names.rs:39-50 | the first opening brace and the first closing brace after it are the pair |
| CleanNames.RemoveBracePairs | src/bin/clean_names.rs:34-60 | the `loop` for one brace kind computes `RemovePairs` |
| CleanNames.RemoveInvalid | src/bin/clean_names.rs:113-122 | no invalid character (`;` or a brace) survives |
| CleanNames.RemoveInvalidCharacters | src/bin/clean_names.rs:62-76 | collecting the invalid indices and removing them back to front keeps exactly the valid characters in order |
| CleanNames.InvalidIndices | src/bin/clean_names.rs:63-69 | the collected indices are increasing, in range, and are exactly the positions of invalid characters |
| CleanNames.RemoveAt | src/bin/clean_names.rs:74-76 | removing the next index from the back keeps the prefix before it and the filtered rest |
| CleanNames.RemoveStep | src/bin/clean_names.rs:73-76 | one `chars.remove(q)` at an invalid index extends the filtered suffix by one step |
| CleanNames.FilterFromInvalid | src/bin/clean_names.rs:73-76 | filtering from an invalid character skips it and keeps the valid stretch after it |
| CleanNames.FilterSplit | src/bin/clean_names.rs:71-76 | once the prefix holds only valid characters, prefix plus filtered rest is the filtered name |
| CleanNames.ReplaceTilde | src/bin/clean_names.rs:78-84 | same length, no `~` left, every `~` became `-` and every other character stays |
| CleanNames.StripPrefix | src/bin/clean_names.rs:91-93 | the `strip_prefix` loop removes every leading copy of the character |
| CleanNames.StripSuffix | src/bin/clean_names.rs:94-96 | the `strip_suffix` loop removes every trailing copy of the character |
| CleanNames.StripEdges | src/bin/clean_names.rs:89-97 | the loops strip space, newline and carriage return in that order |
| CleanNames.StripAllStep | src/bin/clean_names.rs:90 | stripping one more character of the list strips it from the previous result |
| CleanNames.StrippedEdges | src/bin/clean_names.rs:89-97 | the stripped name neither starts nor ends with a carriage return, the last character stripped |
| CleanNames.StripBounds | src/bin/clean_names.rs:91-96 | prefix then suffix stripping yields a slice of the name with only the stripped character outside it |
| CleanNames.StripCharSlice | src/bin/clean_names.rs:91-96 | stripping one character removes only copies of it from the two ends |
| CleanNames.CleanDirectoryName | src/bin/clean_names.rs:31-97 | the per-directory pipeline (pairs, invalid characters, replacement, stripping) computes `CleanName` |
| CleanNames.CleanNameHasNoInvalid | src/bin/clean_names.rs:62-97 | the new name holds none of `; [ ] ( ) { } ~` and does not start or end with a carriage return |
| CleanNames.StripAllElements | src/bin/clean_names.rs:89-97 | stripping brings in no character |
| CleanNames.DrainPair | src/bin/clean_names.rs:58 | draining `start..end` removes the opening brace and what follows up to the closing brace, which stays |
| CleanNames.NoPairLeft | src/bin/clean_names.rs:53-55 | with no opening brace the loop stops at once and changes nothing |
| CleanNames.TrimStartPadded | src/bin/clean_names.rs:91-93 | leading padding is stripped and nothing more |
| CleanNames.TrimEndPadded | src/bin/clean_names.rs:94-96 | trailing padding is stripped and nothing more |
| CleanNames.StripPadded | src/bin/clean_names.rs:91-96 | stripping a padded name gives back the name |
| CleanNames.TestSquare | src/bin/clean_names.rs:150-151 | in the test name the `[` ... `]` pair goes, leaving its closing bracket |
| CleanNames.TestRoundFirst | src/bin/clean_names.rs:150-151 | the first `(` ... `)` pair of the test name goes |
| CleanNames.TestRoundSecond | src/bin/clean_names.rs:150-151 | the second `(` ... `)` pair of the test name goes |
| CleanNames.TestRound | src/bin/clean_names.rs:150-151 | pair removal for round braces on the test name |
| CleanNames.TestCurly | src/bin/clean_names.rs:150-151 | pair removal for curly braces on the test name |
| CleanNames.FilterKeeps | src/bin/clean_names.rs:65-69 | a name of valid characters is kept whole |
| CleanNames.FilterDrops | src/bin/clean_names.rs:65-76 | an invalid character in front of valid ones is dropped |
| CleanNames.RemoveInvalidAppend | src/bin/clean_names.rs:62-76 | invalid-character removal works piece by piece |
| CleanNames.TestPieces | src/bin/clean_names.rs:150-151 | invalid-character removal on each piece of the test name |
| CleanNames.TestInvalid | src/bin/clean_names.rs:150-151 | the test name after invalid-character removal is the kept name padded with spaces |
| CleanNames.StripTrailing | src/bin/clean_names.rs:129-132 | the trailing characters are space, newline and carriage return, stripped in that order |
| CleanNames.TestStrip | src/bin/clean_names.rs:150-158 | stripping the padded test name leaves the kept name |
| CleanNames.NothingToStrip | src/bin/clean_names.rs:91-96 | a name not starting or ending with the character is left as is |
| CleanNames.TestNameCleanup | src/bin/clean_names.rs:143-159 | any plain kept name wrapped in the test's tags and padding is cleaned to itself |
| CleanNames.TestPairs | src/bin/clean_names.rs:150-151 | all three brace kinds on the test name |
| CleanNames.NoTilde | src/bin/clean_names.rs:124-127 | the replacement changes nothing in a name without `~` |
| CleanNames.TestNameLetters | src/bin/clean_names.rs:157 | the expected name is made of letters and spaces |
| CleanNames.TestNameIsPlain | src/bin/clean_names.rs:157 | the expected name holds no removed character and has no padding |
| CleanNames.DirectoryCleanupExample | src/bin/clean_names.rs:143-164 | the test directory name becomes "Name that should stay" |
| CleanNamesLegacy.CleanDirectoryNameLegacy | rust/scripts/clean_names.rs:22-80 | the older pipeline (pairs, invalid characters, stripping, no replacement) computes `CleanNameLegacy` |
| CleanNamesLegacy.LegacyHasNoInvalid | rust/scripts/clean_names.rs:53-80 | the older name holds none of `; [ ] ( ) { }` and does not start or end with a carriage return |
| CleanNamesLegacy.TrimStartTilde | rust/scripts/clean_names.rs:74-76 | stripping a leading character other than `~` and `-` commutes with the tilde replacement |
| CleanNamesLegacy.TrimEndTilde | rust/scripts/clean_names.rs:77-79 | stripping a trailing character other than `~` and `-` commutes with the tilde replacement |
| CleanNamesLegacy.StripAllTilde | rust/scripts/clean_names.rs:72-80 | stripping all trailing characters commutes with the tilde replacement |
| CleanNamesLegacy.CurrentIsLegacyWithTildeReplaced | rust/scripts/clean_names.rs:22-80 | the current cleaner's name is the older cleaner's name with every `~` turned into `-` |
| CleanNamesLegacy.LegacyKeepsOnlyOriginalChars | rust/scripts/clean_names.rs:22-80 | every character of the older name comes from the original name |
| CleanNamesLegacy.SameWithoutTilde | rust/scripts/clean_names.rs:22-80 | names without `~` are cleaned the same by both versions |
| CleanNamesLegacy.LegacyKeepsTilde | rust/scripts/clean_names.rs:95-112 | the older cleaner has no replacement list, so "a~b" stays "a~b" |
| PrintTodo.Count | src/bin/print_todo.rs:57-81 | the completed count never exceeds the item count |
| PrintTodo.SectionEnd | src/bin/print_todo.rs:59-68 | the section end lies between its start and the number of lines |
| PrintTodo.SectionEndSpec | src/bin/print_todo.rs:59-68 | a section ends at a headline, or at the end of the file, and holds no headline before that |
| PrintTodo.NoHeadlineSectionEnd | src/bin/print_todo.rs:59-88 | with no headline ahead, the section runs to the end of the file |
| PrintTodo.Sections | src/bin/print_todo.rs:29-35 | the todos from a headline on number at least one |
| PrintTodo.Entries | src/bin/print_todo.rs:33-35 | one entry per todo |
| PrintTodo.CountRangeSnoc | src/bin/print_todo.rs:70-80 | one more line bumps the counter by its kind |
| PrintTodo.CountRangeIsCount | src/bin/print_todo.rs:57-81 | counting in place over the file's lines is counting the section's lines |
| PrintTodo.HandleTodoItems | src/bin/print_todo.rs:51-89 | appends the headline's title, counts the items up to the next headline, appends the counter and `, ` when a headline follows, and returns that headline |
| PrintTodo.CountLine | src/bin/print_todo.rs:70-80 | an unfinished item counts one item, a finished item one item and one completed item, any other line nothing |
| PrintTodo.FindHeadline | src/bin/print_todo.rs:29-31 | returns the first line starting with `#`, or the end |
| PrintTodo.CollectOutput | src/bin/print_todo.rs:25-35 | the headline loop collects the entries of all todos, joined with `, ` |
| PrintTodo.SummaryUnfold | src/bin/print_todo.rs:33-35 | the summary from a headline is its entry followed by the summary from the next headline |
| PrintTodo.CollectStep | src/bin/print_todo.rs:33-35 | one call of `handle_todo_items` keeps the collected text a prefix of the summary |
| PrintTodo.SummaryIsJoin | src/bin/print_todo.rs:29-35 | the collected text is the todos' entries joined with `, ` |
| PrintTodo.PrintTodo | src/bin/print_todo.rs:16-45 | a missing file shows "Nothing to do :)", blank output "Nothing to do :) \|", otherwise the output followed by " \|" |
| PrintTodo.CountIsItems | src/bin/print_todo.rs:70-80 | the counter is the number of item lines and the number of finished ones |
| PrintTodo.OpenIsNotDone | src/bin/print_todo.rs:71-77 | no line is both an unfinished and a finished item |
| PrintTodo.HeadlinesAfterSectionEnd | src/bin/print_todo.rs:59-68 | the headline that ends a section is counted among the later headlines |
| PrintTodo.OneSectionPerHeadline | src/bin/print_todo.rs:33-35 | one todo for the headline at hand and one for each later headline |
| PrintTodo.TodosPerHeadline | src/bin/print_todo.rs:29-35 | a file has exactly as many todos as headlines |
| PrintTodo.SectionEndShift | src/bin/print_todo.rs:59-68 | lines in front shift every section end by their number |
| PrintTodo.SectionEndSkips | src/bin/print_todo.rs:29-31 | lines without a headline are skipped on the way to the first headline |
| PrintTodo.CountRangeShift | src/bin/print_todo.rs:57-81 | lines in front do not change a counter over later lines |
| PrintTodo.SummaryShift | src/bin/print_todo.rs:33-35 | lines in front do not change the summary from a headline on |
| PrintTodo.SummaryAlike | src/bin/print_todo.rs:51-89 | two files that agree on a headline, its counter and what follows have the same summary from there |
| PrintTodo.OutputIsSummary | src/bin/print_todo.rs:29-35 | the collected text of a file is its summary from the first headline |
| PrintTodo.SummaryFromShift | src/bin/print_todo.rs:29-31 | non-headline lines in front of a file do not change its summary |
| PrintTodo.PreambleIgnored | src/bin/print_todo.rs:29-31 | lines before the first headline do not change the output |
| PrintTodo.NoHeadlineNothingToDo | src/bin/print_todo.rs:37-40 | a file without a headline shows "Nothing to do :) \|" |
| PackageList.Position | src/bin/remove.rs:129 | the first index holding the name; None exactly when the name is not listed |
| PackageList.RemoveFirstCounts | src/bin/remove.rs:127-137 | removal takes away one copy of a listed name and leaves an unlisted name's list alone |
| PackageList.RemoveFirstOrder | src/bin/remove.rs:131-134 | removal deletes the first occurrence and keeps the other entries in order |
| PackageList.AddThenRemove | rust/src/bin/add.rs:114-123 | adding a name that is not listed and removing it again gives back the list |
| PackageList.PositionOfLast | rust/src/bin/add.rs:120 | a freshly appended name is found at the end |
| PackageList.AddIdempotent | rust/src/bin/add.rs:116-118 | after an add the name is listed, and a second add changes nothing |
| PackageList.FindPosition | rust/src/bin/remove.rs:114 | the `position` search returns the first index holding the name |
| PackageList.FirstPosition | rust/src/bin/remove.rs:114 | an index whose entry is the name with no earlier copy is the position |
| PackageList.Pkglist.constructor | src/bin/remove.rs:49-50 | the list holds the lines read |
| PackageList.Pkglist.RemovedFromList | src/bin/remove.rs:127-137 | true iff the name was listed; the new list is the old one without its first occurrence |
| PackageList.Pkglist.AddToList | rust/src/bin/add.rs:114-123 | false with the list unchanged iff the name was listed; otherwise the name is appended |
| PackageList.Pkglist.HandleUninstall | src/bin/remove.rs:69-108 | a failed uninstall leaves the list alone; success and "not installed" both remove the name, and the result says whether it was listed |
| PackageList.Pkglist.HandleInstall | rust/src/bin/add.rs:55-94 | a failed install leaves the list alone; success and "already installed" both add the name, and the result says whether it was new |
| PackageList.UninstallsRemove | rust/src/bin/remove.rs:43-45 | handling the outcomes never adds a copy, and a requested name stays only when an uninstall of it failed |
| PackageList.InstallsAdd | rust/src/bin/add.rs:37-39 | nothing listed is lost, and every package not failed is listed afterwards |
| PackageList.RemovePackages | src/bin/remove.rs:49-64 | the file written holds the read list after all outcomes, sorted, without blank entries, joined with line feeds |
| PackageList.AddPackages | rust/src/bin/add.rs:26-44 | the file written holds the read list after all outcomes, sorted, without blank entries, joined with line feeds |
| PackageList.PkglistPathPriority | src/bin/remove.rs:41-47 | `--pkglist-file` wins over `--aur`; without it the AUR list and the default list differ |
| Files.ReadFileLines | src/fs.rs:34-37 | one line more than there are line feeds, and no line holds one |
| Files.ReadFileLinesJoin | rust/src/file.rs:4-7 | joining the lines read with line feeds gives back the content |
| Files.SortAndWrite | src/fs.rs:45-50 | the content written is the normalized list joined with line feeds |
| Files.StrLeIsTotalPreorder | src/fs.rs:46 | the string order used by the sort is total and transitive |
| Files.NormalizedSorted | rust/src/file.rs:16 | the list written is in ascending order |
| Files.NormalizedBlankFree | rust/src/file.rs:17 | no entry written is blank after trimming |
| Files.NormalizedCounts | src/fs.rs:46-47 | every non-blank entry is written as often as it occurs, and no blank one is |
| Files.NormalizedIdempotent | rust/src/file.rs:15-19 | normalizing a normalized list changes nothing |
| Files.WriteReadRoundTrip | src/fs.rs:34-50 | reading back a written non-empty list of line-free entries gives the list |
| Humanizer.DecomposeIdentity | src/bin/humanizer.rs:56-65 | days, hours, minutes and seconds add up to the whole seconds, each part below its unit and with the sign of the duration |
| Humanizer.DecomposeUnique | src/bin/humanizer.rs:56-65 | for a non-negative duration the parts are the only ones within those bounds that add up to it |
| Humanizer.PeelStep | src/bin/humanizer.rs:57-63 | each `duration -= ...` step leaves a duration whose whole seconds are the remainder by that unit |
| Humanizer.PeelMagnitude | src/bin/humanizer.rs:57-63 | the same step on the magnitude of the duration |
| Humanizer.FormatTime | src/bin/humanizer.rs:47-76 | nanos win over seconds; an out-of-range seconds value and a missing input are errors with the source's messages; otherwise the decomposed duration is printed |
| Humanizer.Decomposed | src/bin/humanizer.rs:56-71 | the decomposition and formatting give the text of the duration |
| Humanizer.Parts | src/bin/humanizer.rs:56-65 | the parts read off step by step are the decomposition of the whole seconds |
| Humanizer.FormatClock | src/bin/humanizer.rs:67-71 | the days part only when days are positive, then the two-digit clock |
| Humanizer.FormatTimeLegacy | rust/scripts/humanizer.rs:41-69 | no input prints a message and exits with status 1; an out-of-range seconds value panics; otherwise the same text as the current version |
| Humanizer.Pad2Digits | src/bin/humanizer.rs:71 | `{:02}` of a number below 100 is two digits that read back as the number |
| Humanizer.RenderReadsBack | src/bin/humanizer.rs:67-71 | the text ends in "HH:MM:SS" whose fields read back as hours, minutes and seconds, after the days part |
| Humanizer.DaysPrefixReadsBack | src/bin/humanizer.rs:68-70 | the days part is empty exactly without days, and otherwise the number read back followed by " days " |
| Humanizer.ClockFields | src/bin/humanizer.rs:71 | where the three two-digit fields sit in the clock text |
| Humanizer.NegativeHasNoDays | rust/scripts/humanizer.rs:63-65 | a negative duration never shows a days part |
| Blur.SourcePixel | src/bin/blur.rs:217-241 | the pixel whose colour a middle-row pixel takes lies inside the row |
| Blur.PixelatedPrefix | src/bin/blur.rs:220-241 | the pixelated prefix has the requested length |
| Blur.Pixelate | src/bin/blur.rs:209-241 | pixelation keeps the row's length |
| Blur.PixelateIndex | src/bin/blur.rs:209-241 | every pixel of the middle row takes the colour of its source pixel |
| Blur.PrefixIndex | src/bin/blur.rs:220-241 | each pixel of a pixelated prefix takes the colour of its source pixel |
| Blur.RemainderInGroup | src/bin/blur.rs:214 | inside a group that starts at a multiple of `scale` the offset counts up from zero |
| Blur.RoundedDown | src/bin/blur.rs:234 | the leftover pixels start at a multiple of `scale` |
| Blur.PixelateGroup | src/bin/blur.rs:217-230 | every pixel of a full group takes the colour of the group's pixel `scale / 2` |
| Blur.PixelateLeftover | src/bin/blur.rs:232-241 | every leftover pixel takes the colour of the first leftover pixel |
| Blur.SourcePixelFixed | src/bin/blur.rs:217-241 | the source pixel of a source pixel is itself |
| Blur.PixelateIdempotent | src/bin/blur.rs:209-241 | pixelating a pixelated row changes nothing |
| Blur.Copies | src/bin/blur.rs:246-248 | `n` copies of a row are `n` rows |
| Blur.CopiesIndex | src/bin/blur.rs:246-248 | every copy is the row |
| Blur.BlurredFrom | src/bin/blur.rs:152-156 | the bands from row `lo` on give one row per image row |
| Blur.MiddleRow | src/bin/blur.rs:200-203 | the middle row lies in the band holding the row, and that band lies in the image |
| Blur.MiddleOfBand | src/bin/blur.rs:200-207 | every row of a band has the band's middle row, `rows / 2` into it |
| Blur.BlurredRow | src/bin/blur.rs:138-156 | row `i` of the target is the pixelated middle row of the band holding it |
| Blur.BlurredFromRow | src/bin/blur.rs:152-156 | the same for the bands from row `lo` on |
| Blur.FirstBandRow | src/bin/blur.rs:243-248 | a row of the band starting at `lo` is the band's pixelated middle row |
| Blur.LaterBandRow | src/bin/blur.rs:152-156 | a row below the band starting at `lo` is the row the later bands give it |
| Blur.BlurredPixel | src/bin/blur.rs:197-248 | the target pixel at row `i`, column `j` is the image pixel at the band's middle row and the column's source pixel |
| Blur.MiddleRowFixed | src/bin/blur.rs:203 | the middle row of a band is its own middle row |
| Blur.BlurIdempotent | src/bin/blur.rs:121-162 | blurring a blurred image changes nothing |
| Blur.BlurredByRows | src/bin/blur.rs:152-156 | an image whose every row is the pixelated middle row of its band is the target |
| Blur.FillPixels | src/bin/blur.rs:227-229 | the pixels of the range take the colour and nothing else changes |
| Blur.PixelateRow | src/bin/blurlock.rs:288-320 | the middle row is pixelated in place and no other row changes |
| Blur.GroupStep | src/bin/blurlock.rs:299-309 | one full group is set to its pixel `scale / 2`, the rest of the row and the other rows stay |
| Blur.CopyRow | src/bin/blurlock.rs:324-327 | the target row becomes the source's middle row and no other target row changes |
| Blur.BlurRowChunk | src/bin/blurlock.rs:276-328 | of the source only the band's middle row is written, and it becomes that row pixelated; every row of the target band is the pixelated middle row; target rows outside the band are untouched |
| Blur.BlurImage | src/bin/blurlock.rs:217-240 | the bands taken in order give exactly the target image |
| Blur.GridRows | src/bin/blurlock.rs:239-240 | the target buffer read back row by row |
| Blur.BandStep | src/bin/blurlock.rs:229-235 | one band fills its target rows with the pixelated middle row, keeps the rows above, and the next band starts at a multiple of `scale` |
| HeadphoneBattery.StateFromBatteryStatus | src/bin/headphone_battery.rs:66-76 | critical up to 15 %, warning 16–25 %, good 26–35 %, idle above 35 % or while charging; each state exactly on its range |
| HeadphoneBattery.StateMonotone | src/bin/headphone_battery.rs:69-74 | a lower percentage is never a less urgent state, and up to 35 % the state is never idle |
| HeadphoneBattery.HeadsetControl | src/bin/headphone_battery.rs:80-123 | the loop returns the status of the first "Battery:" line, or none for a failed command or no such line |
| HeadphoneBattery.HeadsetFirstLine | src/bin/headphone_battery.rs:96-119 | the first "Battery:" line decides, whatever follows it |
| HeadphoneBattery.HeadsetNoLine | src/bin/headphone_battery.rs:122 | without a "Battery:" line there is no status |
| HeadphoneBattery.HeadsetLinePanics | src/bin/headphone_battery.rs:99-100 | `parts[1]` panics exactly on a "Battery:" line without a space |
| HeadphoneBattery.HeadsetReadsStatus | src/bin/headphone_battery.rs:90-95 | the line headsetcontrol prints for a status reads back as that status |
| HeadphoneBattery.InnerTextNoSpace | src/bin/headphone_battery.rs:42-45 | the inner text of a status holds no space |
| HeadphoneBattery.FieldReadsStatus | src/bin/headphone_battery.rs:104-118 | "Charging" and a percentage followed by '%' read back as the status |
| HeadphoneBattery.HeadsetField | src/bin/headphone_battery.rs:98-100 | a "Battery:" line with one space splits into the label and its field, and the field decides |
| HeadphoneBattery.TrimOneTrailing | src/bin/headphone_battery.rs:113 | `trim_end_matches` drops one trailing sign after text not ending in it |
| HeadphoneBattery.SplitAfterField | src/bin/headphone_battery.rs:99 | a line with one separator splits into the two pieces around it |
| HeadphoneBattery.BluetoothCtl | src/bin/headphone_battery.rs:126-161 | the loop returns the percentage of the first "Battery Percentage:" line, or none for a failed command or no such line |
| HeadphoneBattery.BluetoothFirstLine | src/bin/headphone_battery.rs:143-157 | the first "Battery Percentage:" line decides, whatever follows it |
| HeadphoneBattery.BluetoothNoLine | src/bin/headphone_battery.rs:160 | without a "Battery Percentage:" line there is no status |
| HeadphoneBattery.BluetoothLinePanics | src/bin/headphone_battery.rs:147-148 | `parts[1]` panics exactly on a line without '(' |
| HeadphoneBattery.BluetoothReadsPercentage | src/bin/headphone_battery.rs:136-142 | a line "... (100)" reads as the percentage in the brackets |
| HeadphoneBattery.ReportOf | src/bin/headphone_battery.rs:38-54 | the default empty status exactly when no battery status was found |
| HeadphoneBattery.Run | src/bin/headphone_battery.rs:25-57 | bluetoothctl is asked exactly when headsetcontrol found no status; a panic in either parser ends the run; otherwise the status found is reported |
| NetInfo.FindFamily | src/bin/netinfo.rs:64-67 | the first address entry of the family; None exactly when no entry has it |
| NetInfo.AddressPreference | src/bin/netinfo.rs:63-82 | an IPv4 address is preferred, IPv6 is the fallback, and no address means the interface is left out |
| NetInfo.TypeOf | src/bin/netinfo.rs:87-94 | ethernet exactly for names starting with 'e', wireless exactly for names starting with 'w', VPN otherwise |
| NetInfo.SymbolsDistinct | src/bin/netinfo.rs:96-101 | the three network types get three different symbols |
| NetInfo.LevelGlyph | src/bin/netinfo.rs:153-160 | the error marker exactly for levels outside 20–90 |
| NetInfo.StrengthMonotone | src/bin/netinfo.rs:121-130 | a weaker signal never shows more bars, and equal bars mean the same glyph |
| NetInfo.WifiStrength | src/bin/netinfo.rs:131-161 | the marker is a space and one glyph |
| NetInfo.StrengthError | src/bin/netinfo.rs:135-151 | a failed command, no match, a capture that is not a number, or a level outside 20–90 give the error marker, and nothing else does |
| NetInfo.EntryShown | src/bin/netinfo.rs:52-82 | an interface is shown exactly when it is not the loopback, is up with addresses, and has an IPv4 or IPv6 address |
| NetInfo.EntryShape | src/bin/netinfo.rs:103-109 | the entry is the symbol, the strength (empty for ethernet and VPN), a space, the name, ": " and the address |
| NetInfo.EntriesTo | src/bin/netinfo.rs:50-110 | no more entries than interfaces |
| NetInfo.EntriesFromShown | src/bin/netinfo.rs:109 | every entry is the entry of one of the interfaces |
| NetInfo.ShownInEntries | src/bin/netinfo.rs:109 | every shown interface contributes its entry |
| NetInfo.NoEntries | src/bin/netinfo.rs:112-113 | "No network" exactly when no interface is shown |
| NetInfo.EntryOf | src/bin/netinfo.rs:53-109 | the loop body gives the interface's entry, or continues |
| NetInfo.Run | src/bin/netinfo.rs:50-116 | the line printed is the entries joined with ", ", or "No network" |
| NetInfoLegacy.LegacySymbolsDistinct | rust/src/bin/netinfo.rs:79-85 | ethernet, wireless and other interfaces get three different symbols |
| NetInfoLegacy.SameInterfaceShown | rust/src/bin/netinfo.rs:45-86 | both versions show the same interfaces, and the older entry ends with the name and the same address |
| NetInfoLegacy.LegacyEntriesTo | rust/src/bin/netinfo.rs:43-87 | no more entries than interfaces |
| NetInfoLegacy.SameEntryCount | rust/src/bin/netinfo.rs:89-93 | both versions print as many entries, so "No network" in one exactly when in the other |
| NetInfoLegacy.LegacyEntryOf | rust/src/bin/netinfo.rs:46-86 | the loop body gives the older entry of the interface, or continues |
| NetInfoLegacy.LegacyRun | rust/src/bin/netinfo.rs:43-93 | the line printed is the older entries joined with ", ", or "No network" |
| FindRepos.PathJoin | src/bin/f.rs:116 | joining keeps the path's kind and appends one component |
| FindRepos.CheckExcluded | src/bin/f.rs:106-112 | the exclusion loop stops the search exactly when an excluded path is a prefix of the path |
| FindRepos.PathAt | src/bin/f.rs:146-151 | the path of a directory reached by a walk extends the start path by one component per step |
| FindRepos.FromMember | src/bin/f.rs:143-161 | what the entries give comes from one of them |
| FindRepos.FromIncludes | src/bin/f.rs:143-161 | what any entry gives is kept |
| FindRepos.DiscoverSound | src/bin/f.rs:99-162 | every path recorded is a repository the search reaches: a ".git" directory, not excluded, at the end of a walk through entered directories |
| FindRepos.StepIn | src/bin/f.rs:151 | a walk into an entered directory's subdirectory followed by a walk below it is a walk of the search |
| FindRepos.DiscoverComplete | src/bin/f.rs:99-162 | every repository the search reaches is recorded |
| FindRepos.WalkDepth | src/bin/f.rs:125-129 | the search never walks more than `max_depth` levels below its start |
| FindRepos.RecordedBounds | src/bin/f.rs:106-129 | every recorded path lies below the start path, at most `max_depth` components deeper, and is not excluded |
| FindRepos.RepoList.constructor | src/bin/f.rs:54 | the list starts empty |
| FindRepos.RepoList.DiscoverRepos | src/bin/f.rs:99-162 | pushes the repositories the search finds after those already listed |
| FindRepos.PartsLeTotal | src/bin/f.rs:60 | any two paths are ordered one way or the other |
| FindRepos.PartsLeTransitive | src/bin/f.rs:60 | the path order is transitive |
| FindRepos.PathLeIsTotalPreorder | src/bin/f.rs:60 | the order `repos.sort()` uses is total and transitive |
| FindRepos.SortedRepos | src/bin/f.rs:59-60 | the printed list is in ascending path order and holds every repository found, as often as found |
| FindRepos.ShortNameSuffix | src/bin/f.rs:65-83 | the short name is always the end of the full path |
| FindRepos.EndsWithAppend | src/bin/f.rs:80 | a suffix of the last part is a suffix of the whole |
| FindRepos.JoinEndsWithLastTwo | src/bin/f.rs:79-81 | a path of two or more components ends with its parent's name, the separator and its base name |
| FindRepos.Names | src/bin/f.rs:63-84 | one formatted name per repository, in order |
| FindRepos.FindReposMain | src/bin/f.rs:54-88 | the text printed is the sorted repositories of all start paths, formatted, joined with line feeds |
| Arith.TruncDiv | src/bin/polizei.rs:199 | Rust's `/` on `i64`: the quotient rounded toward zero, equal to Euclidean division for non-negative operands |
| Arith.TruncRem | src/bin/polizei.rs:198 | Rust's `%` on `i64`: quotient times divisor plus remainder is the dividend, the remainder is smaller than the divisor and has the dividend's sign |
| Text.Split | src/fs.rs:36 | `split` gives at least one piece and no piece holds the separator |
| Text.SplitCount | src/fs.rs:36 | one piece more than there are separators |
| Text.JoinSplit | rust/src/file.rs:6 | the pieces joined with the separator give back the text |
| Text.SplitJoin | src/fs.rs:48 | splitting a join of separator-free pieces gives back the pieces |
| Text.Lines | src/bin/print_todo.rs:27 | `lines` gives pieces without a line feed |
| Text.StripCr | src/bin/print_todo.rs:27 | `lines` drops at most one carriage return at the end of a line |
| Text.TrimStartSpec | src/bin/print_todo.rs:54 | `trim` at the start drops exactly the leading whitespace |
| Text.TrimEndSpec | src/bin/print_todo.rs:54 | `trim` at the end drops exactly the trailing whitespace |
| Text.BlankIffAllWhitespace | src/fs.rs:47 | a string is blank after trimming exactly when it is all whitespace |
| Text.TrimEndMatchesSpec | src/bin/headphone_battery.rs:113 | `trim_end_matches` drops exactly the trailing copies of the character |
| Text.TrimStartMatchesSpec | src/bin/clean_names.rs:91-93 | leading copies of the character are dropped and nothing else |
| Text.ToLowerAscii | src/bin/polizei.rs:133 | lowercasing keeps the length and maps exactly the letters A–Z to a–z |
| Text.ContainsAt | src/bin/polizei.rs:133 | a substring found at a position is contained |
| Text.ContainsChar | src/bin/polizei.rs:133 | every character of a contained substring is in the text |
| Text.ContainsMiddle | src/bin/polizei.rs:133 | a text contains its middle piece |
| Text.ContainsAdjacent | src/bin/polizei.rs:133 | a text contains two adjacent middle pieces together |
| Text.ParseUsize | src/bin/headphone_battery.rs:113 | a parsed `usize` is below the `usize` limit |
| Text.ParseUsizeFormat | src/bin/headphone_battery.rs:113 | a formatted number parses back to itself |
| Text.NatToString | src/bin/headphone_battery.rs:44 | a formatted number starts with a digit and has one digit exactly below 10 |
| Text.NatToStringValue | src/bin/headphone_battery.rs:44 | the formatted number is all digits and its digits spell the number |
| Text.IntToString | src/bin/humanizer.rs:69 | a formatted integer starts with '-' exactly when it is negative |
| Text.Pad2 | src/bin/humanizer.rs:71 | `{:02}` pads one digit with a zero and leaves the other numbers as formatted |
| Text.StrLeTotal | src/fs.rs:46 | any two strings are ordered one way or the other |
| Text.StrLeTransitive | src/fs.rs:46 | the string order is transitive |
| Text.StrLeAntisymmetric | src/fs.rs:46 | strings ordered both ways are equal |
| Sorting.Filter | src/fs.rs:47 | `retain` never lengthens the list |
| Sorting.FilterSpec | src/fs.rs:47 | `retain` keeps exactly the elements that pass, and only elements of the list |
| Sorting.FilterAll | src/fs.rs:47 | when every element passes, `retain` changes nothing |
| Sorting.FilterCount | src/fs.rs:47 | a passing element keeps all its copies, a failing one none |
| Sorting.FilterSorted | src/fs.rs:46-47 | `retain` after `sort` keeps the order sorted |
| Sorting.FilterAppend | src/fs.rs:47 | `retain` works piece by piece |
| Sorting.FilterSingleton | src/fs.rs:47 | `retain` on one element keeps it exactly when it passes |
| Sorting.Insert | src/fs.rs:46 | inserting adds exactly the element |
| Sorting.Sort | src/fs.rs:46 | sorting is a permutation |
| Sorting.InsertSorted | src/fs.rs:46 | inserting into a sorted list keeps it sorted |
| Sorting.InsertFrom | src/fs.rs:46 | every element after an insert is the inserted one or one of the list |
| Sorting.SortSorted | src/fs.rs:46 | the sorted list is in order for a total preorder |
| Sorting.SortOfSorted | src/fs.rs:46 | sorting a sorted list changes nothing |
| Sorting.InsertStable | src/timer.rs:69 | inserting keeps the order among equal elements and puts the new one last |

## Left out

- Clocks: `Instant`, `Utc::now` and the minutes since a timer started are parameters. The phases' `start_time` fields only feed the clock, so they are not modelled.
- Notifications, `println!` output, logging and the status-bar JSON (`CustomI3Status`, `I3State` serialisation): the model returns the text or state that would be printed or sent.
- Subprocesses: pacman, `headsetcontrol`, `bluetoothctl`, `ip -j addr`, `iwconfig`, `pactl` and `pw-dump`.
  - Each command's outcome is passed in: an install or uninstall result, a command's standard output (`None` for a failed command), or the already decoded data.
- JSON decoding with serde: interfaces and PipeWire records arrive decoded. The pw-dump filter works over an abstract JSON datatype, and the conversion of one object into a node or device record is a function parameter.
- NetInfo.WifiStrength: the `Signal level=-(\d*) dBm` regular expression is not modelled. The text it captures, or its absence, is the parameter. The level parse and the level-to-bars mapping are modelled.
- StaggeredBackups.Run: these steps are not modelled:
  - the date-extraction regex and `NaiveDateTime::parse_from_str`; each file arrives with its parsed date-time, or `None` when either step fails;
  - the recursive mode over leaf directories (`find_leaf_dirs`);
  - the table printing and `remove_file`.
  - The calendar (weekday, day of month, month length) is a parameter of `StaggeredBrackets`.
- The file system: reading and writing the package list, `rename` in the name cleaner, `read_dir` and `.git` checks in the repository finder, and reading the todo file.
  - File contents are strings, and a missing todo file is `None`.
  - The directory tree of the finder is an abstract datatype.
  - Symbolic links and `..` or `.` path components are not represented.
  - Tilde expansion of paths (`expand`, `shellexpand`) is left out; paths are strings.
- Text.ToLowerAscii: lowercases only the letters A–Z, where Rust's `to_lowercase` also lowercases non-ASCII letters. Non-ASCII letters in a command line stay as they are in the model.
- Integer widths: integers are unbounded, so `usize` and `i64` overflow is not modelled. Two exceptions:
  - the humanizer's range check: chrono's `try_seconds` error is modelled, and so is the older script's panic;
  - `parse::<usize>`: it rejects numbers at or above the `usize` limit.
  - Rust's `{:02}` and its truncating `/` and `%` are written out.
- Timer.PhaseTimer.CalculateActionAtTime: requires that every recurring phase already reached has a positive interval. In the code an interval of 0 divides by zero at src/timer.rs:134 and panics. `Timer.Winner`, `Timer.StepPhases` and the lemmas about them carry the same requirement. Polizei adds a recurring phase only with a positive interval, so no caller reaches that panic.
- DehnPolizei.StretchTimer.CalculateNotificationAtTime: requires that, once the stretch interval is reached, the minute passed in is not before the last notification. In the code, `current - last_notification_minutes` is then a `usize` subtraction that would underflow.
- Blur: these parts are not modelled:
  - taking the screenshot, decoding and encoding the image, and running `i3lock`;
  - rayon's parallel bands, which the model runs one after another in order (they write disjoint rows);
  - the panic of `par_chunks_mut` on a chunk size of zero (an image of width 0, or a scale of 0), which `BlurImage` excludes by requiring `width > 0` and `scale > 0`.
  - The row-major `u8` buffer is a two-dimensional array of pixels, because every slice the code takes is a whole number of pixels.
- Polizei: the map from game to timer is a value (`map<string, seq<Phase>>`), not shared objects. `elapsed_minutes` of the notification text is the round's minute minus the game's start minute.
- Sink: the `pactl` commands are not modelled: their standard output is passed in. This covers reading the default sink, listing the sink inputs and moving each input. The desktop notification sent when the current sink is not found is left out too; the model returns the error.
- NetInfoLegacy: the older `netinfo` writes its three symbols as mis-decoded UTF-8 text. The model keeps those exact characters rather than the glyphs they were meant to be.
- Concurrency: no part of these tools shares state between threads except the blur bands above.

## Findings

| source | as written | input that shows it | evidently intended | confidence | as-written member | corrected member |
|---|---|---|---|---|---|---|
| src/bin/polizei.rs:43 | the binary "OxygenNotIncluded" is compared, unchanged, against the lowercased command line (line 133), so it can never match | any process whose command line runs OxygenNotIncluded.exe: the game is never found and never timed | the game's binary matched ignoring case, as every other entry is written in lower case | not executed | Polizei.OxygenNotIncludedNeverFound | Polizei.OxygenNotIncludedFoundIgnoringCase |
| src/bin/staggered_backups.rs:299-303 | the monthly brackets start at the month of `last_weekly_bracket` after the weekly loop, one week before the oldest weekly bracket, so the days from the end of that month to the oldest weekly start lie in no bracket, and a backup dated in them makes the run fail with a file "in the future" of the first monthly bracket | today 2025-04-02 and one backup from 2024-10-03: the oldest weekly bracket starts 2024-10-07 and the monthly brackets start with September 2024, so 2024-10-01 to 2024-10-06 is uncovered (the model's counterexample: a 30-day calendar, today day 422, backup day 242) | the monthly brackets start at the month of the day before the oldest weekly bracket, leaving no gap | not executed | StaggeredBrackets.MonthlyGapFails | StaggeredBrackets.CorrectedLeavesNoGap |

The poll round (`Polizei.Matched` and the round built on it) follows `main` as written, so it never finds Oxygen Not Included. The corrected match is defined beside it, and `Polizei.MatchedUnlessOxygen` proves that the two agree on every command line where the corrected match does not pick that game.
