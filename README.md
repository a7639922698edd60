# Alarm clock add-on: the cron scheduler and the alarm-to-job translation

This project models the scheduling core of a media-centre alarm clock add-on. The core has two parts.

The first is a minute-resolution cron scheduler (`resources/lib/cronjobs.py`):

- Each job holds five time fields: minute, hour, day, month and weekday.
- A field is either the match-everything `AllMatch` set or a set of integers.
- A job fires its action when every field contains the matching component of a timestamp.
- `CronTab` holds a job list and an enabled flag.
- Its `start` loop keeps a virtual clock. The clock starts at the current time truncated to the minute.
- Each iteration checks every job against the clock, advances the clock by one minute, and sleeps if the wall clock is still behind.

The second is the add-on object (`default.py`). It reads the settings of five alarms and turns each enabled alarm into jobs:

- a start job;
- when the alarm turns itself off, also a stop job.

It then hands the whole list to the crontab.

The project has five modules:

- `Wrappers`: the `Option` and `Result` types.
- `PyInt`: Python 2's `int()` on a string, and the `%d` formatting used to build setting names. An integer literal may have white space around it. It may have a sign, which white space may follow, and then one or more decimal digits. Anything else is an error.
- `Calendar`: the part of Python's `datetime` that the scheduler uses:
  - timestamps at minute resolution;
  - adding one minute, carrying through hour, day, month and year on the proleptic Gregorian calendar;
  - `weekday()` from the proleptic ordinal, with 0 for Monday;
  - truncating a wall-clock reading to the minute;
  - comparing a reading with a timestamp.
- `CronJobs`: the scheduler.
  - `Run` is the loop as a function over a bounded sequence of host steps.
  - The class `CronTab` keeps the job list and the flag as fields.
  - `CronTab.Start` is the loop as a method; its result is proved equal to `Run`.
- `AlarmAddon`: the settings as a map from names to strings, and the translation into jobs (`AlarmJobs`, `Alarms`). The class `AlarmClock` owns the crontab. `GetAlarms` is a loop proved equal to `Alarms`.

Interaction with the host is passed in as data:

- A wall-clock reading is a timestamp plus the microseconds into that minute.
- Each loop iteration gets one `HostStep`, which holds:
  - the host's abort flag;
  - the reading taken after the checks;
  - what the add-on's other thread did during the iteration: nothing, `stop`, or assigning a new job list.
- Firing an action is recorded as an `Invoked` event holding the action tag, its arguments and its keyword arguments.
- A sleep is recorded as a `Slept` event holding the delay in microseconds.

The stop job's time is modelled as the source computes it: `minute + duration % 60` and `hour + duration / 60`. There is no carry and no wrap-around. A stop time past 23:59 or with a minute of 60 or more therefore never matches, and `StopJobOutOfRangeNeverFires` proves this.

Python's `/` and `%` floor toward negative infinity. For the divisor 60 this agrees with Dafny's Euclidean operators, so the model uses them directly.

## Model

| member | source | states |
|---|---|---|
| CronJobs.AllMatchContainsEverything | resources/lib/cronjobs.py:46-51 | every integer is a member of `AllMatch`, including values outside any field's range |
| CronJobs.Contains | resources/lib/cronjobs.py:46-51 | membership in a time field: every value for `AllMatch`, set membership otherwise; its properties are `AllMatchContainsEverything` and the contract of `ConvToSet` |
| CronJobs.ConvToSet | resources/lib/cronjobs.py:57-64 | the normalised field contains exactly the values the argument denotes; a set (including `AllMatch`) comes back unchanged; any other argument becomes a plain value set |
| CronJobs.ConvToSetOfScalar | resources/lib/cronjobs.py:60-61 | an integer `n` becomes the set `{n}` (the case asserted by resources/lib/tests/test_cronjobs.py:8-10) |
| CronJobs.ConvToSetIdempotent | resources/lib/cronjobs.py:62-64 | normalising an already normalised field changes nothing |
| CronJobs.ConvToSetIgnoresOrder | resources/lib/cronjobs.py:62-63 | two iterables with the same elements, in any order and with any repetition, give the same set |
| CronJobs.NewJob | resources/lib/cronjobs.py:66-78 | a job keeps its action and positional arguments; missing keyword arguments become the empty map |
| CronJobs.IsMatchtime | resources/lib/cronjobs.py:86-92 | the five-field test of a job against a timestamp; `NewJobMatchesIff` states it against the constructor arguments, `NineOClockJob` and `MondayJob` on concrete times |
| CronJobs.DefaultJobMatchesEverything | resources/lib/cronjobs.py:66-68 | a job built with no time arguments matches every valid timestamp |
| CronJobs.NewJobMatchesIff | resources/lib/cronjobs.py:86-92 | a job matches a timestamp if and only if minute, hour, day, month and weekday each satisfy the corresponding constructor argument |
| CronJobs.NineOClockJob | resources/lib/cronjobs.py:86-92 | a job for minute 0 and hour 9 matches exactly at 09:00 on any day, and not at 09:01 or 08:00 |
| CronJobs.MondayJob | resources/lib/cronjobs.py:92 | weekdays count from 0 for Monday: a weekday-0 job matches on Monday 2024-01-01 and not on Sunday 2024-01-07 |
| CronJobs.Check | resources/lib/cronjobs.py:94-97 | checking a job fires exactly one invocation with its action, arguments and keyword arguments when it matches, and nothing when it does not |
| CronJobs.CheckAll | resources/lib/cronjobs.py:31-35 | one round of checks over the job list; `CheckAllAppend`, `CheckAllFiresOnlyMatching`, `CheckAllFiresEveryMatching`, `CheckAllSilentIff` and `TwoMatchingJobsFireInOrder` state what it fires, and `CheckJobs` is its loop |
| CronJobs.CheckAllAppend | resources/lib/cronjobs.py:31-35 | checking a concatenated list is checking each part in turn |
| CronJobs.CheckAllFiresOnlyMatching | resources/lib/cronjobs.py:31-35 | every event of a round of checks is an invocation of a job in the list that matches the timestamp |
| CronJobs.CheckAllFiresEveryMatching | resources/lib/cronjobs.py:31-35 | every job in the list that matches the timestamp fires in that round |
| CronJobs.CheckAllSilentIff | resources/lib/cronjobs.py:31-35 | a round fires nothing if and only if no job in the list matches |
| CronJobs.TwoMatchingJobsFireInOrder | resources/lib/cronjobs.py:31-35 | two matching jobs fire in list order |
| CronJobs.CheckJobs | resources/lib/cronjobs.py:31-35 | the `for` loop over the job list produces exactly the events of `CheckAll` |
| CronJobs.Tick | resources/lib/cronjobs.py:30-43 | one loop body leaves the virtual clock a valid timestamp |
| CronJobs.SleepUntil | resources/lib/cronjobs.py:38-43 | the sleep after a tick; `TickProperties` states that it happens if and only if the reading is before the advanced clock, at most once and for a positive time |
| CronJobs.TickProperties | resources/lib/cronjobs.py:30-43 | without a host, or with an abort requested, an iteration checks nothing and leaves the clock where it was. Otherwise it checks every job in order against the same unadvanced timestamp, moves the clock on by exactly one minute, and then sleeps at most once. It sleeps if and only if the wall clock is before the new virtual time, and then for a positive delay |
| CronJobs.CheckAndAdvance | resources/lib/cronjobs.py:30-43 | the method form of one running iteration: the checks, then the sleep against the clock advanced to `NextMinute` |
| CronJobs.Run | resources/lib/cronjobs.py:29-43 | the loop over a bounded sequence of host steps; `RunAdvancesClockPerTick`, `RunExitsOnlyWhenDisabled`, `RunStopsAfterStopCommand`, `RunSleepsOnlyWhenAhead`, `RunWithoutJobsFiresNothing` and `RunIndependentOfWallClock` state its properties, and `CronTab.Start` is proved equal to it |
| CronJobs.RunAdvancesClockPerTick | resources/lib/cronjobs.py:29-37 | after the loop, the virtual clock is exactly as many minutes past its start as there were iterations that checked the jobs, whatever the wall clock did |
| CronJobs.RunExitsOnlyWhenDisabled | resources/lib/cronjobs.py:29 | the loop ends before the host steps run out only when the flag is down, and a stopped crontab runs no iteration |
| CronJobs.RunStopsAfterStopCommand | resources/lib/cronjobs.py:22-29 | a `stop` during iteration k lets at most k + 1 iterations run and leaves the crontab disabled |
| CronJobs.RunSleepsOnlyWhenAhead | resources/lib/cronjobs.py:38-43 | every sleep of the run belongs to an iteration `i` that ran its checks and whose reading was before the clock at the end of that iteration (`ClockAfter`, the clock of the run cut after step `i`). The sleep lasts exactly from the reading to that clock, so it is positive. The two conditions together are the predicate `SleepJustified` |
| CronJobs.RunWithoutJobsFiresNothing | resources/lib/cronjobs.py:31-35 | a crontab with no jobs, which is only ever given the empty list again, only sleeps |
| CronJobs.RunIndependentOfWallClock | resources/lib/cronjobs.py:28-43 | two runs from the same state whose host steps differ only in the wall-clock readings give the same invocations in the same order, the same final clock and the same final state; no minute is skipped or replayed when the loop falls behind |
| CronJobs.CronTab.constructor | resources/lib/cronjobs.py:17-20 | a new crontab has no jobs and is enabled |
| CronJobs.CronTab.Stop | resources/lib/cronjobs.py:22-24 | `stop` lowers the flag and leaves the job list as it was; calling it again changes nothing |
| CronJobs.CronTab.Start | resources/lib/cronjobs.py:26-43 | the loop, started from the reading truncated to the minute, produces the trace, final clock, iteration count, job list and flag of `Run` |
| Calendar.DaysInMonth | resources/lib/cronjobs.py:37 | month lengths lie between 28 and 31 |
| Calendar.NextMinute | resources/lib/cronjobs.py:37 | adding one minute to a valid timestamp gives a valid timestamp |
| Calendar.NextMinuteIsOneMinuteLater | resources/lib/cronjobs.py:37 | adding one minute increases the absolute minute count by exactly one, across hour, day, month and year boundaries and leap days |
| Calendar.NextMinuteOrdinal | resources/lib/cronjobs.py:37 | the day number increases by one exactly when the time is 23:59, and stays the same otherwise |
| Calendar.NextMinuteWeekday | resources/lib/cronjobs.py:37 | the weekday moves on by one (mod 7) exactly at midnight |
| Calendar.Weekday | resources/lib/cronjobs.py:92 | the weekday lies between 0 and 6 |
| Calendar.KnownWeekdays | resources/lib/cronjobs.py:92 | 2024-01-01 is weekday 0 (Monday) and 2024-01-07 is weekday 6 (Sunday) |
| Calendar.TruncateToMinute | resources/lib/cronjobs.py:28 | the truncated reading is a valid timestamp at or before the reading and less than a minute before it |
| Calendar.ReadingBeforeIff | resources/lib/cronjobs.py:38 | a reading is before a whole-minute timestamp if and only if the reading's own minute is before it |
| PyInt.NatToString | default.py:42 | `%d` of a natural number is a non-empty string of digits without a leading zero |
| PyInt.ParseInt | default.py:51 | `int()` on a setting's text; `ParseIntOfIntToString`, `ParseIntIgnoresSurroundingSpace`, `ParseIntSpaceAfterSign` and the example lemmas state what it accepts and what it rejects |
| PyInt.ParseIntOfIntToString | default.py:51 | `int()` reads back every integer that `%d` writes |
| PyInt.ParseIntIgnoresSurroundingSpace | default.py:51 | for any text, white space of any length before and after it does not change what `int()` reads |
| PyInt.ParseIntSpaceAfterSign | default.py:51 | a sign, any white space and one or more digits read as the digits' value, negated for `-` |
| PyInt.ParseIntSignedExamples | default.py:51 | `int("+ 30")` is 30 and `int("- 5")` is -5 |
| PyInt.ParseIntPaddedExample | default.py:51 | `int(" 07\n")` is 7 |
| PyInt.ParseIntRejectsExamples | default.py:51 | `int("5 5")`, `int("+")` and `int("+-5")` are errors |
| PyInt.ParseIntEmpty | default.py:51 | `int()` of an empty setting is an error |
| AlarmAddon.IntSetting | default.py:51 | an integer setting succeeds if and only if `int()` accepts its text, and then has that value; otherwise the error names the setting and its text |
| AlarmAddon.DaysOfWeek | default.py:51-55 | the weekday field for a day code; `DaysOfWeekMembers` states which weekdays it contains |
| AlarmAddon.DaysOfWeekMembers | default.py:51-55 | code 7 is weekdays 0 to 4, code 8 is weekdays 0 to 6, any other code is that single weekday |
| AlarmAddon.StartJob | default.py:63-68 | the start job plays with arguments `[file name, volume]` and no keyword arguments |
| AlarmAddon.FileName | default.py:57-61 | the played item: `fileN` when `actionN` is "0", `textN` otherwise; `AlarmJobsShape` states that the start job carries it |
| AlarmAddon.StartJobMatchesIff | default.py:63-68 | the start job matches exactly at the alarm's minute and hour, on any day of any month, on the mapped weekdays |
| AlarmAddon.StopJob | default.py:70-78 | the stop job has the stop tag, no arguments, and the same weekday set as the start job |
| AlarmAddon.StopMinute | default.py:72-74 | the uncarried stop minute; `StopTimeIsDurationLater`, `StopTimeExamples` and `StopJobOutOfRangeNeverFires` state its properties |
| AlarmAddon.StopHour | default.py:75-77 | the unwrapped stop hour; same lemmas as `StopMinute` |
| AlarmAddon.StopJobMatchesIff | default.py:71-78 | the stop job matches exactly at minute `minute + duration % 60` and hour `hour + duration / 60` on the mapped weekdays |
| AlarmAddon.StopTimeIsDurationLater | default.py:71-78 | the stop time, read as hours times 60 plus minutes, is exactly `duration` minutes after the start, and its minute field is less than 60 above the start minute |
| AlarmAddon.StopJobOutOfRangeNeverFires | default.py:71-78 | a stop time with minute of 60 or more, or hour of 24 or more, never matches any timestamp |
| AlarmAddon.StopTimeExamples | default.py:71-78 | 23:50 plus 60 minutes gives hour 24, and 07:45 plus 30 minutes gives minute 75 |
| AlarmAddon.AlarmJobs | default.py:47-79 | `_get_jobs` for one alarm; `AlarmJobsFailsIff` and `AlarmJobsShape` state when it fails and which jobs it returns |
| AlarmAddon.AlarmJobsFailsIff | default.py:47-79 | an alarm's jobs fail if and only if its day, minute or hour is not an integer, or it turns off and its duration is not an integer |
| AlarmAddon.AlarmJobsShape | default.py:57-79 | an alarm gives one job when it does not turn off and two when it does: first the start job with the file chosen by `actionN`, then the stop job |
| AlarmAddon.AlarmsFromFailsIff | default.py:41-43 | collecting alarms from n to 5 fails if and only if one of them is enabled and malformed |
| AlarmAddon.AlarmsFailsIff | default.py:39-45 | collecting alarms 1 to 5 fails if and only if an enabled alarm is malformed; disabled alarms are never read |
| AlarmAddon.AlarmsFromNoneEnabled | default.py:41-43 | with no alarm from n to 5 enabled, no jobs are collected |
| AlarmAddon.AlarmsOfSingleAlarm | default.py:39-45 | with exactly one alarm enabled, the list is that alarm's jobs |
| AlarmAddon.AlarmsBeforeDisabled | default.py:41-42 | disabled alarms contribute nothing and do not change the result |
| AlarmAddon.AlarmsFromEnabled | default.py:41-43 | an enabled alarm either stops the collection with its error or appends its jobs before the later alarms' jobs |
| AlarmAddon.AlarmsFrom | default.py:41-43 | the jobs of the enabled alarms n to 5; `AlarmsFromFailsIff`, `AlarmsFromNoneEnabled`, `AlarmsBeforeDisabled` and `AlarmsFromEnabled` state its properties |
| AlarmAddon.Alarms | default.py:37-45 | `_get_alarms`; `AlarmsFailsIff` and `AlarmsOfSingleAlarm` state its properties, and `AlarmClock.GetAlarms` is proved equal to it |
| AlarmAddon.AlarmClock.constructor | default.py:20-22 | the add-on object starts with the given settings and a fresh, enabled, empty crontab bound to the host |
| AlarmAddon.AlarmClock.GetAlarms | default.py:37-45 | the loop over alarms 1 to 5 returns exactly `Alarms` of the current settings: the enabled alarms' jobs concatenated in ascending order, or the first error |
| AlarmAddon.AlarmClock.ApplySettings | default.py:24-27 | the settings are re-read and the crontab's job list is replaced wholesale by the new list. On an error the job list is kept and the error is returned. The flag is untouched |
| AlarmAddon.AlarmClock.Start | default.py:29-31 | starting the add-on runs the crontab's loop, with the same result as `Run` |
| AlarmAddon.AlarmClock.Stop | default.py:33-35 | stopping the add-on disables the crontab and keeps its jobs |

## Left out

- The host modules' imports and the add-on path setup (default.py:3-13) are not modelled. The host is reduced to a flag: present or absent.
- `_start_playing` and `_stop_playing` (default.py:81-94) call the media player. They are the opaque action tags `StartPlaying` and `StopPlaying`.
- Arbitrary callables are not modelled. An action is a name, and its arguments are strings.
- Actions never raise in the model. In the source, an action that raises inside the checks (resources/lib/cronjobs.py:35, 97) skips the tick's later jobs and ends `start`, and with it the add-on. `_start_playing` makes its player calls outside its `try` (default.py:89-90).
- `AlarmClockMonitor` and `main` (default.py:97-122) are host callbacks run on another thread. Their effects (a new job list, `stop`) are modelled as a command applied at the end of a loop iteration. Interleavings inside an iteration are not modelled.
- `CronJobs.Command.ReplaceJobs` carries an arbitrary job list. The model does not tie it to the settings held by `AlarmClock`, so after `AlarmClock.Start` the crontab's jobs need not equal `Alarms` of `AlarmClock.settings`.
- The second `datetime.now()` call, which computes the sleep length, is not modelled. The same `.seconds * 1000` conversion to milliseconds is left out too. The model sleeps for the difference between the virtual clock and the reading that was compared, in microseconds.
- `CronJobs.CheckAndAdvance`: its sleep does not capture the case where the wall clock passes the virtual clock between the comparison (resources/lib/cronjobs.py:38) and the subtraction (resources/lib/cronjobs.py:40-41). There the source takes `.seconds` of a negative interval, which is close to 86400, so the loop would sleep for about a day.
- Sleeping itself, `time.sleep` and `xbmc.sleep` are not modelled. The `time.sleep` branch (resources/lib/cronjobs.py:42-43) is unreachable inside the `if self.xbmc` guard, so it is not modelled either.
- `CronJobs.CronTab.Start` runs for at most as many iterations as host steps are supplied. The unbounded loop of the source is the limit of these runs.
- Logging and `Job.__str__` (resources/lib/cronjobs.py:32-34, 80-84; default.py:44) are not modelled.
- `datetime` raises an error past year 9999; years in the model are unbounded.
- Seconds and microseconds of the virtual clock are always zero, so timestamps carry neither.
- `PyInt.ParseInt` accepts only ASCII whitespace, an optional sign and ASCII digits. Python 2's `int()` also accepts Unicode digits and whitespace. Settings are byte strings there, so these cases do not arise.
- `PyInt.ParseInt` does not single out literals too large for a machine word, which Python 2 passes on to its long-integer parser; the model reads them by the same rule as other literals.
- `AlarmAddon.AlarmClock.ApplySettings`: a malformed setting raises `ValueError` in the source and the exception leaves `apply_settings`. The model returns the error instead. The job list is untouched in both.
- Re-reading the add-on object (`xbmcaddon.Addon()`, default.py:26) is modelled as passing in the new settings map.
