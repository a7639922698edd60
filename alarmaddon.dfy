/**
 * The alarm clock add-on: how the five alarms in its settings become crontab jobs, and the
 * object that owns the crontab and refreshes its jobs when the settings change.
 */
module AlarmAddon {
  import opened Wrappers
  import opened PyInt
  import opened Calendar
  import opened CronJobs

  /** The add-on settings as the host stores them: names to string values. */
  type Settings = map<string, string>

  /** `getSetting(name)`: the stored value, or the empty string for a name never set. */
  function Setting(settings: Settings, name: string): string {
    if name in settings then settings[name] else ""
  }

  /** `"alarm%d" % n` and the other per-alarm setting names. */
  function Key(name: string, n: nat): string {
    name + NatToString(n)
  }

  /** `int(getSetting(...))` raises `ValueError` on text that is not an integer. */
  datatype SettingError = InvalidLiteral(key: string, value: string)

  function IntSetting(settings: Settings, name: string, n: nat): (r: Result<int, SettingError>)
    ensures r.Success? <==> ParseInt(Setting(settings, Key(name, n))).Some?
    ensures r.Success? ==> r.value == ParseInt(Setting(settings, Key(name, n))).value
    ensures r.Failure? ==> r.error == InvalidLiteral(Key(name, n), Setting(settings, Key(name, n)))
  {
    var text := Setting(settings, Key(name, n));
    match ParseInt(text)
    case Some(v) => Success(v)
    case None => Failure(InvalidLiteral(Key(name, n), text))
  }

  const StartPlaying: Action := Action("_start_playing")
  const StopPlaying: Action := Action("_stop_playing")

  /** The weekday codes of the `dayN` setting: 7 is Monday to Friday (`range(5)`), 8 is every day
      (`range(7)`), and any other code is that single weekday. */
  function DaysOfWeek(code: int): FieldSpec {
    if code == 7 then Iterable([0, 1, 2, 3, 4])
    else if code == 8 then Iterable([0, 1, 2, 3, 4, 5, 6])
    else Scalar(code)
  }

  lemma DaysOfWeekMembers(code: int, w: int)
    ensures Contains(ConvToSet(DaysOfWeek(code)), w) <==>
      if code == 7 then 0 <= w < 5 else if code == 8 then 0 <= w < 7 else w == code
  {
  }

  /** What the alarm plays: the `fileN` setting when `actionN` is "0", the `textN` setting
      otherwise. */
  function FileName(settings: Settings, n: nat): string {
    if Setting(settings, Key("action", n)) == "0" then Setting(settings, Key("file", n))
    else Setting(settings, Key("text", n))
  }

  /** The stop job's minute and hour: the duration is split with Python 2's floor division and
      remainder and added field by field, with no carry into the hour and no wrap past 23. */
  function StopMinute(minute: int, duration: int): int {
    minute + duration % 60
  }

  function StopHour(hour: int, duration: int): int {
    hour + duration / 60
  }

  /** Read as minutes since midnight, the stop time is the start time plus the duration, and
      the minute grows by less than an hour. */
  lemma StopTimeIsDurationLater(hour: int, minute: int, duration: int)
    ensures StopHour(hour, duration) * 60 + StopMinute(minute, duration) == hour * 60 + minute + duration
    ensures minute <= StopMinute(minute, duration) < minute + 60
  {
  }

  /** The job that starts playing `fileName` at `volume` at hour:minute on the weekdays of `day`. */
  function StartJob(fileName: string, volume: string, day: int, minute: int, hour: int): (job: Job)
    ensures job.action == StartPlaying && job.args == [fileName, volume] && job.kwargs == map[]
  {
    NewJob(StartPlaying, Scalar(minute), Scalar(hour), dow := DaysOfWeek(day), args := [fileName, volume])
  }

  /** The job that stops playback `duration` minutes after hour:minute, on the same weekdays. */
  function StopJob(day: int, minute: int, hour: int, duration: int): (job: Job)
    ensures job.action == StopPlaying && job.args == [] && job.kwargs == map[]
    ensures job.dow == StartJob("", "", day, minute, hour).dow
  {
    NewJob(StopPlaying, Scalar(StopMinute(minute, duration)), Scalar(StopHour(hour, duration)),
           dow := DaysOfWeek(day))
  }

  /** The start job fires at its hour and minute on the weekdays its day code selects, on every
      day of the month and in every month. */
  lemma StartJobMatchesIff(fileName: string, volume: string, day: int, minute: int, hour: int, t: Timestamp)
    requires Valid(t)
    ensures IsMatchtime(StartJob(fileName, volume, day, minute, hour), t) <==>
      t.minute == minute && t.hour == hour && Contains(ConvToSet(DaysOfWeek(day)), Weekday(t))
  {
    NewJobMatchesIff(StartPlaying, Scalar(minute), Scalar(hour), SetObject(AllMatch), SetObject(AllMatch),
                     DaysOfWeek(day), [fileName, volume], None, t);
  }

  /** The stop job fires at the uncarried stop time on the same weekdays. */
  lemma StopJobMatchesIff(day: int, minute: int, hour: int, duration: int, t: Timestamp)
    requires Valid(t)
    ensures IsMatchtime(StopJob(day, minute, hour, duration), t) <==>
      t.minute == StopMinute(minute, duration) && t.hour == StopHour(hour, duration) &&
      Contains(ConvToSet(DaysOfWeek(day)), Weekday(t))
  {
    NewJobMatchesIff(StopPlaying, Scalar(StopMinute(minute, duration)), Scalar(StopHour(hour, duration)),
                     SetObject(AllMatch), SetObject(AllMatch), DaysOfWeek(day), [], None, t);
  }

  /** A stop time whose minute reaches 60 or whose hour reaches 24 names no real time of day,
      so its job never fires. For example 23:50 with 60 minutes gives hour 24, and 07:45
      with 30 minutes gives minute 75 of hour 7. */
  lemma StopJobOutOfRangeNeverFires(day: int, minute: int, hour: int, duration: int, t: Timestamp)
    requires Valid(t)
    requires StopMinute(minute, duration) >= 60 || StopHour(hour, duration) >= 24
    ensures !IsMatchtime(StopJob(day, minute, hour, duration), t)
  {
    StopJobMatchesIff(day, minute, hour, duration, t);
  }

  lemma StopTimeExamples()
    ensures StopHour(23, 60) == 24 && StopMinute(50, 60) == 50
    ensures StopHour(7, 30) == 7 && StopMinute(45, 30) == 75
  {
  }

  predicate TurnsOff(settings: Settings, n: nat) {
    Setting(settings, Key("turnOff", n)) == "true"
  }

  /** `_get_jobs(n)`: the start job, and the stop job too when `turnOffN` is "true". The
      integer settings are read in the order the source reads them, so the first malformed one
      is the error reported; the duration is read only for an alarm that turns off. */
  function AlarmJobs(settings: Settings, n: nat): Result<seq<Job>, SettingError> {
    var day :- IntSetting(settings, "day", n);
    var minute :- IntSetting(settings, "minute", n);
    var hour :- IntSetting(settings, "hour", n);
    var start := StartJob(FileName(settings, n), Setting(settings, Key("volume", n)), day, minute, hour);
    if TurnsOff(settings, n) then
      var duration :- IntSetting(settings, "duration", n);
      Success([start, StopJob(day, minute, hour, duration)])
    else
      Success([start])
  }

  /** The value of an integer setting that parses. */
  function IntOf(settings: Settings, name: string, n: nat): int {
    var r := ParseInt(Setting(settings, Key(name, n)));
    if r.Some? then r.value else 0
  }

  /** An alarm fails to produce jobs exactly when its day, minute or hour is not an integer, or
      when it turns off and its duration is not an integer. */
  lemma AlarmJobsFailsIff(settings: Settings, n: nat)
    ensures AlarmJobs(settings, n).Failure? <==>
      || ParseInt(Setting(settings, Key("day", n))).None?
      || ParseInt(Setting(settings, Key("minute", n))).None?
      || ParseInt(Setting(settings, Key("hour", n))).None?
      || (TurnsOff(settings, n) && ParseInt(Setting(settings, Key("duration", n))).None?)
  {
  }

  /** One job when the alarm does not turn off, two when it does: first the start job, which
      plays the chosen file at the alarm's volume, then the stop job for the alarm's duration. */
  lemma AlarmJobsShape(settings: Settings, n: nat)
    requires AlarmJobs(settings, n).Success?
    ensures var jobs := AlarmJobs(settings, n).value;
      var day, minute, hour := IntOf(settings, "day", n), IntOf(settings, "minute", n), IntOf(settings, "hour", n);
      && |jobs| == (if TurnsOff(settings, n) then 2 else 1)
      && jobs[0] == StartJob(FileName(settings, n), Setting(settings, Key("volume", n)), day, minute, hour)
      && (|jobs| == 2 ==> jobs[1] == StopJob(day, minute, hour, IntOf(settings, "duration", n)))
  {
  }

  /** Whether alarm `n` is switched on: its `alarmN` setting is exactly "true". */
  predicate Enabled(settings: Settings, n: nat) {
    Setting(settings, Key("alarm", n)) == "true"
  }

  /** A list of jobs put in front of a result, unless the result is an error. */
  function Prepend(jobs: seq<Job>, r: Result<seq<Job>, SettingError>): Result<seq<Job>, SettingError> {
    match r
    case Success(rest) => Success(jobs + rest)
    case Failure(e) => Failure(e)
  }

  /** The jobs of the enabled alarms among `n` .. 5, in ascending order of alarm number; the
      first error stops the whole computation. */
  function AlarmsFrom(settings: Settings, n: nat): Result<seq<Job>, SettingError>
    decreases 6 - n
  {
    if n > 5 then Success([])
    else if Enabled(settings, n) then
      match AlarmJobs(settings, n)
      case Failure(e) => Failure(e)
      case Success(jobs) => Prepend(jobs, AlarmsFrom(settings, n + 1))
    else AlarmsFrom(settings, n + 1)
  }

  /** `_get_alarms`: the jobs of alarms 1 to 5. */
  function Alarms(settings: Settings): Result<seq<Job>, SettingError> {
    AlarmsFrom(settings, 1)
  }

  /** The alarms fail exactly when one that is switched on has a malformed setting; the
      settings of alarms that are off are never read. */
  lemma {:induction false} AlarmsFromFailsIff(settings: Settings, n: nat)
    requires 1 <= n
    ensures AlarmsFrom(settings, n).Failure? <==>
      exists i :: n <= i <= 5 && Enabled(settings, i) && AlarmJobs(settings, i).Failure?
    decreases 6 - n
  {
    if n <= 5 {
      AlarmsFromFailsIff(settings, n + 1);
      if !Enabled(settings, n) || AlarmJobs(settings, n).Success? {
        assert forall i :: n <= i <= 5 && Enabled(settings, i) && AlarmJobs(settings, i).Failure? ==> n + 1 <= i;
      }
    }
  }

  lemma AlarmsFailsIff(settings: Settings)
    ensures Alarms(settings).Failure? <==>
      exists i :: 1 <= i <= 5 && Enabled(settings, i) && AlarmJobs(settings, i).Failure?
  {
    AlarmsFromFailsIff(settings, 1);
  }

  /** With every alarm switched off there are no jobs. */
  lemma {:induction false} AlarmsFromNoneEnabled(settings: Settings, n: nat)
    requires forall i :: n <= i <= 5 ==> !Enabled(settings, i)
    ensures AlarmsFrom(settings, n) == Success([])
    decreases 6 - n
  {
    if n <= 5 {
      AlarmsFromNoneEnabled(settings, n + 1);
    }
  }

  /** With only alarm `n` switched on, the jobs are exactly that alarm's. */
  lemma AlarmsOfSingleAlarm(settings: Settings, n: nat)
    requires 1 <= n <= 5 && Enabled(settings, n)
    requires forall i :: 1 <= i <= 5 && i != n ==> !Enabled(settings, i)
    ensures Alarms(settings) == AlarmJobs(settings, n)
  {
    AlarmsFromNoneEnabled(settings, n + 1);
    AlarmsBeforeDisabled(settings, 1, n);
    if AlarmJobs(settings, n).Success? {
      assert AlarmJobs(settings, n).value + [] == AlarmJobs(settings, n).value;
    }
  }

  lemma {:induction false} AlarmsBeforeDisabled(settings: Settings, from: nat, n: nat)
    requires 1 <= from <= n <= 5
    requires forall i :: from <= i < n ==> !Enabled(settings, i)
    ensures AlarmsFrom(settings, from) == AlarmsFrom(settings, n)
    decreases n - from
  {
    if from < n {
      AlarmsBeforeDisabled(settings, from + 1, n);
    }
  }

  /** One enabled alarm's step through `AlarmsFrom`, as `_get_alarms` takes it. */
  lemma AlarmsFromEnabled(settings: Settings, jobs: seq<Job>, n: nat)
    requires 1 <= n <= 5 && Enabled(settings, n)
    ensures AlarmJobs(settings, n).Failure? ==>
      Prepend(jobs, AlarmsFrom(settings, n)) == Failure(AlarmJobs(settings, n).error)
    ensures AlarmJobs(settings, n).Success? ==>
      Prepend(jobs, AlarmsFrom(settings, n)) == Prepend(jobs + AlarmJobs(settings, n).value, AlarmsFrom(settings, n + 1))
  {
    var rest := AlarmsFrom(settings, n + 1);
    if AlarmJobs(settings, n).Success? && rest.Success? {
      var more := AlarmJobs(settings, n).value;
      assert jobs + (more + rest.value) == (jobs + more) + rest.value;
    }
  }

  /** The add-on's main object: the settings last read and the crontab it feeds. */
  class AlarmClock {
    var settings: Settings
    const crontab: CronTab

    /** `AlarmClock()`: read the settings and create a crontab bound to the host. */
    constructor (current: Settings)
      ensures settings == current && fresh(crontab)
      ensures crontab.host && crontab.jobs == [] && crontab.enabled
    {
      settings := current;
      crontab := new CronTab(true);
    }

    /** `_get_alarms`: go through alarms 1 to 5 and collect the jobs of those switched on. */
    method GetAlarms() returns (r: Result<seq<Job>, SettingError>)
      ensures r == Alarms(settings)
    {
      var jobs: seq<Job> := [];
      assert AlarmsFrom(settings, 1).Success? ==> [] + AlarmsFrom(settings, 1).value == AlarmsFrom(settings, 1).value;
      for i := 1 to 6
        invariant Alarms(settings) == Prepend(jobs, AlarmsFrom(settings, i))
      {
        if Setting(settings, Key("alarm", i)) == "true" {
          var more := AlarmJobs(settings, i);
          AlarmsFromEnabled(settings, jobs, i);
          if more.Failure? {
            return Failure(more.error);
          }
          jobs := jobs + more.value;
        }
      }
      assert jobs + [] == jobs;
      return Success(jobs);
    }

    /** `apply_settings`: read the settings again and give the crontab the jobs they define.
        A malformed setting of an enabled alarm raises before the assignment, so the crontab
        keeps its old jobs. */
    method ApplySettings(current: Settings) returns (failure: Option<SettingError>)
      modifies this`settings, crontab`jobs
      ensures settings == current
      ensures Alarms(current).Success? ==> failure == None && crontab.jobs == Alarms(current).value
      ensures Alarms(current).Failure? ==>
        failure == Some(Alarms(current).error) && crontab.jobs == old(crontab.jobs)
      ensures crontab.enabled == old(crontab.enabled)
    {
      settings := current;
      var jobs := GetAlarms();
      if jobs.Failure? {
        return Some(jobs.error);
      }
      crontab.jobs := jobs.value;
      return None;
    }

    /** `start`: run the crontab's loop over the host steps supplied. */
    method Start(now: WallClock, env: seq<HostStep>) returns (trace: seq<Event>, clock: Timestamp, steps: nat)
      requires ValidReading(now) && ValidReadings(env)
      modifies crontab`jobs, crontab`enabled
      ensures var r := Run(old(crontab.jobs), old(crontab.enabled), crontab.host, TruncateToMinute(now), env);
        trace == r.trace && clock == r.clock && steps == r.steps && crontab.jobs == r.jobs && crontab.enabled == r.enabled
    {
      trace, clock, steps := crontab.Start(now, env);
    }

    /** `stop`: stop the crontab. */
    method Stop()
      modifies crontab`enabled
      ensures !crontab.enabled && crontab.jobs == old(crontab.jobs)
    {
      crontab.Stop();
    }
  }
}
