/**
 * The cron-style scheduler: jobs that match a minute-resolution timestamp against five time
 * fields, and the crontab whose loop checks every job once per virtual minute.
 */
module CronJobs {
  import opened Wrappers
  import opened Calendar

  // ---------------------------------------------------------------- time fields

  /** A normalised time field: the universal set `AllMatch`, whose membership test is true for
      every value, or an ordinary set of integers. */
  datatype TimeField = AllMatch | Values(members: set<int>)

  /** `x in field`; `AllMatch` contains everything, out-of-range values included. */
  predicate Contains(f: TimeField, x: int) {
    match f
    case AllMatch => true
    case Values(s) => x in s
  }

  lemma AllMatchContainsEverything(x: int)
    ensures Contains(AllMatch, x)
  {
  }

  /** What a caller may pass for a time field: an integer, a set (`AllMatch` is a set), or any
      other iterable of integers, such as the list `range(5)`. */
  datatype FieldSpec = Scalar(n: int) | SetObject(field: TimeField) | Iterable(items: seq<int>)

  /** The values a field specification stands for, read directly off what the caller passed. */
  predicate Denotes(spec: FieldSpec, x: int) {
    match spec
    case Scalar(n) => x == n
    case SetObject(f) => Contains(f, x)
    case Iterable(items) => x in items
  }

  /** `Job.conv_to_set`: an integer becomes the set holding it, a set is kept as it is, and any
      other iterable becomes the set of its elements. */
  function ConvToSet(obj: FieldSpec): (r: TimeField)
    ensures forall x :: Contains(r, x) <==> Denotes(obj, x)
    ensures obj.SetObject? ==> r == obj.field
    ensures !obj.SetObject? ==> r.Values?
  {
    match obj
    case Scalar(n) => Values({n})
    case SetObject(f) => f
    case Iterable(items) => Values(set x | x in items)
  }

  /** An integer `n` is normalised to a set whose only element is `n`. */
  lemma ConvToSetOfScalar(n: int)
    ensures ConvToSet(Scalar(n)) == Values({n})
  {
    var r := ConvToSet(Scalar(n));
    assert forall x :: x in r.members <==> x == n;
  }

  /** Normalising twice is normalising once. */
  lemma ConvToSetIdempotent(obj: FieldSpec)
    ensures ConvToSet(SetObject(ConvToSet(obj))) == ConvToSet(obj)
  {
  }

  /** Normalising an iterable depends only on which values it holds, not on their order or
      repetitions. */
  lemma ConvToSetIgnoresOrder(xs: seq<int>, ys: seq<int>)
    requires forall x :: x in xs <==> x in ys
    ensures ConvToSet(Iterable(xs)) == ConvToSet(Iterable(ys))
  {
    var a, b := ConvToSet(Iterable(xs)), ConvToSet(Iterable(ys));
    assert forall x :: x in a.members <==> x in b.members;
  }

  // ---------------------------------------------------------------- jobs

  /** The action a job is bound to, identified by name. */
  datatype Action = Action(name: string)

  /** One call of an action with its positional and keyword arguments. */
  datatype Invocation = Invocation(action: Action, args: seq<string>, kwargs: map<string, string>)

  /** What the loop does that can be observed: call an action, or sleep for some microseconds. */
  datatype Event = Invoked(call: Invocation) | Slept(delay: int)

  datatype Job = Job(
    mins: TimeField, hours: TimeField, days: TimeField, months: TimeField, dow: TimeField,
    action: Action, args: seq<string>, kwargs: map<string, string>)

  /** `Job(action, minute, hour, day, month, dow, args, kwargs)`: every time field defaults to
      `AllMatch` and is normalised; missing keyword arguments become the empty dictionary. */
  function NewJob(
    action: Action,
    minute: FieldSpec := SetObject(AllMatch), hour: FieldSpec := SetObject(AllMatch),
    day: FieldSpec := SetObject(AllMatch), month: FieldSpec := SetObject(AllMatch),
    dow: FieldSpec := SetObject(AllMatch),
    args: seq<string> := [], kwargs: Option<map<string, string>> := None): (j: Job)
    ensures j.action == action && j.args == args
    ensures j.kwargs == if kwargs.Some? then kwargs.value else map[]
  {
    Job(ConvToSet(minute), ConvToSet(hour), ConvToSet(day), ConvToSet(month), ConvToSet(dow),
        action, args, if kwargs.Some? then kwargs.value else map[])
  }

  /** `Job.is_matchtime`: all five fields contain the corresponding part of the timestamp. */
  predicate IsMatchtime(job: Job, t: Timestamp)
    requires Valid(t)
  {
    && Contains(job.mins, t.minute)
    && Contains(job.hours, t.hour)
    && Contains(job.days, t.day)
    && Contains(job.months, t.month)
    && Contains(job.dow, Weekday(t))
  }

  /** A job matches a timestamp exactly when every argument it was built from names the
      timestamp's minute, hour, day, month and weekday; one mismatch is enough to fail. */
  lemma NewJobMatchesIff(action: Action, minute: FieldSpec, hour: FieldSpec, day: FieldSpec,
                         month: FieldSpec, dow: FieldSpec, args: seq<string>,
                         kwargs: Option<map<string, string>>, t: Timestamp)
    requires Valid(t)
    ensures IsMatchtime(NewJob(action, minute, hour, day, month, dow, args, kwargs), t) <==>
      Denotes(minute, t.minute) && Denotes(hour, t.hour) && Denotes(day, t.day) &&
      Denotes(month, t.month) && Denotes(dow, Weekday(t))
  {
  }

  /** A job built without time arguments matches every timestamp. */
  lemma DefaultJobMatchesEverything(action: Action, t: Timestamp)
    requires Valid(t)
    ensures IsMatchtime(NewJob(action), t)
  {
  }

  /** A job for minute 0 of hour 9 matches 09:00 on any day, but not 09:01 or 08:00. */
  lemma NineOClockJob(action: Action, t: Timestamp)
    requires Valid(t)
    ensures IsMatchtime(NewJob(action, Scalar(0), Scalar(9)), t) <==> t.hour == 9 && t.minute == 0
    ensures !IsMatchtime(NewJob(action, Scalar(0), Scalar(9)), t.(hour := 9, minute := 1))
    ensures !IsMatchtime(NewJob(action, Scalar(0), Scalar(9)), t.(hour := 8, minute := 0))
  {
    NewJobMatchesIff(action, Scalar(0), Scalar(9), SetObject(AllMatch), SetObject(AllMatch), SetObject(AllMatch), [], None, t);
  }

  /** Weekdays are numbered from Monday = 0: a Monday matches `dow = 0`, a Sunday does not. */
  lemma MondayJob(action: Action)
    ensures IsMatchtime(NewJob(action, dow := Scalar(0)), Timestamp(2024, 1, 1, 9, 0))
    ensures !IsMatchtime(NewJob(action, dow := Scalar(0)), Timestamp(2024, 1, 7, 9, 0))
  {
    KnownWeekdays();
  }

  /** The call a job makes when it fires: its action with the stored arguments. */
  function CallOf(job: Job): Invocation {
    Invocation(job.action, job.args, job.kwargs)
  }

  /** `Job.check`: call the action once with the stored arguments if the job matches, and do
      nothing otherwise. */
  function Check(job: Job, t: Timestamp): (fired: seq<Event>)
    requires Valid(t)
    ensures |fired| == if IsMatchtime(job, t) then 1 else 0
    ensures forall e :: e in fired ==> e == Invoked(CallOf(job))
  {
    if IsMatchtime(job, t) then [Invoked(CallOf(job))] else []
  }

  /** The checks of one tick: every job in list order against the same timestamp. */
  function CheckAll(jobs: seq<Job>, t: Timestamp): seq<Event>
    requires Valid(t)
  {
    if jobs == [] then [] else Check(jobs[0], t) + CheckAll(jobs[1..], t)
  }

  /** Checking a concatenation fires the first list's actions, then the second's. */
  lemma {:induction false} CheckAllAppend(a: seq<Job>, b: seq<Job>, t: Timestamp)
    requires Valid(t)
    ensures CheckAll(a + b, t) == CheckAll(a, t) + CheckAll(b, t)
  {
    if a != [] {
      assert (a + b)[0] == a[0] && (a + b)[1..] == a[1..] + b;
      CheckAllAppend(a[1..], b, t);
      calc {
        CheckAll(a + b, t);
        Check(a[0], t) + CheckAll(a[1..] + b, t);
        Check(a[0], t) + (CheckAll(a[1..], t) + CheckAll(b, t));
        (Check(a[0], t) + CheckAll(a[1..], t)) + CheckAll(b, t);
      }
    } else {
      assert a + b == b;
    }
  }

  /** Every event of a tick's checks is the call of a job in the list that matches. */
  lemma {:induction false} CheckAllFiresOnlyMatching(jobs: seq<Job>, t: Timestamp)
    requires Valid(t)
    ensures forall e :: e in CheckAll(jobs, t) ==>
      e.Invoked? && exists j :: j in jobs && IsMatchtime(j, t) && e.call == CallOf(j)
  {
    if jobs != [] {
      CheckAllFiresOnlyMatching(jobs[1..], t);
      forall e | e in CheckAll(jobs, t)
        ensures e.Invoked? && exists j :: j in jobs && IsMatchtime(j, t) && e.call == CallOf(j)
      {
        if e in Check(jobs[0], t) {
          assert jobs[0] in jobs;
        } else {
          assert e in CheckAll(jobs[1..], t);
          var j :| j in jobs[1..] && IsMatchtime(j, t) && e.call == CallOf(j);
          assert j in jobs;
        }
      }
    }
  }

  /** Every matching job in the list fires during the tick's checks. */
  lemma {:induction false} CheckAllFiresEveryMatching(jobs: seq<Job>, t: Timestamp, i: nat)
    requires Valid(t) && i < |jobs| && IsMatchtime(jobs[i], t)
    ensures Invoked(CallOf(jobs[i])) in CheckAll(jobs, t)
  {
    if i > 0 {
      CheckAllFiresEveryMatching(jobs[1..], t, i - 1);
    }
  }

  /** A tick's checks fire nothing exactly when no job in the list matches. */
  lemma CheckAllSilentIff(jobs: seq<Job>, t: Timestamp)
    requires Valid(t)
    ensures CheckAll(jobs, t) == [] <==> forall j :: j in jobs ==> !IsMatchtime(j, t)
  {
    CheckAllFiresOnlyMatching(jobs, t);
    if exists j :: j in jobs && IsMatchtime(j, t) {
      var j :| j in jobs && IsMatchtime(j, t);
      var i :| 0 <= i < |jobs| && jobs[i] == j;
      CheckAllFiresEveryMatching(jobs, t, i);
    }
  }

  /** Two jobs that match the same tick fire in the order they are listed. */
  lemma TwoMatchingJobsFireInOrder(a: Job, b: Job, t: Timestamp)
    requires Valid(t) && IsMatchtime(a, t) && IsMatchtime(b, t)
    ensures CheckAll([a, b], t) == [Invoked(CallOf(a)), Invoked(CallOf(b))]
  {
    assert [a, b][1..] == [b] && [b][1..] == [];
    assert CheckAll([b], t) == [Invoked(CallOf(b))];
  }

  /** `for job in self.jobs: job.check(cron_time_tuple)`. */
  method CheckJobs(jobs: seq<Job>, t: Timestamp) returns (fired: seq<Event>)
    requires Valid(t)
    ensures fired == CheckAll(jobs, t)
  {
    fired := [];
    for k := 0 to |jobs|
      invariant fired == CheckAll(jobs[..k], t)
    {
      CheckAllAppend(jobs[..k], [jobs[k]], t);
      assert jobs[..k + 1] == jobs[..k] + [jobs[k]];
      assert [jobs[k]][1..] == [];
      fired := fired + Check(jobs[k], t);
    }
    assert jobs[..|jobs|] == jobs;
  }

  // ---------------------------------------------------------------- the crontab loop

  /** What the host does while one iteration runs (the add-on's other thread): nothing, stop the
      crontab, or assign it a new job list. */
  datatype Command = NoCommand | StopCommand | ReplaceJobs(jobs: seq<Job>)

  /** What one iteration of the loop sees: the host's abort flag, the wall clock read after the
      checks, and the host's command during the iteration. */
  datatype HostStep = HostStep(abort: bool, now: WallClock, command: Command)

  predicate ValidReadings(env: seq<HostStep>) {
    forall i :: 0 <= i < |env| ==> ValidReading(env[i].now)
  }

  datatype TickOutcome = TickOutcome(events: seq<Event>, clock: Timestamp)

  /** The sleep that `start` asks for after a tick: only if the wall clock is still before the
      advanced virtual clock, for the time between them. */
  function SleepUntil(now: WallClock, clock: Timestamp): seq<Event>
    requires ValidReading(now) && Valid(clock)
  {
    if Instant(now) < InstantOf(clock) then [Slept(InstantOf(clock) - Instant(now))] else []
  }

  /** The body of the loop, up to the host's command: if a host is present and no abort is
      requested, check every job, advance the clock by one minute and sleep if the wall clock is
      still before it. */
  function Tick(jobs: seq<Job>, host: bool, clock: Timestamp, step: HostStep): (r: TickOutcome)
    requires Valid(clock) && ValidReading(step.now)
    ensures Valid(r.clock)
  {
    if host && !step.abort then
      var next := NextMinute(clock);
      TickOutcome(CheckAll(jobs, clock) + SleepUntil(step.now, next), next)
    else
      TickOutcome([], clock)
  }

  /** A tick that runs checks every job against the same, unadvanced timestamp in list order,
      then sleeps at most once, and for a positive time; the clock moves on by exactly one minute.
      An aborted tick, or one without a host, does nothing and leaves the clock where it was. */
  lemma TickProperties(jobs: seq<Job>, host: bool, clock: Timestamp, step: HostStep)
    requires Valid(clock) && ValidReading(step.now)
    ensures var r := Tick(jobs, host, clock, step);
      && MinuteCount(r.clock) == MinuteCount(clock) + (if host && !step.abort then 1 else 0)
      && (!(host && !step.abort) ==> r.events == [] && r.clock == clock)
      && (host && !step.abort ==>
            var checks := CheckAll(jobs, clock);
            && r.clock == NextMinute(clock)
            && |checks| <= |r.events| <= |checks| + 1
            && r.events[..|checks|] == checks
            && (forall e :: e in r.events[|checks|..] ==> e.Slept? && e.delay > 0)
            && (|r.events| == |checks| + 1 <==> Instant(step.now) < InstantOf(r.clock)))
  {
    var r := Tick(jobs, host, clock, step);
    NextMinuteIsOneMinuteLater(clock);
    if host && !step.abort {
      var checks := CheckAll(jobs, clock);
      var sleep := SleepUntil(step.now, r.clock);
      assert r.events == checks + sleep;
      assert r.events[..|checks|] == checks;
      assert r.events[|checks|..] == sleep;
    }
  }

  /** The job list and the enabled flag after the host's command. */
  function ApplyJobs(command: Command, jobs: seq<Job>): seq<Job> {
    if command.ReplaceJobs? then command.jobs else jobs
  }

  function ApplyEnabled(command: Command, enabled: bool): bool {
    if command.StopCommand? then false else enabled
  }

  datatype RunOutcome = RunOutcome(
    trace: seq<Event>, jobs: seq<Job>, enabled: bool, clock: Timestamp, steps: nat, ticks: nat)

  /** `CronTab.start` from a given state over a bounded run of host steps: loop while enabled,
      one host step per iteration; `steps` counts the iterations and `ticks` those that checked
      the jobs. */
  function Run(jobs: seq<Job>, enabled: bool, host: bool, clock: Timestamp, env: seq<HostStep>): RunOutcome
    requires Valid(clock) && ValidReadings(env)
    decreases |env|
  {
    if !enabled || env == [] then RunOutcome([], jobs, enabled, clock, 0, 0)
    else
      var step := env[0];
      var tick := Tick(jobs, host, clock, step);
      var rest := Run(ApplyJobs(step.command, jobs), ApplyEnabled(step.command, enabled), host, tick.clock, env[1..]);
      rest.(trace := tick.events + rest.trace, steps := rest.steps + 1,
            ticks := rest.ticks + if host && !step.abort then 1 else 0)
  }

  /** One iteration of `Run`, stated for callers that step through it. */
  lemma RunUnfold(jobs: seq<Job>, enabled: bool, host: bool, clock: Timestamp, env: seq<HostStep>)
    requires Valid(clock) && ValidReadings(env) && enabled && env != []
    ensures ValidReadings(env[1..])
    ensures var tick := Tick(jobs, host, clock, env[0]);
      var rest := Run(ApplyJobs(env[0].command, jobs), ApplyEnabled(env[0].command, enabled), host, tick.clock, env[1..]);
      Run(jobs, enabled, host, clock, env) ==
        rest.(trace := tick.events + rest.trace, steps := rest.steps + 1,
              ticks := rest.ticks + if host && !env[0].abort then 1 else 0)
  {
  }

  /** The virtual clock ends exactly one minute later per tick that checked the jobs, however
      long those ticks took on the wall clock. */
  lemma {:induction false} RunAdvancesClockPerTick(jobs: seq<Job>, enabled: bool, host: bool,
                                                  clock: Timestamp, env: seq<HostStep>)
    requires Valid(clock) && ValidReadings(env)
    ensures var r := Run(jobs, enabled, host, clock, env);
      Valid(r.clock) && MinuteCount(r.clock) == MinuteCount(clock) + r.ticks && r.ticks <= r.steps <= |env|
    decreases |env|
  {
    if enabled && env != [] {
      var step := env[0];
      var tick := Tick(jobs, host, clock, step);
      TickProperties(jobs, host, clock, step);
      RunAdvancesClockPerTick(ApplyJobs(step.command, jobs), ApplyEnabled(step.command, enabled),
                              host, tick.clock, env[1..]);
    }
  }

  /** The loop leaves before consuming every host step only because the crontab was stopped, and
      a crontab already stopped runs no iteration at all. */
  lemma {:induction false} RunExitsOnlyWhenDisabled(jobs: seq<Job>, enabled: bool, host: bool,
                                                   clock: Timestamp, env: seq<HostStep>)
    requires Valid(clock) && ValidReadings(env)
    ensures var r := Run(jobs, enabled, host, clock, env);
      (r.steps < |env| ==> !r.enabled) && (!enabled ==> r.steps == 0 && r.trace == [])
    decreases |env|
  {
    if enabled && env != [] {
      var step := env[0];
      var tick := Tick(jobs, host, clock, step);
      RunExitsOnlyWhenDisabled(ApplyJobs(step.command, jobs), ApplyEnabled(step.command, enabled),
                               host, tick.clock, env[1..]);
    }
  }

  /** A stop during iteration k ends the loop at the latter's end: at most k + 1 iterations run. */
  lemma {:induction false} RunStopsAfterStopCommand(jobs: seq<Job>, enabled: bool, host: bool,
                                                   clock: Timestamp, env: seq<HostStep>, k: nat)
    requires Valid(clock) && ValidReadings(env)
    requires k < |env| && env[k].command == StopCommand
    ensures var r := Run(jobs, enabled, host, clock, env);
      r.steps <= k + 1 && !r.enabled
    decreases |env|
  {
    if enabled {
      var step := env[0];
      var tick := Tick(jobs, host, clock, step);
      if k > 0 {
        RunStopsAfterStopCommand(ApplyJobs(step.command, jobs), ApplyEnabled(step.command, enabled),
                                 host, tick.clock, env[1..], k - 1);
      } else {
        RunExitsOnlyWhenDisabled(ApplyJobs(step.command, jobs), false, host, tick.clock, env[1..]);
      }
    }
  }

  /** The virtual clock at the end of iteration `i`: the clock of the run cut after that step. */
  function ClockAfter(jobs: seq<Job>, enabled: bool, host: bool, clock: Timestamp, env: seq<HostStep>, i: nat): (c: Timestamp)
    requires Valid(clock) && ValidReadings(env) && i < |env|
    ensures Valid(c)
  {
    RunAdvancesClockPerTick(jobs, enabled, host, clock, env[..i + 1]);
    Run(jobs, enabled, host, clock, env[..i + 1]).clock
  }

  /** The clock after the first iteration, and after a later one counted from the second step. */
  lemma ClockAfterFirst(jobs: seq<Job>, enabled: bool, host: bool, clock: Timestamp, env: seq<HostStep>)
    requires Valid(clock) && ValidReadings(env) && enabled && env != []
    ensures ClockAfter(jobs, enabled, host, clock, env, 0) == Tick(jobs, host, clock, env[0]).clock
  {
    var prefix := env[..1];
    assert prefix[0] == env[0] && prefix[1..] == [];
    RunUnfold(jobs, enabled, host, clock, prefix);
  }

  lemma ClockAfterLater(jobs: seq<Job>, enabled: bool, host: bool, clock: Timestamp, env: seq<HostStep>, i: nat)
    requires Valid(clock) && ValidReadings(env) && enabled && i + 1 < |env|
    ensures var step := env[0];
      ClockAfter(jobs, enabled, host, clock, env, i + 1) ==
      ClockAfter(ApplyJobs(step.command, jobs), ApplyEnabled(step.command, enabled), host,
                 Tick(jobs, host, clock, step).clock, env[1..], i)
  {
    var prefix := env[..i + 2];
    assert prefix[0] == env[0] && prefix[1..] == env[1..][..i + 1];
    RunUnfold(jobs, enabled, host, clock, prefix);
  }

  /** A sleep justified by the loop: it belongs to an iteration `i` that ran its checks and whose
      wall-clock reading was still before the advanced virtual clock, and it lasts exactly the time
      between the two, which is positive. */
  predicate SleepJustified(jobs: seq<Job>, enabled: bool, host: bool, clock: Timestamp, env: seq<HostStep>,
                           steps: nat, e: Event)
    requires Valid(clock) && ValidReadings(env) && e.Slept?
  {
    && e.delay > 0
    && exists i :: 0 <= i < |env| && i < steps && host && !env[i].abort &&
         Instant(env[i].now) < InstantOf(ClockAfter(jobs, enabled, host, clock, env, i)) &&
         e.delay == InstantOf(ClockAfter(jobs, enabled, host, clock, env, i)) - Instant(env[i].now)
  }

  /** The loop sleeps only when the wall clock is behind the virtual clock, and then exactly until
      the virtual clock. */
  lemma {:induction false} RunSleepsOnlyWhenAhead(jobs: seq<Job>, enabled: bool, host: bool,
                                                 clock: Timestamp, env: seq<HostStep>)
    requires Valid(clock) && ValidReadings(env)
    ensures var r := Run(jobs, enabled, host, clock, env);
      forall e :: e in r.trace && e.Slept? ==> SleepJustified(jobs, enabled, host, clock, env, r.steps, e)
    decreases |env|
  {
    var r := Run(jobs, enabled, host, clock, env);
    if enabled && env != [] {
      var step := env[0];
      var tick := Tick(jobs, host, clock, step);
      var jobs', enabled' := ApplyJobs(step.command, jobs), ApplyEnabled(step.command, enabled);
      var rest := Run(jobs', enabled', host, tick.clock, env[1..]);
      RunSleepsOnlyWhenAhead(jobs', enabled', host, tick.clock, env[1..]);
      assert r.trace == tick.events + rest.trace && r.steps == rest.steps + 1;
      forall e | e in r.trace && e.Slept?
        ensures SleepJustified(jobs, enabled, host, clock, env, r.steps, e)
      {
        if e in tick.events {
          SleepOfFirstTick(jobs, enabled, host, clock, env, r.steps, e);
        } else {
          SleepOfLaterTick(jobs, enabled, host, clock, env, rest.steps, e);
        }
      }
    }
  }

  lemma SleepOfFirstTick(jobs: seq<Job>, enabled: bool, host: bool, clock: Timestamp, env: seq<HostStep>,
                         steps: nat, e: Event)
    requires Valid(clock) && ValidReadings(env) && enabled && env != [] && steps >= 1
    requires e in Tick(jobs, host, clock, env[0]).events && e.Slept?
    ensures SleepJustified(jobs, enabled, host, clock, env, steps, e)
  {
    FirstTickSleep(jobs, host, clock, env[0], e);
    ClockAfterFirst(jobs, enabled, host, clock, env);
    assert 0 < |env| && 0 < steps;
  }

  lemma SleepOfLaterTick(jobs: seq<Job>, enabled: bool, host: bool, clock: Timestamp, env: seq<HostStep>,
                         steps: nat, e: Event)
    requires Valid(clock) && ValidReadings(env) && enabled && env != [] && e.Slept?
    requires var step := env[0];
      ValidReadings(env[1..]) &&
      SleepJustified(ApplyJobs(step.command, jobs), ApplyEnabled(step.command, enabled), host,
                     Tick(jobs, host, clock, step).clock, env[1..], steps, e)
    ensures SleepJustified(jobs, enabled, host, clock, env, steps + 1, e)
  {
    var step := env[0];
    var jobs', enabled', clock' := ApplyJobs(step.command, jobs), ApplyEnabled(step.command, enabled),
                                   Tick(jobs, host, clock, step).clock;
    var i' :| 0 <= i' < |env[1..]| && i' < steps && host && !env[1..][i'].abort &&
      Instant(env[1..][i'].now) < InstantOf(ClockAfter(jobs', enabled', host, clock', env[1..], i')) &&
      e.delay == InstantOf(ClockAfter(jobs', enabled', host, clock', env[1..], i')) - Instant(env[1..][i'].now);
    assert env[1..][i'] == env[i' + 1];
    ClockAfterLater(jobs, enabled, host, clock, env, i');
  }

  /** A sleep within one iteration's events lasts from its reading to the advanced clock. */
  lemma FirstTickSleep(jobs: seq<Job>, host: bool, clock: Timestamp, step: HostStep, e: Event)
    requires Valid(clock) && ValidReading(step.now)
    requires e in Tick(jobs, host, clock, step).events && e.Slept?
    ensures var next := Tick(jobs, host, clock, step).clock;
      host && !step.abort && Instant(step.now) < InstantOf(next) &&
      e.delay == InstantOf(next) - Instant(step.now)
  {
    CheckAllFiresOnlyMatching(jobs, clock);
  }

  /** Whether every job list the run assigns is empty. */
  predicate OnlyClearsJobs(env: seq<HostStep>) {
    forall i :: 0 <= i < |env| && env[i].command.ReplaceJobs? ==> env[i].command.jobs == []
  }

  /** With an empty job list, and only empty lists assigned, no action fires. */
  lemma {:induction false} RunWithoutJobsFiresNothing(enabled: bool, host: bool, clock: Timestamp,
                                                     env: seq<HostStep>)
    requires Valid(clock) && ValidReadings(env) && OnlyClearsJobs(env)
    ensures forall e :: e in Run([], enabled, host, clock, env).trace ==> e.Slept?
    decreases |env|
  {
    if enabled && env != [] {
      var step := env[0];
      var tick := Tick([], host, clock, step);
      assert ApplyJobs(step.command, []) == [] by { assert env[0] == step; }
      assert OnlyClearsJobs(env[1..]) by {
        forall i | 0 <= i < |env[1..]| && env[1..][i].command.ReplaceJobs? ensures env[1..][i].command.jobs == [] {
          assert env[1..][i] == env[i + 1];
        }
      }
      RunWithoutJobsFiresNothing(ApplyEnabled(step.command, enabled), host, tick.clock, env[1..]);
    }
  }

  /** The actions fired in a trace, in order, leaving out the sleeps. */
  function Firings(trace: seq<Event>): (calls: seq<Invocation>)
    ensures |calls| <= |trace|
  {
    if trace == [] then []
    else (if trace[0].Invoked? then [trace[0].call] else []) + Firings(trace[1..])
  }

  lemma {:induction false} FiringsAppend(a: seq<Event>, b: seq<Event>)
    ensures Firings(a + b) == Firings(a) + Firings(b)
  {
    if a != [] {
      assert (a + b)[0] == a[0] && (a + b)[1..] == a[1..] + b;
      FiringsAppend(a[1..], b);
    } else {
      assert a + b == b;
    }
  }

  /** Two runs that differ only in their wall-clock readings. */
  predicate SameSchedule(env: seq<HostStep>, other: seq<HostStep>) {
    |env| == |other| &&
    forall i :: 0 <= i < |env| ==> env[i].abort == other[i].abort && env[i].command == other[i].command
  }

  /** The wall clock decides only whether and how long the loop sleeps: the virtual clock, the
      iterations and the actions fired are the same however far ahead or behind it is, so a
      minute that was overrun is neither replayed nor skipped. */
  lemma {:induction false} RunIndependentOfWallClock(jobs: seq<Job>, enabled: bool, host: bool,
                                                    clock: Timestamp, env: seq<HostStep>,
                                                    other: seq<HostStep>)
    requires Valid(clock) && ValidReadings(env) && ValidReadings(other) && SameSchedule(env, other)
    ensures var r, s := Run(jobs, enabled, host, clock, env), Run(jobs, enabled, host, clock, other);
      r.clock == s.clock && r.steps == s.steps && r.ticks == s.ticks && r.jobs == s.jobs &&
      r.enabled == s.enabled && Firings(r.trace) == Firings(s.trace)
    decreases |env|
  {
    if enabled && env != [] {
      var step, step' := env[0], other[0];
      var tick, tick' := Tick(jobs, host, clock, step), Tick(jobs, host, clock, step');
      assert SameSchedule(env[1..], other[1..]) by {
        forall i | 0 <= i < |env| - 1
          ensures env[1..][i].abort == other[1..][i].abort && env[1..][i].command == other[1..][i].command
        {
          assert env[1..][i] == env[i + 1] && other[1..][i] == other[i + 1];
        }
      }
      RunIndependentOfWallClock(ApplyJobs(step.command, jobs), ApplyEnabled(step.command, enabled),
                                host, tick.clock, env[1..], other[1..]);
      var rest := Run(ApplyJobs(step.command, jobs), ApplyEnabled(step.command, enabled), host, tick.clock, env[1..]);
      var rest' := Run(ApplyJobs(step'.command, jobs), ApplyEnabled(step'.command, enabled), host, tick'.clock, other[1..]);
      TickIndependentOfWallClock(jobs, host, clock, step, step');
      FiringsAppend(tick.events, rest.trace);
      FiringsAppend(tick'.events, rest'.trace);
    }
  }

  lemma TickIndependentOfWallClock(jobs: seq<Job>, host: bool, clock: Timestamp, step: HostStep, step': HostStep)
    requires Valid(clock) && ValidReading(step.now) && ValidReading(step'.now) && step.abort == step'.abort
    ensures Tick(jobs, host, clock, step).clock == Tick(jobs, host, clock, step').clock
    ensures Firings(Tick(jobs, host, clock, step).events) == Firings(Tick(jobs, host, clock, step').events)
  {
    if host && !step.abort {
      var next := NextMinute(clock);
      var checks := CheckAll(jobs, clock);
      SleepHasNoFirings(SleepUntil(step.now, next));
      SleepHasNoFirings(SleepUntil(step'.now, next));
      FiringsAppend(checks, SleepUntil(step.now, next));
      FiringsAppend(checks, SleepUntil(step'.now, next));
    }
  }

  lemma SleepHasNoFirings(events: seq<Event>)
    requires |events| <= 1 && forall e :: e in events ==> e.Slept?
    ensures Firings(events) == []
  {
    if events != [] {
      assert events[0] in events;
      assert events[1..] == [];
    }
  }

  lemma ConcatAssociative<T>(a: seq<T>, b: seq<T>, c: seq<T>)
    ensures (a + b) + c == a + (b + c)
  {
  }

  /** One tick that runs (the loop body under its abort guard): check every job in list order,
      advance the clock by one minute, then sleep if the wall clock is still before it. */
  method CheckAndAdvance(jobs: seq<Job>, clock: Timestamp, now: WallClock) returns (events: seq<Event>, next: Timestamp)
    requires Valid(clock) && ValidReading(now)
    ensures next == NextMinute(clock) && Valid(next) && MinuteCount(next) == MinuteCount(clock) + 1
    ensures events == CheckAll(jobs, clock) + SleepUntil(now, next)
  {
    events := CheckJobs(jobs, clock);
    NextMinuteIsOneMinuteLater(clock);
    next := NextMinute(clock);
    if Instant(now) < InstantOf(next) {
      events := events + [Slept(InstantOf(next) - Instant(now))];
    }
  }

  // ---------------------------------------------------------------- the crontab object

  /** `CronTab`: the job list the owner assigns and the flag `stop` lowers. `host` says whether
      the crontab was given a host module; without one the loop body never runs. */
  class CronTab {
    const host: bool
    var jobs: seq<Job>
    var enabled: bool

    constructor (host: bool)
      ensures this.host == host && jobs == [] && enabled
    {
      this.host := host;
      jobs := [];
      enabled := true;
    }

    /** `stop`: lower the flag; idempotent, and the job list is untouched. */
    method Stop()
      modifies this`enabled
      ensures !enabled && jobs == old(jobs)
    {
      enabled := false;
    }

    /** `start`, bounded by the host steps supplied: the virtual clock starts at the reading
        truncated to the minute and the loop runs while the crontab is enabled. */
    method Start(now: WallClock, env: seq<HostStep>) returns (trace: seq<Event>, clock: Timestamp, steps: nat)
      requires ValidReading(now) && ValidReadings(env)
      modifies this`jobs, this`enabled
      ensures var r := Run(old(jobs), old(enabled), host, TruncateToMinute(now), env);
        trace == r.trace && clock == r.clock && steps == r.steps && jobs == r.jobs && enabled == r.enabled
    {
      clock := TruncateToMinute(now);
      ghost var total := Run(jobs, enabled, host, clock, env);
      trace := [];
      steps := 0;
      while enabled && steps < |env|
        invariant steps <= |env| && Valid(clock)
        invariant var r := Run(jobs, enabled, host, clock, env[steps..]);
          && trace + r.trace == total.trace && r.jobs == total.jobs && r.enabled == total.enabled
          && r.clock == total.clock && steps + r.steps == total.steps
        decreases |env| - steps
      {
        var step := env[steps];
        ghost var jobs0, enabled0, clock0 := jobs, enabled, clock;
        ghost var tick := Tick(jobs, host, clock, step);
        ghost var before := trace;
        RunUnfold(jobs, enabled, host, clock, env[steps..]);
        assert env[steps..][0] == step && env[steps..][1..] == env[steps + 1..];
        if host && !step.abort {
          var events;
          events, clock := CheckAndAdvance(jobs, clock, step.now);
          trace := trace + events;
        }
        assert trace == before + tick.events && clock == tick.clock;
        match step.command {
          case NoCommand =>
          case StopCommand => Stop();
          case ReplaceJobs(js) => jobs := js;
        }
        assert jobs == ApplyJobs(step.command, jobs0) && enabled == ApplyEnabled(step.command, enabled0);
        steps := steps + 1;
        ghost var rest := Run(jobs, enabled, host, clock, env[steps..]);
        ConcatAssociative(before, tick.events, rest.trace);
      }
    }
  }
}
