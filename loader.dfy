/**
 * The loading screen's progress sequencer. On mount an interval starts; each
 * time it fires, the progress updater either adds one or, once the progress
 * is at or above 100, stops the interval, schedules the completion callback
 * and keeps the progress at 100. Unmounting stops the interval but leaves an
 * already scheduled completion in place.
 *
 * Timers are discrete events here: `IntervalTick` is one firing of the
 * interval, `EffectCleanup` the effect's cleanup. `scheduled` counts how many
 * times the completion callback was handed to the timer.
 */
module LoaderProgress {

  /** The progress at which the updater stops counting. */
  const Full: int := 100

  datatype Progress = Progress(progress: int, running: bool, scheduled: nat)

  datatype Event = IntervalTick | EffectCleanup

  /** The state right after mount: progress 0, interval running, nothing scheduled. */
  const Mounted: Progress := Progress(0, true, 0)

  function Step(s: Progress, e: Event): (t: Progress)
    // a stopped interval delivers nothing, and cleanup only stops it
    ensures !s.running ==> t == s
    ensures e == EffectCleanup ==> t.progress == s.progress && !t.running && t.scheduled == s.scheduled
    // progress never goes down, and stays within [0, Full] once there
    ensures t.progress >= s.progress || t.progress == Full
    ensures 0 <= s.progress <= Full ==> s.progress <= t.progress <= Full
    // completion is scheduled exactly by a running tick that finds the progress at or above Full
    ensures t.scheduled == s.scheduled || t.scheduled == s.scheduled + 1
    ensures t.scheduled == s.scheduled + 1 <==> s.running && e == IntervalTick && s.progress >= Full
    ensures t.scheduled == s.scheduled + 1 ==> t.progress == Full && !t.running
    // below Full a tick adds exactly one and keeps the interval running
    ensures s.running && e == IntervalTick && s.progress < Full ==> t.progress == s.progress + 1 && t.running
  {
    if !s.running then s
    else match e
      case EffectCleanup => s.(running := false)
      case IntervalTick =>
        if s.progress >= Full then Progress(Full, false, s.scheduled + 1)
        else s.(progress := s.progress + 1)
  }

  function Run(s: Progress, events: seq<Event>): Progress
    decreases |events|
  {
    if events == [] then s else Run(Step(s, events[0]), events[1..])
  }

  /** `n` firings of the interval. */
  function Ticks(n: nat): seq<Event>
  {
    if n == 0 then [] else [IntervalTick] + Ticks(n - 1)
  }

  /** What holds of every state reachable from mount. */
  ghost predicate Inv(s: Progress) {
    && 0 <= s.progress <= Full
    && s.scheduled <= 1
    && (s.running ==> s.scheduled == 0)
    && (s.scheduled == 1 ==> s.progress == Full)
  }

  /**
   * Along any sequence of ticks and cleanups the invariant holds, and neither
   * the progress nor the number of scheduled completions goes down.
   */
  lemma {:induction false} RunKeepsInv(s: Progress, events: seq<Event>)
    requires Inv(s)
    ensures Inv(Run(s, events))
    ensures s.progress <= Run(s, events).progress
    ensures s.scheduled <= Run(s, events).scheduled
    decreases |events|
  {
    if events != [] {
      RunKeepsInv(Step(s, events[0]), events[1..]);
    }
  }

  /**
   * From mount, whatever the events: the progress stays within [0, 100] and
   * completion is scheduled at most once.
   */
  lemma MountedSession(events: seq<Event>)
    ensures 0 <= Run(Mounted, events).progress <= Full
    ensures Run(Mounted, events).scheduled <= 1
  {
    RunKeepsInv(Mounted, events);
  }

  /** Once the interval is stopped, no further event changes anything. */
  lemma {:induction false} StoppedIsFinal(s: Progress, events: seq<Event>)
    requires !s.running
    ensures Run(s, events) == s
    decreases |events|
  {
    if events != [] {
      StoppedIsFinal(Step(s, events[0]), events[1..]);
    }
  }

  /**
   * Cleanup stops every later tick, and it neither retracts nor adds a
   * scheduled completion.
   */
  lemma CleanupIsFinal(s: Progress, events: seq<Event>)
    ensures Run(Step(s, EffectCleanup), events) == s.(running := false)
  {
    StoppedIsFinal(Step(s, EffectCleanup), events);
  }

  /** `n` ticks from a running state with progress `k` and nothing scheduled. */
  lemma {:induction false} TicksFrom(k: int, n: nat)
    requires 0 <= k <= Full
    ensures Run(Progress(k, true, 0), Ticks(n)) ==
              if k + n <= Full then Progress(k + n, true, 0) else Progress(Full, false, 1)
    decreases n
  {
    if n > 0 {
      assert Ticks(n)[0] == IntervalTick && Ticks(n)[1..] == Ticks(n - 1);
      if k < Full {
        TicksFrom(k + 1, n - 1);
      } else {
        StoppedIsFinal(Progress(Full, false, 1), Ticks(n - 1));
      }
    }
  }

  /**
   * From mount, progress reaches 100 after exactly 100 ticks with nothing
   * scheduled; completion is scheduled by the 101st tick, which stops the
   * interval; later ticks change nothing.
   */
  lemma CompletionOnTick101(n: nat)
    ensures Run(Mounted, Ticks(100)) == Progress(Full, true, 0)
    ensures Run(Mounted, Ticks(101)) == Progress(Full, false, 1)
    ensures n <= 100 ==> Run(Mounted, Ticks(n)) == Progress(n, true, 0)
    ensures n > 100 ==> Run(Mounted, Ticks(n)) == Progress(Full, false, 1)
  {
    TicksFrom(0, 100);
    TicksFrom(0, 101);
    TicksFrom(0, n);
  }

  // ---------------------------------------------------------------------------
  // The component, updated in place by the interval and the effect cleanup

  class Loader {
    var progress: int
    var running: bool
    var scheduled: nat

    function State(): Progress
      reads this
    {
      Progress(progress, running, scheduled)
    }

    ghost predicate Valid()
      reads this
    {
      Inv(State())
    }

    /** Mount: the progress state starts at 0 and the effect starts the interval. */
    constructor ()
      ensures Valid() && State() == Mounted
    {
      progress := 0;
      running := true;
      scheduled := 0;
    }

    /** One firing of the interval, running the progress updater. */
    method Tick()
      requires Valid()
      modifies this
      ensures Valid() && State() == Step(old(State()), IntervalTick)
    {
      if running {
        if progress >= Full {
          running := false;
          scheduled := scheduled + 1;
          progress := Full;
        } else {
          progress := progress + 1;
        }
      }
    }

    /** The effect cleanup on unmount: stops the interval, not the scheduled completion. */
    method Cleanup()
      requires Valid()
      modifies this
      ensures Valid() && State() == Step(old(State()), EffectCleanup)
    {
      running := false;
    }
  }
}
