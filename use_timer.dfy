/** The `useTimer` hook of frontend/src/hooks/useTimer.js: a countdown with four state
    cells that the interval and the controls update. One interval firing is one call of
    `Tick`; sound and vibration are side effects and only counted. */
module UseTimer {
  import opened Wrappers

  /** The vibration played when a timer ends: `[100, 50, 100].slice(0, vibrations)` when
      vibrations is positive, nothing otherwise. It alternates 100 ms pulses with 50 ms
      gaps and never has more than three entries. */
  function EndVibration(vibrations: int): (r: seq<int>)
    ensures |r| == if vibrations <= 0 then 0 else if vibrations >= 3 then 3 else vibrations
    ensures forall i :: 0 <= i < |r| ==> r[i] == if i % 2 == 0 then 100 else 50
  {
    var full := [100, 50, 100];
    if vibrations <= 0 then [] else if vibrations >= 3 then full else full[..vibrations]
  }

  /** The number of pulses in a vibration pattern: the entries at even positions. */
  function Pulses(pattern: seq<int>): nat
  {
    (|pattern| + 1) / 2
  }

  /** The end vibration never has more than two pulses, and two vibrations give one:
      the setting's count of vibrations is not the number of pulses felt. */
  lemma EndVibrationPulses(vibrations: int)
    ensures vibrations >= 1 ==> 1 <= Pulses(EndVibration(vibrations)) <= 2
    ensures Pulses(EndVibration(2)) == 1 && Pulses(EndVibration(5)) == 2
  {
  }

  /** A pattern of `count` pulses of `on` milliseconds separated by gaps of `off`. */
  function Pulsed(count: int, on: int, off: int): (r: seq<int>)
    ensures count <= 0 ==> r == []
    ensures count > 0 ==> |r| == 2 * count - 1 && r[0] == on && r[|r| - 1] == on
    ensures forall i :: 0 <= i < |r| ==> r[i] == if i % 2 == 0 then on else off
    ensures Pulses(r) == if count <= 0 then 0 else count
  {
    if count <= 0 then [] else seq(2 * count - 1, i => if i % 2 == 0 then on else off)
  }

  /** The end vibration as the setting describes it: one 100 ms pulse per vibration,
      50 ms apart. It agrees with the written pattern for a single vibration only. */
  function IntendedEndVibration(vibrations: int): (r: seq<int>)
    ensures Pulses(r) == if vibrations <= 0 then 0 else vibrations
  {
    Pulsed(vibrations, 100, 50)
  }

  /** Where the two patterns agree and where they part. */
  lemma EndVibrationAgreesOnlyForOne(vibrations: int)
    ensures IntendedEndVibration(vibrations) == EndVibration(vibrations) <==> vibrations <= 1
  {
    if vibrations >= 2 {
      assert Pulses(IntendedEndVibration(vibrations)) != Pulses(EndVibration(vibrations));
    } else if vibrations == 1 {
      assert IntendedEndVibration(1) == [100];
    }
  }

  class Timer {
    const initialDuration: int
    var timeLeft: int
    var isRunning: bool
    var totalDuration: int
    var isComplete: bool
    /** How many times `onComplete` has been called. */
    var completions: nat

    /** A completed timer is not running. */
    predicate Valid()
      reads this
    {
      isComplete ==> !isRunning
    }

    /** The state the hook starts in. */
    constructor (initial: int, autoStart: bool)
      ensures initialDuration == initial && timeLeft == initial && totalDuration == initial
      ensures isRunning == autoStart && !isComplete && completions == 0
      ensures Valid()
    {
      initialDuration := initial;
      timeLeft := initial;
      isRunning := autoStart;
      totalDuration := initial;
      isComplete := false;
      completions := 0;
    }

    /** `handleTimerEnd`: stops, marks the timer complete and calls `onComplete`. */
    method End()
      modifies this
      ensures !isRunning && isComplete && completions == old(completions) + 1
      ensures timeLeft == old(timeLeft) && totalDuration == old(totalDuration)
      ensures Valid()
    {
      isRunning := false;
      isComplete := true;
      completions := completions + 1;
    }

    /** One firing of the interval, which only runs while the timer runs with time
        left: one second less, and at zero the timer ends with no time left. */
    method Tick()
      requires Valid()
      modifies this
      ensures Valid() && totalDuration == old(totalDuration)
      ensures !(old(isRunning) && old(timeLeft) > 0) ==>
                timeLeft == old(timeLeft) && isRunning == old(isRunning)
                && isComplete == old(isComplete) && completions == old(completions)
      ensures old(isRunning) && old(timeLeft) > 1 ==>
                timeLeft == old(timeLeft) - 1 && isRunning && isComplete == old(isComplete)
                && completions == old(completions)
      ensures old(isRunning) && old(timeLeft) == 1 ==>
                timeLeft == 0 && !isRunning && isComplete && completions == old(completions) + 1
    {
      if isRunning && timeLeft > 0 {
        var newTime := timeLeft - 1;
        if newTime <= 0 {
          End();
          timeLeft := 0;
        } else {
          timeLeft := newTime;
        }
      }
    }

    /** `reset`: stopped and not complete, with the given duration or else the initial
        one as both the time left and the total. */
    method Reset(newDuration: Option<int>)
      modifies this
      ensures !isRunning && !isComplete && completions == old(completions)
      ensures timeLeft == newDuration.GetOr(initialDuration) && totalDuration == timeLeft
      ensures Valid()
    {
      isRunning := false;
      timeLeft := newDuration.GetOr(initialDuration);
      totalDuration := newDuration.GetOr(initialDuration);
      isComplete := false;
    }

    /** `start`: a completed timer is first reset to the initial duration; then it runs. */
    method Start()
      modifies this
      ensures isRunning && !isComplete && completions == old(completions)
      ensures old(isComplete) ==> timeLeft == initialDuration && totalDuration == initialDuration
      ensures !old(isComplete) ==> timeLeft == old(timeLeft) && totalDuration == old(totalDuration)
      ensures Valid()
    {
      if isComplete {
        Reset(None);
      }
      isRunning := true;
    }

    /** `pause`: only stops the timer. */
    method Pause()
      requires Valid()
      modifies this
      ensures !isRunning && isComplete == old(isComplete) && completions == old(completions)
      ensures timeLeft == old(timeLeft) && totalDuration == old(totalDuration)
      ensures Valid()
    {
      isRunning := false;
    }

    /** `toggle`: pauses a running timer and starts a stopped one. */
    method Toggle()
      requires Valid()
      modifies this
      ensures isRunning == !old(isRunning) && completions == old(completions)
      ensures old(isRunning) ==> isComplete == old(isComplete) && timeLeft == old(timeLeft)
                                 && totalDuration == old(totalDuration)
      ensures !old(isRunning) && old(isComplete) ==> !isComplete && timeLeft == initialDuration
                                                     && totalDuration == initialDuration
      ensures !old(isRunning) && !old(isComplete) ==> !isComplete && timeLeft == old(timeLeft)
                                                      && totalDuration == old(totalDuration)
      ensures Valid()
    {
      if isRunning {
        Pause();
      } else {
        Start();
      }
    }

    /** `adjustTime`: the time left moves by `seconds` but never below one second,
        while the total moves by the full amount. */
    method AdjustTime(seconds: int)
      requires Valid()
      modifies this
      ensures timeLeft == if old(timeLeft) + seconds < 1 then 1 else old(timeLeft) + seconds
      ensures timeLeft >= 1 && timeLeft >= old(timeLeft) + seconds
      ensures totalDuration == old(totalDuration) + seconds
      ensures isRunning == old(isRunning) && isComplete == old(isComplete)
      ensures completions == old(completions) && Valid()
    {
      var newTime := if timeLeft + seconds < 1 then 1 else timeLeft + seconds;
      timeLeft := newTime;
      totalDuration := totalDuration + seconds;
    }

    /** `setDuration`: a value that is not a number (None) or not positive is ignored;
        otherwise it becomes both the time left and the total. */
    method SetDuration(newDuration: Option<int>)
      requires Valid()
      modifies this
      ensures newDuration.Some? && newDuration.value > 0 ==>
                timeLeft == newDuration.value && totalDuration == newDuration.value
      ensures !(newDuration.Some? && newDuration.value > 0) ==>
                timeLeft == old(timeLeft) && totalDuration == old(totalDuration)
      ensures isRunning == old(isRunning) && isComplete == old(isComplete)
      ensures completions == old(completions) && Valid()
    {
      if newDuration.Some? && newDuration.value > 0 {
        timeLeft := newDuration.value;
        totalDuration := newDuration.value;
      }
    }

    /** `skip`: ends the timer, but only while there is time left. */
    method Skip()
      requires Valid()
      modifies this
      ensures old(timeLeft) > 0 ==> !isRunning && isComplete && completions == old(completions) + 1
      ensures old(timeLeft) <= 0 ==> isRunning == old(isRunning) && isComplete == old(isComplete)
                                     && completions == old(completions)
      ensures timeLeft == old(timeLeft) && totalDuration == old(totalDuration)
      ensures Valid()
    {
      if timeLeft > 0 {
        End();
      }
    }

    /** The interval firing `n` times in a row. A running timer with `t > 0` seconds left
        is still running with `t - n` left after fewer than `t` firings; from the `t`-th
        on it is complete with nothing left, and `onComplete` was called exactly once. */
    method Elapse(n: nat)
      requires Valid()
      modifies this
      ensures Valid() && totalDuration == old(totalDuration)
      ensures old(isRunning) && 0 < old(timeLeft) && n < old(timeLeft) ==>
                isRunning && timeLeft == old(timeLeft) - n && completions == old(completions)
                && isComplete == old(isComplete)
      ensures old(isRunning) && 0 < old(timeLeft) <= n ==>
                !isRunning && isComplete && timeLeft == 0 && completions == old(completions) + 1
    {
      var i := 0;
      while i < n
        invariant 0 <= i <= n && Valid() && totalDuration == old(totalDuration)
        invariant old(isRunning) && 0 < old(timeLeft) && i < old(timeLeft) ==>
                    isRunning && timeLeft == old(timeLeft) - i && completions == old(completions)
                    && isComplete == old(isComplete)
        invariant old(isRunning) && 0 < old(timeLeft) <= i ==>
                    !isRunning && isComplete && timeLeft == 0 && completions == old(completions) + 1
      {
        Tick();
        i := i + 1;
      }
    }
  }
}
