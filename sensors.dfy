/**
 * The computational parts of the rangefinder's sensor agent: the
 * temperature-compensated conversion of an HC-SR04 echo time into a distance,
 * the two polling loops that time the echo pulse, the start-up wait for the
 * first readings, and the fields the agent overwrites.
 *
 * Pin reads and clock reads are inputs: a finite trace of polls, each the
 * level the echo pin showed and the clock value read right after it. The
 * distance formula is stated over `real`, an idealisation of floating point.
 */
module Sensors {
  import opened Wrappers

  // ---------------------------------------------------------------------------
  // Temperature-compensated distance

  /** Speed of sound in air, in metres per second, at `temperature` degrees Celsius. */
  function SoundSpeed(temperature: real): (v: real)
    ensures v > 0.0 <==> temperature > -552.5
  {
    331.5 + 0.6 * temperature
  }

  /**
   * The distance the agent stores for an echo time in seconds: the speed of
   * sound scaled by 100, times the round-trip time, halved.
   */
  function DistanceFromEcho(temperature: real, echoTime: real): real {
    ((SoundSpeed(temperature) * 100.0) * echoTime) / 2.0
  }

  /** The one-way distance in metres travelled by sound in half the echo time. */
  function DistanceInMetres(temperature: real, echoTime: real): real {
    SoundSpeed(temperature) * (echoTime / 2.0)
  }

  /** The echo time that a target at `distance` (in the stored unit) produces. */
  function EchoTimeFor(temperature: real, distance: real): real
    requires SoundSpeed(temperature) != 0.0
  {
    (2.0 * distance) / (SoundSpeed(temperature) * 100.0)
  }

  /** The stored distance is in centimetres: 100 times the distance in metres. */
  lemma DistanceIsInCentimetres(temperature: real, echoTime: real)
    ensures DistanceFromEcho(temperature, echoTime) == 100.0 * DistanceInMetres(temperature, echoTime)
  {
  }

  /** Converting an echo time to a distance and back gives the echo time, and conversely. */
  lemma EchoTimeRoundTrip(temperature: real, echoTime: real, distance: real)
    requires SoundSpeed(temperature) != 0.0
    ensures EchoTimeFor(temperature, DistanceFromEcho(temperature, echoTime)) == echoTime
    ensures DistanceFromEcho(temperature, EchoTimeFor(temperature, distance)) == distance
  {
  }

  /**
   * Above -552.5 degrees the conversion is strictly increasing in the echo
   * time and has the sign of the echo time.
   */
  lemma DistanceMonotonic(temperature: real, e1: real, e2: real)
    requires temperature > -552.5
    ensures e1 < e2 ==> DistanceFromEcho(temperature, e1) < DistanceFromEcho(temperature, e2)
    ensures DistanceFromEcho(temperature, e1) >= 0.0 <==> e1 >= 0.0
  {
  }

  /** At 20 degrees an echo of 10 ms stores 171.75: sound travels 3.4350 m in 10 ms. */
  lemma DistanceAtTwentyDegrees()
    ensures SoundSpeed(20.0) == 343.5
    ensures DistanceFromEcho(20.0, 0.01) == 171.75
  {
  }

  // ---------------------------------------------------------------------------
  // Echo timing

  /** One read of the echo pin, and the clock value read right after it by a loop body that runs. */
  datatype Poll = Poll(high: bool, clock: real)

  /**
   * The number of consecutive polls from `from` on whose level is `high`:
   * the number of times a `while pin == level` loop starting there runs its body.
   */
  function RunLength(polls: seq<Poll>, from: nat, high: bool): (n: nat)
    requires from <= |polls|
    ensures from + n <= |polls|
    ensures forall j :: from <= j < from + n ==> polls[j].high == high
    ensures from + n < |polls| ==> polls[from + n].high != high
    decreases |polls| - from
  {
    if from < |polls| && polls[from].high == high then 1 + RunLength(polls, from + 1, high) else 0
  }

  /**
   * The duration the echo timer returns on a trace, or None when the trace
   * ends while a loop is still polling. The low loop runs over the first
   * `low` polls and stops at the high poll after them; the high loop begins
   * with a fresh read and runs over the next `hi` polls. The start time is the
   * clock of the last low poll (or the first pre-loop reading), the stop time
   * the clock of the last high poll (or the second pre-loop reading).
   */
  function EchoDuration(startClock: real, stopClock: real, polls: seq<Poll>): Option<real> {
    var low := RunLength(polls, 0, false);
    if low == |polls| then None
    else
      var hi := RunLength(polls, low + 1, true);
      if low + 1 + hi == |polls| then None
      else
        var startTime := if low == 0 then startClock else polls[low - 1].clock;
        var stopTime := if hi == 0 then stopClock else polls[low + hi].clock;
        Some(stopTime - startTime)
  }

  /** A run length is fixed by where the run of equal levels ends. */
  lemma {:induction false} RunLengthIs(polls: seq<Poll>, from: nat, high: bool, n: nat)
    requires from + n <= |polls|
    requires forall j :: from <= j < from + n ==> polls[j].high == high
    requires from + n < |polls| ==> polls[from + n].high != high
    ensures RunLength(polls, from, high) == n
    decreases n
  {
    if n > 0 {
      RunLengthIs(polls, from + 1, high, n - 1);
    }
  }

  /**
   * On a trace that shows `low` low polls, one high poll, then `hi` high polls
   * and a low poll, the echo timer returns the clock of the last high poll
   * (or the second pre-loop reading) minus the clock of the last low poll (or
   * the first pre-loop reading).
   */
  lemma EchoDurationOfPulse(startClock: real, stopClock: real, polls: seq<Poll>, low: nat, hi: nat)
    requires low + 1 + hi < |polls|
    requires forall j :: 0 <= j < low ==> !polls[j].high
    requires polls[low].high
    requires forall j :: low + 1 <= j < low + 1 + hi ==> polls[j].high
    requires !polls[low + 1 + hi].high
    ensures EchoDuration(startClock, stopClock, polls)
      == Some((if hi == 0 then stopClock else polls[low + hi].clock)
            - (if low == 0 then startClock else polls[low - 1].clock))
  {
    RunLengthIs(polls, 0, false, low);
    RunLengthIs(polls, low + 1, true, hi);
  }

  /** The clock never goes back: pre-loop readings first, then the polls in order. */
  predicate ClockNonDecreasing(startClock: real, stopClock: real, polls: seq<Poll>) {
    && startClock <= stopClock
    && (forall j :: 0 <= j < |polls| ==> stopClock <= polls[j].clock)
    && (forall i, j :: 0 <= i < j < |polls| ==> polls[i].clock <= polls[j].clock)
  }

  /** With a non-decreasing clock the duration is non-negative when the high loop's body runs. */
  lemma EchoDurationNonNegative(startClock: real, stopClock: real, polls: seq<Poll>, low: nat, hi: nat)
    requires ClockNonDecreasing(startClock, stopClock, polls)
    requires low + 1 + hi < |polls| && hi >= 1
    requires forall j :: 0 <= j < low ==> !polls[j].high
    requires polls[low].high
    requires forall j :: low + 1 <= j < low + 1 + hi ==> polls[j].high
    requires !polls[low + 1 + hi].high
    ensures EchoDuration(startClock, stopClock, polls).Some?
    ensures EchoDuration(startClock, stopClock, polls).value >= 0.0
  {
    EchoDurationOfPulse(startClock, stopClock, polls, low, hi);
  }

  /**
   * A pulse that ends between the low loop's exit and the high loop's first
   * read leaves the stop time at its pre-loop reading, so the duration is
   * negative as soon as the clock moved after that reading.
   */
  lemma MissedPulseGivesNegativeDuration(startClock: real, stopClock: real, polls: seq<Poll>, low: nat)
    requires ClockNonDecreasing(startClock, stopClock, polls)
    requires 1 <= low && low + 1 < |polls|
    requires forall j :: 0 <= j < low ==> !polls[j].high
    requires polls[low].high && !polls[low + 1].high
    requires stopClock < polls[low - 1].clock
    ensures EchoDuration(startClock, stopClock, polls) == Some(stopClock - polls[low - 1].clock)
    ensures EchoDuration(startClock, stopClock, polls).value < 0.0
  {
    EchoDurationOfPulse(startClock, stopClock, polls, low, 0);
  }

  /**
   * The echo timer: after the trigger pulse, read the clock twice, poll while
   * the echo pin is low (recording the clock each time), then poll while it
   * is high (recording the clock each time), and return the difference.
   */
  method GetEchoTime(startClock: real, stopClock: real, polls: seq<Poll>) returns (r: Option<real>)
    ensures r == EchoDuration(startClock, stopClock, polls)
  {
    var startTime, stopTime := startClock, stopClock;
    var i := 0;
    while i < |polls| && !polls[i].high
      invariant i <= |polls|
      invariant forall j :: 0 <= j < i ==> !polls[j].high
      invariant startTime == if i == 0 then startClock else polls[i - 1].clock
    {
      startTime := polls[i].clock;
      i := i + 1;
    }
    RunLengthIs(polls, 0, false, i);
    if i == |polls| {
      return None;
    }
    i := i + 1;  // the read that ended the low loop
    var k := i;
    while i < |polls| && polls[i].high
      invariant k <= i <= |polls|
      invariant forall j :: k <= j < i ==> polls[j].high
      invariant stopTime == if i == k then stopClock else polls[i - 1].clock
    {
      stopTime := polls[i].clock;
      i := i + 1;
    }
    RunLengthIs(polls, k, true, i - k);
    if i == |polls| {
      return None;
    }
    r := Some(stopTime - startTime);
  }

  // ---------------------------------------------------------------------------
  // Start-up wait

  /** The three fields as the waiting loop finds them at one poll. */
  datatype Snapshot = Snapshot(temperature: Option<real>, distance: Option<real>, humidity: Option<real>)

  /** Python truthiness of a reading: unset and exactly zero are both false. */
  predicate Truthy(x: Option<real>) {
    x.Some? && x.value != 0.0
  }

  /** The condition that ends the wait: all three readings truthy. */
  predicate AllMeasured(s: Snapshot) {
    Truthy(s.temperature) && Truthy(s.distance) && Truthy(s.humidity)
  }

  /** The bound the wait's timer is compared with. */
  const TimerLimit: nat := 20

  /** The index of the first snapshot with all three readings, or the length of the trace. */
  function FirstMeasured(snaps: seq<Snapshot>): (n: nat)
    ensures n <= |snaps|
    ensures forall j :: 0 <= j < n ==> !AllMeasured(snaps[j])
    ensures n < |snaps| ==> AllMeasured(snaps[n])
  {
    if snaps == [] || AllMeasured(snaps[0]) then 0 else 1 + FirstMeasured(snaps[1..])
  }

  /** The number of polls that did not find all three readings. */
  function FailedPolls(snaps: seq<Snapshot>): nat
    decreases |snaps|
  {
    if snaps == [] then 0
    else FailedPolls(snaps[..|snaps| - 1]) + (if AllMeasured(snaps[|snaps| - 1]) then 0 else 1)
  }

  /** A failed poll count only grows as the trace goes on. */
  lemma {:induction false} FailedPollsGrow(snaps: seq<Snapshot>, m: nat)
    requires m <= |snaps|
    ensures FailedPolls(snaps[..m]) <= FailedPolls(snaps)
    decreases |snaps|
  {
    if m < |snaps| {
      var init := snaps[..|snaps| - 1];
      assert init[..m] == snaps[..m];
      FailedPollsGrow(init, m);
    } else {
      assert snaps[..m] == snaps;
    }
  }

  /** In a trace where no poll finds all three readings, every poll is a failed poll. */
  lemma {:induction false} FailedPollsAllFail(snaps: seq<Snapshot>)
    requires forall j :: 0 <= j < |snaps| ==> !AllMeasured(snaps[j])
    ensures FailedPolls(snaps) == |snaps|
    decreases |snaps|
  {
    if snaps != [] {
      FailedPollsAllFail(snaps[..|snaps| - 1]);
    }
  }

  /** Where the wait loop is when the trace ends. */
  datatype WaitOutcome =
    | Exited(polls: nat)                    // the loop returned after `polls` polls
    | StillWaiting(ongoing: bool, timer: nat) // the loop would keep polling

  /**
   * The wait loop as written, in closed form: it returns at the first poll
   * with all three readings if at most TimerLimit polls failed before it;
   * otherwise it keeps polling, its timer counting every failed poll.
   */
  function WaitAsWritten(snaps: seq<Snapshot>): WaitOutcome {
    var n := FirstMeasured(snaps);
    if n < |snaps| && n <= TimerLimit then Exited(n + 1)
    else StillWaiting(n == |snaps|, FailedPolls(snaps))
  }

  /**
   * The start-up wait as written: poll once per second; all three readings
   * truthy clear `measurementsOngoing`, otherwise the timer goes up; loop
   * while `measurementsOngoing or timer > 20`.
   */
  method WaitForSensorsMeasure(snaps: seq<Snapshot>) returns (outcome: WaitOutcome)
    ensures outcome == WaitAsWritten(snaps)
  {
    ghost var n := FirstMeasured(snaps);
    var measurementsOngoing := true;
    var timer := 0;
    var i := 0;
    while (measurementsOngoing || timer > TimerLimit) && i < |snaps|
      invariant i <= |snaps|
      invariant timer == FailedPolls(snaps[..i])
      invariant measurementsOngoing ==> i <= n && timer == i
      invariant !measurementsOngoing ==> n < i && timer >= n && (n > TimerLimit || i == n + 1)
      invariant !measurementsOngoing && i == n + 1 ==> timer == n
    {
      assert snaps[..i + 1][..i] == snaps[..i];
      if AllMeasured(snaps[i]) {
        measurementsOngoing := false;
      } else {
        timer := timer + 1;
      }
      i := i + 1;
    }
    assert snaps[..|snaps|] == snaps;
    if measurementsOngoing || timer > TimerLimit {
      outcome := StillWaiting(measurementsOngoing, timer);
    } else {
      outcome := Exited(i);
    }
  }

  /**
   * The wait returns exactly when one of its first TimerLimit + 1 polls finds
   * all three readings, and then at the first such poll.
   */
  lemma WaitExitsOnlyWhenMeasured(snaps: seq<Snapshot>)
    ensures WaitAsWritten(snaps).Exited?
      <==> exists j :: 0 <= j < |snaps| && j <= TimerLimit && AllMeasured(snaps[j])
    ensures WaitAsWritten(snaps).Exited? ==>
      var p := WaitAsWritten(snaps).polls;
      && 1 <= p <= TimerLimit + 1
      && AllMeasured(snaps[p - 1])
      && forall j :: 0 <= j < p - 1 ==> !AllMeasured(snaps[j])
  {
  }

  /**
   * Once more than TimerLimit polls have failed the loop never returns, even
   * when every later poll finds all three readings: the intended abort
   * cannot fire, and the timer keeps counting past the limit.
   */
  lemma NeverExitsAfterTimerPassesLimit(snaps: seq<Snapshot>)
    requires TimerLimit < |snaps|
    requires forall j :: 0 <= j <= TimerLimit ==> !AllMeasured(snaps[j])
    ensures WaitAsWritten(snaps).StillWaiting?
    ensures WaitAsWritten(snaps).timer > TimerLimit
  {
    var prefix := snaps[..TimerLimit + 1];
    FailedPollsAllFail(prefix);
    FailedPollsGrow(snaps, TimerLimit + 1);
  }

  /** A reading of exactly zero counts as not measured: a sensor that keeps reporting zero blocks the wait. */
  lemma ZeroReadingBlocksWait(snaps: seq<Snapshot>)
    requires forall j :: 0 <= j < |snaps| ==>
      snaps[j].temperature == Some(0.0) || snaps[j].distance == Some(0.0) || snaps[j].humidity == Some(0.0)
    ensures WaitAsWritten(snaps) == StillWaiting(true, |snaps|)
  {
    FailedPollsAllFail(snaps);
  }

  /** Where the corrected wait is when the trace ends. */
  datatype StartupOutcome =
    | Measured(polls: nat)        // all three readings arrived at poll `polls`
    | StartupTimeout(polls: nat)  // gave up after `polls` failed polls
    | Pending                     // the trace ended before either

  /** The intended wait: at most TimerLimit + 1 polls, then a start-up timeout. */
  function WaitIntended(snaps: seq<Snapshot>): StartupOutcome {
    var n := FirstMeasured(snaps);
    if n < |snaps| && n <= TimerLimit then Measured(n + 1)
    else if TimerLimit < |snaps| then StartupTimeout(TimerLimit + 1)
    else Pending
  }

  /** The start-up wait with the loop condition `measurementsOngoing and timer <= 20`. */
  method WaitBounded(snaps: seq<Snapshot>) returns (outcome: StartupOutcome)
    ensures outcome == WaitIntended(snaps)
  {
    ghost var n := FirstMeasured(snaps);
    var measurementsOngoing := true;
    var timer := 0;
    var i := 0;
    while measurementsOngoing && timer <= TimerLimit && i < |snaps|
      invariant i <= |snaps| && i <= TimerLimit + 1
      invariant measurementsOngoing ==> i <= n && timer == i
      invariant !measurementsOngoing ==> i == n + 1 && timer == n
    {
      if AllMeasured(snaps[i]) {
        measurementsOngoing := false;
      } else {
        timer := timer + 1;
      }
      i := i + 1;
    }
    if !measurementsOngoing {
      outcome := Measured(i);
    } else if timer > TimerLimit {
      outcome := StartupTimeout(timer);
    } else {
      outcome := Pending;
    }
  }

  /**
   * The corrected wait decides within TimerLimit + 1 polls, returns on
   * exactly the traces where the written loop returns (after the same number
   * of polls), and times out on exactly the traces where the written loop
   * never returns.
   */
  lemma WaitIntendedDecides(snaps: seq<Snapshot>)
    ensures TimerLimit < |snaps| ==> !WaitIntended(snaps).Pending?
    ensures WaitIntended(snaps).Measured? ==> WaitIntended(snaps).polls <= TimerLimit + 1
    ensures forall p :: WaitIntended(snaps) == Measured(p) <==> WaitAsWritten(snaps) == Exited(p)
    ensures TimerLimit < |snaps| ==>
      (WaitIntended(snaps).StartupTimeout? <==> WaitAsWritten(snaps).StillWaiting?)
  {
  }

  // ---------------------------------------------------------------------------
  // The agent's fields

  /** What the climate sensor driver returns: humidity and temperature, each possibly unset. */
  datatype ClimateReading = ClimateReading(humidity: Option<real>, temperature: Option<real>)

  /** Why a distance update raises or does not finish. */
  datatype DistanceError =
    | NoTemperature  // the temperature field is unset, so the speed-of-sound formula raises a TypeError
    | EchoPending    // the trace ended while the echo timer was still polling

  /** The sensor agent's pin numbers and latest readings. */
  class Sensors {
    const gpioTrigger: int
    const gpioEcho: int
    const gpioTemp: int
    var temperature: Option<real>
    var humidity: Option<real>
    var distance: Option<real>

    /** Pins 18 (trigger), 24 (echo) and 17 (climate); temperature preset to 22, the rest unset. */
    constructor ()
      ensures gpioTrigger == 18 && gpioEcho == 24 && gpioTemp == 17
      ensures temperature == Some(22.0) && humidity == None && distance == None
    {
      gpioTrigger, gpioEcho, gpioTemp := 18, 24, 17;
      temperature := Some(22.0);
      humidity := None;
      distance := None;
    }

    /** Both climate fields take the driver's values, unset ones included: no fallback. */
    method GetTemperatureAndHumidity(reading: ClimateReading)
      modifies this
      ensures humidity == reading.humidity && temperature == reading.temperature
      ensures distance == old(distance)
    {
      humidity, temperature := reading.humidity, reading.temperature;
    }

    /**
     * Stores the distance for the next echo. The speed of sound is computed
     * before the echo is timed, so an unset temperature raises without
     * polling the pin.
     */
    method CalculateDistanceBasedOnTemperature(startClock: real, stopClock: real, polls: seq<Poll>)
      returns (r: Result<real, DistanceError>)
      modifies this
      ensures temperature == old(temperature) && humidity == old(humidity)
      ensures temperature.None? ==> r == Failure(NoTemperature)
      ensures temperature.Some? ==>
        match EchoDuration(startClock, stopClock, polls)
        case None => r == Failure(EchoPending)
        case Some(e) => r == Success(DistanceFromEcho(temperature.value, e))
      ensures distance == if r.Success? then Some(r.value) else old(distance)
    {
      if temperature.None? {
        return Failure(NoTemperature);
      }
      var soundSpeed := SoundSpeed(temperature.value);
      var echoTime := GetEchoTime(startClock, stopClock, polls);
      if echoTime.None? {
        return Failure(EchoPending);
      }
      var d := ((soundSpeed * 100.0) * echoTime.value) / 2.0;
      assert d == DistanceFromEcho(temperature.value, echoTime.value);
      distance := Some(d);
      r := Success(d);
    }

    /**
     * One pass of the agent's loop: a climate read, then a distance update
     * with the temperature just read. A failed climate read therefore makes
     * the distance update raise.
     */
    method UpdateDistanceTempAndHumidity(reading: ClimateReading, startClock: real, stopClock: real, polls: seq<Poll>)
      returns (r: Result<real, DistanceError>)
      modifies this
      ensures humidity == reading.humidity && temperature == reading.temperature
      ensures reading.temperature.None? ==> r == Failure(NoTemperature) && distance == old(distance)
      ensures reading.temperature.Some? && EchoDuration(startClock, stopClock, polls).None? ==>
        r == Failure(EchoPending) && distance == old(distance)
      ensures reading.temperature.Some? && EchoDuration(startClock, stopClock, polls).Some? ==>
        r == Success(DistanceFromEcho(reading.temperature.value, EchoDuration(startClock, stopClock, polls).value))
        && distance == Some(r.value)
    {
      GetTemperatureAndHumidity(reading);
      r := CalculateDistanceBasedOnTemperature(startClock, stopClock, polls);
    }
  }
}
