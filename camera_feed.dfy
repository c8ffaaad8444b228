/** One dashboard camera feed: it polls the sidecar's latest result and
    debounces plate readings before announcing a detection. */
module CameraFeed {

  import opened Wrappers
  import opened LatestDetections

  /** Consecutive identical readings needed before a plate is trusted. */
  const StabilityThreshold: nat := 5

  /** A detection announced to the parent view and posted to the backend. */
  datatype Emission = Emission(plate: string, direction: string)

  /** The debounce state: the counter `{plate, count}` and the plate last
      announced. */
  datatype FeedState = FeedState(plate: Option<string>, count: nat, stable: Option<string>)

  /** The outcome of one reading: the next state and the plate announced,
      if any. */
  datatype StepResult = StepResult(state: FeedState, announced: Option<string>)

  /** A reading counts only when it is a non-empty string. */
  predicate Present(reading: Option<string>)
  {
    reading.Some? && reading.value != ""
  }

  /** The counter is empty exactly when its count is 0, and it never holds
      an empty plate. */
  predicate CounterOk(s: FeedState)
  {
    (s.count == 0 <==> s.plate.None?) && (s.plate.Some? ==> s.plate.value != "")
  }

  /** The state of a feed before any reading, and after a reset. */
  function Fresh(stable: Option<string>): FeedState
  {
    FeedState(None, 0, stable)
  }

  /** One reading: an absent reading resets the counter; a reading equal
      to the counted plate adds one; another starts a new count at 1. A
      plate is announced when its count has reached the threshold and it
      is not already the announced plate. */
  function Step(s: FeedState, reading: Option<string>): StepResult
  {
    if !Present(reading) then StepResult(Fresh(s.stable), None)
    else
      var count := if reading == s.plate then s.count + 1 else 1;
      var announce := count >= StabilityThreshold && s.stable != reading;
      StepResult(FeedState(reading, count, if announce then reading else s.stable),
                 if announce then reading else None)
  }

  /** The state after a whole sequence of readings. */
  function Run(s: FeedState, readings: seq<Option<string>>): FeedState
  {
    if readings == [] then s
    else Step(Run(s, readings[..|readings| - 1]), readings[|readings| - 1]).state
  }

  /** The plates announced along a sequence of readings, in order. */
  function Announced(s: FeedState, readings: seq<Option<string>>): seq<string>
  {
    if readings == [] then []
    else
      var before := Run(s, readings[..|readings| - 1]);
      var step := Step(before, readings[|readings| - 1]);
      Announced(s, readings[..|readings| - 1]) + (if step.announced.Some? then [step.announced.value] else [])
  }

  /** How many readings at the end of the sequence are the plate `p`. */
  function TrailingRun(readings: seq<Option<string>>, p: string): nat
  {
    if readings == [] || readings[|readings| - 1] != Some(p) then 0
    else TrailingRun(readings[..|readings| - 1], p) + 1
  }

  /** The step keeps the counter well formed. */
  lemma StepKeepsCounterOk(s: FeedState, reading: Option<string>)
    requires CounterOk(s)
    ensures CounterOk(Step(s, reading).state)
  {
  }

  /** From an empty counter, the counter after any sequence of readings
      holds the last reading with the length of the unbroken run of it at
      the end, or is empty when the last reading is absent. */
  lemma {:induction false} RunCounts(s: FeedState, readings: seq<Option<string>>)
    requires s.plate.None? && s.count == 0
    ensures var r := Run(s, readings);
      if readings != [] && Present(readings[|readings| - 1]) then
        r.plate == readings[|readings| - 1] && r.count == TrailingRun(readings, readings[|readings| - 1].value)
      else r.plate.None? && r.count == 0
  {
    if readings != [] {
      var n := |readings| - 1;
      var prefix := readings[..n];
      RunCounts(s, prefix);
      var last := readings[n];
      if Present(last) && prefix != [] && prefix[n - 1] == last {
        assert prefix[..n - 1] == readings[..n - 1];
      }
    }
  }

  /** From an empty counter, a reading is announced exactly when it is
      present, it closes an unbroken run of at least five equal readings,
      and it is not already the announced plate. */
  lemma AnnouncedIff(s: FeedState, readings: seq<Option<string>>, reading: Option<string>)
    requires s.plate.None? && s.count == 0
    ensures Step(Run(s, readings), reading).announced.Some? <==>
      && Present(reading)
      && TrailingRun(readings + [reading], reading.value) >= StabilityThreshold
      && Run(s, readings).stable != reading
    ensures Step(Run(s, readings), reading).announced.Some? ==> Step(Run(s, readings), reading).announced == reading
  {
    RunCounts(s, readings + [reading]);
    assert (readings + [reading])[..|readings|] == readings;
  }

  /** While the announced plate is `p`, readings of `p` and absent readings
      announce nothing, however they interleave: a reset does not clear the
      announced plate, so `p` coming back is not announced again. */
  lemma {:induction false} NoReannouncement(s: FeedState, readings: seq<Option<string>>, p: string)
    requires s.stable == Some(p)
    requires forall i :: 0 <= i < |readings| ==> readings[i] == Some(p) || !Present(readings[i])
    ensures Announced(s, readings) == []
    ensures Run(s, readings).stable == Some(p)
  {
    if readings != [] {
      var n := |readings| - 1;
      NoReannouncement(s, readings[..n], p);
    }
  }

  /** An unbroken run of one plate, from any state, announces at most once. */
  lemma {:induction false} OneAnnouncementPerRun(s: FeedState, p: string, n: nat)
    requires p != ""
    ensures |Announced(s, seq(n, _ => Some(p)))| <= 1
    ensures |Announced(s, seq(n, _ => Some(p)))| == 1 ==> Run(s, seq(n, _ => Some(p))).stable == Some(p)
    ensures s.stable == Some(p) ==> Announced(s, seq(n, _ => Some(p))) == []
  {
    if n > 0 {
      var run := seq(n, _ => Some(p));
      assert run[..n - 1] == seq(n - 1, _ => Some(p));
      OneAnnouncementPerRun(s, p, n - 1);
      if s.stable == Some(p) {
        NoReannouncement(s, run, p);
      }
      var before := Run(s, run[..n - 1]);
      if |Announced(s, run[..n - 1])| == 1 {
        assert before.stable == Some(p);
      }
    }
  }

  /** A reset followed by five readings of one plate announces it once,
      after the fifth reading. */
  lemma FiveReadingsScenario(p: string)
    requires p != ""
    ensures var rs := [None, Some(p), Some(p), Some(p), Some(p), Some(p)];
      Announced(Fresh(None), rs) == [p] && Announced(Fresh(None), rs[..5]) == []
  {
    var rs := [None, Some(p), Some(p), Some(p), Some(p), Some(p)];
    var s := Fresh(None);
    var r1: seq<Option<string>> := [None];
    var r2 := r1 + [Some(p)];
    var r3 := r2 + [Some(p)];
    var r4 := r3 + [Some(p)];
    var r5 := r4 + [Some(p)];
    assert r1[..0] == [] && r2[..1] == r1 && r3[..2] == r2 && r4[..3] == r3 && r5[..4] == r4;
    assert rs[..5] == r5 && rs == r5 + [Some(p)] && rs[..5] == r5;
    assert Run(s, r1) == s && Announced(s, r1) == [];
    assert Run(s, r2) == FeedState(Some(p), 1, None) && Announced(s, r2) == [];
    assert Run(s, r3) == FeedState(Some(p), 2, None) && Announced(s, r3) == [];
    assert Run(s, r4) == FeedState(Some(p), 3, None) && Announced(s, r4) == [];
    assert Run(s, r5) == FeedState(Some(p), 4, None) && Announced(s, r5) == [];
  }

  class Feed {
    /** The direction this feed is configured with. */
    const direction: string
    /** The stability counter `{plate, count}`. */
    var plate: Option<string>
    var count: nat
    /** The plate last announced. */
    var stablePlate: Option<string>
    /** The last poll result that carried a detection. */
    var lastResult: Option<LatestResult>

    ghost predicate Valid()
      reads this
    {
      CounterOk(State())
    }

    /** The debounce state of the feed. */
    function State(): FeedState
      reads this
    {
      FeedState(plate, count, stablePlate)
    }

    constructor (direction: string)
      ensures Valid() && this.direction == direction
      ensures State() == Fresh(None) && lastResult == None
    {
      this.direction := direction;
      plate, count, stablePlate := None, 0, None;
      lastResult := None;
    }

    /** Feeds one reading through the debounce. An absent reading resets the
      counter; the same plate adds one; another plate restarts at 1. An
      announcement, carrying the feed's direction, happens exactly when the
      count has reached five and the plate is not the announced one, and
      the plate then becomes the announced one. */
    method ProcessDetection(plateText: Option<string>) returns (e: Option<Emission>)
      requires Valid()
      modifies this
      ensures Valid()
      ensures !Present(plateText) ==> plate == None && count == 0 && stablePlate == old(stablePlate) && e == None
      ensures Present(plateText) && plateText == old(plate) ==> plate == plateText && count == old(count) + 1
      ensures Present(plateText) && plateText != old(plate) ==> plate == plateText && count == 1
      ensures e.Some? <==> Present(plateText) && count >= StabilityThreshold && old(stablePlate) != plateText
      ensures e.Some? ==> e.value == Emission(plateText.value, direction) && stablePlate == plateText
      ensures e.None? ==> stablePlate == old(stablePlate)
      ensures State() == Step(old(State()), plateText).state
      ensures lastResult == old(lastResult)
    {
      if !Present(plateText) {
        plate, count := None, 0;
        return None;
      }
      if plateText == plate {
        count := count + 1;
      } else {
        plate, count := plateText, 1;
      }
      e := None;
      if count >= StabilityThreshold {
        if stablePlate != plateText {
          stablePlate := plateText;
          e := Some(Emission(plateText.value, direction));
        }
      }
    }

    /** One poll of the sidecar. A failed request, or a result whose
      timestamp is not positive (the "no detection yet" default), is not
      fed to the debounce and changes nothing; otherwise its text is fed
      and the result is kept as the last one. */
    method OnPoll(response: Option<LatestResult>) returns (e: Option<Emission>)
      requires Valid()
      modifies this
      ensures Valid()
      ensures response.None? || response.value.timestamp <= 0 ==>
        e == None && State() == old(State()) && lastResult == old(lastResult)
      ensures response.Some? && response.value.timestamp > 0 ==>
        && State() == Step(old(State()), Some(response.value.plateText)).state
        && lastResult == response
        && (e.Some? <==> Step(old(State()), Some(response.value.plateText)).announced.Some?)
        && (e.Some? ==> e.value == Emission(response.value.plateText, direction))
    {
      e := None;
      if response.Some? && response.value.timestamp > 0 {
        e := ProcessDetection(Some(response.value.plateText));
        lastResult := response;
      }
    }
  }
}
