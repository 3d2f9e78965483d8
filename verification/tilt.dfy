/** The tilt trigger state machine run on every sampling tick.

    The state is one expiry deadline per direction. On each tick the
    orientation is compared with the calibrated baseline; a pitch or roll
    deviation strictly beyond the tilt threshold re-arms that direction's
    deadline to `now + HoldTime`. An indicator is lit exactly while the
    current time is before its deadline, so a brief tilt stays visible for
    the hold time, while the tick's label reports only what crossed the
    threshold on this tick. Angles and times are real numbers; the clock
    reading arrives as a parameter. */
module Tilt {
  import opened Wrappers
  import opened Calibration

  /** Degrees of deviation from the baseline that trigger a direction. */
  const TiltDeg: real := 10.0

  /** Seconds an indicator stays lit after its direction last triggered. */
  const HoldTime: real := 1.0

  datatype Direction = Forward | Backward | Left | Right

  /** The expiry deadline of each direction (keys F, B, L and R). */
  datatype Expiry = Expiry(f: real, b: real, l: real, r: real)

  /** Which indicators are lit. */
  datatype Indicators = Indicators(forward: bool, backward: bool, left: bool, right: bool)

  /** One sampling tick's inputs: the clock reading and the orientation. */
  datatype Sample = Sample(now: real, reading: Orientation)

  /** One tick's result: the new deadlines, the indicators and the label. */
  datatype TickOutput = TickOutput(expiry: Expiry, lit: Indicators, report: string)

  /** The deadlines before the first tick: all at time zero. */
  const InitialExpiry: Expiry := Expiry(0.0, 0.0, 0.0, 0.0)

  /** All indicators off, as set at start-up and by the final cleanup. */
  const AllOff: Indicators := Indicators(false, false, false, false)

  function Deadline(e: Expiry, d: Direction): real {
    match d
    case Forward => e.f
    case Backward => e.b
    case Left => e.l
    case Right => e.r
  }

  /** Replaces the deadline of direction d and keeps the other three. */
  function SetDeadline(e: Expiry, d: Direction, t: real): (e': Expiry)
    ensures Deadline(e', d) == t
    ensures forall d' :: d' != d ==> Deadline(e', d') == Deadline(e, d')
  {
    match d
    case Forward => e.(f := t)
    case Backward => e.(b := t)
    case Left => e.(l := t)
    case Right => e.(r := t)
  }

  function IsOn(ind: Indicators, d: Direction): bool {
    match d
    case Forward => ind.forward
    case Backward => ind.backward
    case Left => ind.left
    case Right => ind.right
  }

  /** The name a direction has in the tick label. */
  function Name(d: Direction): string {
    match d
    case Forward => "FORWARD"
    case Backward => "BACKWARD"
    case Left => "LEFT"
    case Right => "RIGHT"
  }

  /** The pitch test: tilting forward makes the pitch deviation negative.
      The comparisons are strict and the second is only tried when the
      first fails. */
  function PitchFiring(p: real): (fired: Option<Direction>)
    ensures fired == Some(Forward) <==> p < -TiltDeg
    ensures fired == Some(Backward) <==> p > TiltDeg
    ensures fired == None <==> -TiltDeg <= p <= TiltDeg
  {
    if p < -TiltDeg then Some(Forward)
    else if p > TiltDeg then Some(Backward)
    else None
  }

  /** The roll test: right is tried first, then left. */
  function RollFiring(r: real): (fired: Option<Direction>)
    ensures fired == Some(Right) <==> r > TiltDeg
    ensures fired == Some(Left) <==> r < -TiltDeg
    ensures fired == None <==> -TiltDeg <= r <= TiltDeg
  {
    if r > TiltDeg then Some(Right)
    else if r < -TiltDeg then Some(Left)
    else None
  }

  /** The directions that trigger for a deviation (p, r), in the order the
      tick tests them: the pitch direction, if any, then the roll direction. */
  function Fired(p: real, r: real): (ds: seq<Direction>)
    ensures |ds| <= 2
    ensures Forward in ds <==> p < -TiltDeg
    ensures Backward in ds <==> p > TiltDeg
    ensures Right in ds <==> r > TiltDeg
    ensures Left in ds <==> r < -TiltDeg
  {
    (match PitchFiring(p) case Some(d) => [d] case None => [])
    + (match RollFiring(r) case Some(d) => [d] case None => [])
  }

  /** The names joined by single spaces. */
  function Join(names: seq<string>): string {
    if names == [] then ""
    else if |names| == 1 then names[0]
    else names[0] + " " + Join(names[1..])
  }

  /** The names of the directions in ds, in the same order. */
  function Names(ds: seq<Direction>): (names: seq<string>)
    ensures |names| == |ds|
  {
    if ds == [] then [] else [Name(ds[0])] + Names(ds[1..])
  }

  /** The label of a tick that triggered `ds`. */
  function Label(ds: seq<Direction>): string {
    if ds == [] then "No movement" else Join(Names(ds))
  }

  /** The deviation of a reading from the baseline. */
  function Deviation(baseline: Orientation, reading: Orientation): (dev: Orientation)
    ensures dev.pitch + baseline.pitch == reading.pitch
    ensures dev.roll + baseline.roll == reading.roll
  {
    Orientation(reading.pitch - baseline.pitch, reading.roll - baseline.roll)
  }

  /** The indicators for deadlines e at time now. */
  function Indicate(e: Expiry, now: real): (ind: Indicators)
    ensures forall d :: IsOn(ind, d) <==> now < Deadline(e, d)
  {
    Indicators(now < e.f, now < e.b, now < e.l, now < e.r)
  }

  /** Re-arms the deadline of the direction an axis test fired, if any. */
  function Rearm(e: Expiry, fired: Option<Direction>, t: real): (e': Expiry)
    ensures forall d :: Deadline(e', d) == if fired == Some(d) then t else Deadline(e, d)
  {
    match fired
    case Some(d) => SetDeadline(e, d, t)
    case None => e
  }

  /** One tick at time `now` with a reading taken against `baseline`.
      The directions whose threshold was crossed get the deadline
      `now + HoldTime`, every other deadline is left as it was, each
      indicator is lit exactly while `now` is before its deadline, and the
      label names what crossed the threshold on this tick. */
  function Tick(e: Expiry, baseline: Orientation, reading: Orientation, now: real): (out: TickOutput)
    ensures var dev := Deviation(baseline, reading);
            forall d :: Deadline(out.expiry, d) ==
              if d in Fired(dev.pitch, dev.roll) then now + HoldTime else Deadline(e, d)
    ensures forall d :: IsOn(out.lit, d) <==> now < Deadline(out.expiry, d)
    ensures out.report == Label(Fired(Deviation(baseline, reading).pitch, Deviation(baseline, reading).roll))
  {
    var dev := Deviation(baseline, reading);
    var e1 := Rearm(e, PitchFiring(dev.pitch), now + HoldTime);
    var e2 := Rearm(e1, RollFiring(dev.roll), now + HoldTime);
    TickOutput(e2, Indicate(e2, now), Label(Fired(dev.pitch, dev.roll)))
  }

  /** The pitch axis on one tick: forward beyond the threshold re-arms only
      F, backward beyond it re-arms only B, and within it (the threshold
      itself included) neither is touched. */
  lemma TickPitchAxis(e: Expiry, baseline: Orientation, reading: Orientation, now: real)
    ensures var p := reading.pitch - baseline.pitch;
            var e' := Tick(e, baseline, reading, now).expiry;
            && (p < -TiltDeg ==> Deadline(e', Forward) == now + HoldTime && Deadline(e', Backward) == Deadline(e, Backward))
            && (p > TiltDeg ==> Deadline(e', Backward) == now + HoldTime && Deadline(e', Forward) == Deadline(e, Forward))
            && (-TiltDeg <= p <= TiltDeg ==> Deadline(e', Forward) == Deadline(e, Forward) && Deadline(e', Backward) == Deadline(e, Backward))
  {
  }

  /** The roll axis on one tick: right beyond the threshold re-arms only R,
      left beyond it re-arms only L, and within it neither is touched. */
  lemma TickRollAxis(e: Expiry, baseline: Orientation, reading: Orientation, now: real)
    ensures var r := reading.roll - baseline.roll;
            var e' := Tick(e, baseline, reading, now).expiry;
            && (r > TiltDeg ==> Deadline(e', Right) == now + HoldTime && Deadline(e', Left) == Deadline(e, Left))
            && (r < -TiltDeg ==> Deadline(e', Left) == now + HoldTime && Deadline(e', Right) == Deadline(e, Right))
            && (-TiltDeg <= r <= TiltDeg ==> Deadline(e', Right) == Deadline(e, Right) && Deadline(e', Left) == Deadline(e, Left))
  {
  }

  /** Each axis has its own threshold test: what the pitch test re-arms does
      not depend on the roll reading, and the other way round. */
  lemma AxesIndependent(e: Expiry, baseline: Orientation, reading: Orientation, reading': Orientation, now: real)
    ensures reading.pitch == reading'.pitch ==>
              Deadline(Tick(e, baseline, reading, now).expiry, Forward) == Deadline(Tick(e, baseline, reading', now).expiry, Forward)
              && Deadline(Tick(e, baseline, reading, now).expiry, Backward) == Deadline(Tick(e, baseline, reading', now).expiry, Backward)
    ensures reading.roll == reading'.roll ==>
              Deadline(Tick(e, baseline, reading, now).expiry, Left) == Deadline(Tick(e, baseline, reading', now).expiry, Left)
              && Deadline(Tick(e, baseline, reading, now).expiry, Right) == Deadline(Tick(e, baseline, reading', now).expiry, Right)
  {
  }

  /** At most one direction per axis triggers on a tick. */
  lemma OneDirectionPerAxis(p: real, r: real)
    ensures !(Forward in Fired(p, r) && Backward in Fired(p, r))
    ensures !(Left in Fired(p, r) && Right in Fired(p, r))
  {
  }

  /** A tick that deviates beyond the threshold on both axes lights a
      pitch and a roll indicator together, with no priority between the
      axes; for instance +15 degrees of pitch and roll give BACKWARD and
      RIGHT, labelled "BACKWARD RIGHT". */
  lemma BothAxesFire(e: Expiry, baseline: Orientation, reading: Orientation, now: real)
    requires reading.pitch - baseline.pitch > TiltDeg
    requires reading.roll - baseline.roll > TiltDeg
    ensures var out := Tick(e, baseline, reading, now);
            IsOn(out.lit, Backward) && IsOn(out.lit, Right) && out.report == "BACKWARD RIGHT"
  {
    var dev := Deviation(baseline, reading);
    LabelSpelledOut(dev.pitch, dev.roll);
  }

  /** The label spelled out: "No movement" when nothing triggered, the
      single name when one axis triggered, and the pitch name, a space and
      the roll name when both did. */
  lemma LabelSpelledOut(p: real, r: real)
    ensures Label(Fired(p, r)) ==
      match (PitchFiring(p), RollFiring(r))
      case (None, None) => "No movement"
      case (Some(a), None) => Name(a)
      case (None, Some(b)) => Name(b)
      case (Some(a), Some(b)) => Name(a) + " " + Name(b)
  {
    var ds := Fired(p, r);
    match (PitchFiring(p), RollFiring(r))
    case (Some(a), Some(b)) =>
      assert ds == [a, b];
      assert [a, b][1..] == [b];
      assert Names([b]) == [Name(b)];
      assert Names(ds) == [Name(a), Name(b)];
      assert [Name(a), Name(b)][1..] == [Name(b)];
      assert Join([Name(b)]) == Name(b);
      assert Join([Name(a), Name(b)]) == Name(a) + " " + Name(b);
    case (Some(a), None) =>
      assert ds == [a];
      assert Names(ds) == [Name(a)];
    case (None, Some(b)) =>
      assert ds == [b];
      assert Names(ds) == [Name(b)];
    case (None, None) =>
  }

  /** The tick outputs are the same whatever the held deadlines were,
      except for the deadlines and indicators: the label reports this tick's
      threshold crossings only. */
  lemma LabelIgnoresHeldState(e: Expiry, e': Expiry, baseline: Orientation, reading: Orientation, now: real)
    ensures Tick(e, baseline, reading, now).report == Tick(e', baseline, reading, now).report
    ensures Tick(e, baseline, reading, now).report == "No movement" <==>
              -TiltDeg <= reading.pitch - baseline.pitch <= TiltDeg && -TiltDeg <= reading.roll - baseline.roll <= TiltDeg
  {
    var dev := Deviation(baseline, reading);
    LabelSpelledOut(dev.pitch, dev.roll);
  }

  /** Sampling times never go backwards. */
  predicate NonDecreasing(trace: seq<Sample>) {
    forall i, j :: 0 <= i < j < |trace| ==> trace[i].now <= trace[j].now
  }

  /** Direction d crossed its threshold on tick i of the trace. */
  predicate FiresAt(baseline: Orientation, trace: seq<Sample>, i: nat, d: Direction)
    requires i < |trace|
  {
    var dev := Deviation(baseline, trace[i].reading);
    d in Fired(dev.pitch, dev.roll)
  }

  /** The deadlines after running every tick of the trace from e0. */
  function Run(e0: Expiry, baseline: Orientation, trace: seq<Sample>): Expiry
    decreases |trace|, 1
  {
    if trace == [] then e0 else LastTick(e0, baseline, trace).expiry
  }

  /** The output of the last tick of the trace, run after all the others. */
  function LastTick(e0: Expiry, baseline: Orientation, trace: seq<Sample>): TickOutput
    requires trace != []
    decreases |trace|, 0
  {
    var last := trace[|trace| - 1];
    Tick(Run(e0, baseline, trace[..|trace| - 1]), baseline, last.reading, last.now)
  }

  /** The last tick of a trace re-arms d exactly when d fires on it and
      otherwise keeps the deadline left by the ticks before it. */
  lemma RunLast(e0: Expiry, baseline: Orientation, trace: seq<Sample>, d: Direction)
    requires trace != []
    ensures Deadline(Run(e0, baseline, trace), d) ==
              if FiresAt(baseline, trace, |trace| - 1, d) then trace[|trace| - 1].now + HoldTime
              else Deadline(Run(e0, baseline, trace[..|trace| - 1]), d)
  {
  }

  /** With no later tick earlier than tick i, the deadline of d is at
      least the hold time past tick i when d fired on it. */
  lemma {:induction false} DeadlineCoversFiring(e0: Expiry, baseline: Orientation, trace: seq<Sample>, i: nat, d: Direction)
    requires i < |trace| && FiresAt(baseline, trace, i, d)
    requires forall j :: i <= j < |trace| ==> trace[i].now <= trace[j].now
    ensures trace[i].now + HoldTime <= Deadline(Run(e0, baseline, trace), d)
    decreases |trace|
  {
    var n := |trace|;
    RunLast(e0, baseline, trace, d);
    if i < n - 1 {
      var prefix := trace[..n - 1];
      assert prefix[i] == trace[i];
      assert forall j :: i <= j < |prefix| ==> prefix[j] == trace[j];
      DeadlineCoversFiring(e0, baseline, prefix, i, d);
      assert trace[i].now <= trace[n - 1].now;
    }
  }

  /** Where the deadline of d comes from: either no tick re-armed it and
      it is still the initial one (None), or it is the hold time past a
      tick j on which d fired (Some(j)). */
  lemma {:induction false} DeadlineSource(e0: Expiry, baseline: Orientation, trace: seq<Sample>, d: Direction)
    returns (src: Option<nat>)
    ensures src == None ==> Deadline(Run(e0, baseline, trace), d) == Deadline(e0, d)
    ensures src.Some? ==> src.value < |trace| && FiresAt(baseline, trace, src.value, d)
    ensures src.Some? ==> Deadline(Run(e0, baseline, trace), d) == trace[src.value].now + HoldTime
    decreases |trace|
  {
    var n := |trace|;
    if n == 0 {
      src := None;
    } else {
      var prefix := trace[..n - 1];
      RunLast(e0, baseline, trace, d);
      if FiresAt(baseline, trace, n - 1, d) {
        src := Some(n - 1);
      } else {
        src := DeadlineSource(e0, baseline, prefix, d);
        if src.Some? {
          assert prefix[src.value] == trace[src.value];
        }
      }
    }
  }

  /** The indicators after the last tick, stated without deadlines: d is
      lit exactly when d fired on some tick less than the hold time before
      the last one. This needs time never to go backwards and the initial
      deadline to have passed (as the all-zero start does for any
      non-negative clock). */
  lemma LitIffRecentFiring(e0: Expiry, baseline: Orientation, trace: seq<Sample>, d: Direction)
    requires trace != [] && NonDecreasing(trace)
    requires Deadline(e0, d) <= trace[|trace| - 1].now
    ensures IsOn(LastTick(e0, baseline, trace).lit, d) <==>
              exists i :: 0 <= i < |trace| && FiresAt(baseline, trace, i, d)
                && trace[|trace| - 1].now < trace[i].now + HoldTime
  {
    var now := trace[|trace| - 1].now;
    if exists i :: 0 <= i < |trace| && FiresAt(baseline, trace, i, d) && now < trace[i].now + HoldTime {
      var i :| 0 <= i < |trace| && FiresAt(baseline, trace, i, d) && now < trace[i].now + HoldTime;
      DeadlineCoversFiring(e0, baseline, trace, i, d);
    } else {
      var src := DeadlineSource(e0, baseline, trace, d);
    }
  }

  /** Hold: once d fires at time t, every later tick before t + HoldTime
      shows d lit, whether or not anything fires on it. */
  lemma HeldAfterFiring(e0: Expiry, baseline: Orientation, trace: seq<Sample>, i: nat, d: Direction)
    requires NonDecreasing(trace)
    requires i < |trace| && FiresAt(baseline, trace, i, d)
    requires trace[|trace| - 1].now < trace[i].now + HoldTime
    ensures IsOn(LastTick(e0, baseline, trace).lit, d)
  {
    DeadlineCoversFiring(e0, baseline, trace, i, d);
  }

  /** Expiry: with no firing of d in the last HoldTime, d is off, once the
      initial deadline has passed. Time may even step backwards: every
      deadline is the initial one or the hold time past a firing. */
  lemma OffAfterHold(e0: Expiry, baseline: Orientation, trace: seq<Sample>, d: Direction)
    requires trace != []
    requires Deadline(e0, d) <= trace[|trace| - 1].now
    requires forall i :: 0 <= i < |trace| && FiresAt(baseline, trace, i, d) ==>
               trace[i].now + HoldTime <= trace[|trace| - 1].now
    ensures !IsOn(LastTick(e0, baseline, trace).lit, d)
  {
    var src := DeadlineSource(e0, baseline, trace, d);
  }

  /** From the all-zero start, an indicator whose direction never fired
      is off whenever the last tick's time is non-negative. */
  lemma InitiallyOff(baseline: Orientation, trace: seq<Sample>, d: Direction)
    requires trace != [] && trace[|trace| - 1].now >= 0.0
    requires forall i :: 0 <= i < |trace| ==> !FiresAt(baseline, trace, i, d)
    ensures !IsOn(LastTick(InitialExpiry, baseline, trace).lit, d)
  {
    OffAfterHold(InitialExpiry, baseline, trace, d);
  }

  /** The trace without its last tick keeps time non-decreasing and
      starts and ends where expected. */
  lemma DropLast(trace: seq<Sample>)
    requires |trace| > 1 && NonDecreasing(trace)
    ensures NonDecreasing(trace[..|trace| - 1])
    ensures trace[..|trace| - 1][0] == trace[0]
    ensures trace[..|trace| - 1][|trace| - 2].now <= trace[|trace| - 1].now
  {
  }

  /** Deadlines are bounded by the hold time past the latest tick: a tick
      never sets one further out than that. */
  lemma {:induction false} DeadlineBound(e0: Expiry, baseline: Orientation, trace: seq<Sample>, d: Direction)
    requires trace != [] && NonDecreasing(trace)
    requires Deadline(e0, d) <= trace[0].now + HoldTime
    ensures Deadline(Run(e0, baseline, trace), d) <= trace[|trace| - 1].now + HoldTime
    decreases |trace|
  {
    var n := |trace|;
    RunLast(e0, baseline, trace, d);
    if n > 1 {
      DropLast(trace);
      DeadlineBound(e0, baseline, trace[..n - 1], d);
    } else {
      assert trace[..n - 1] == [];
      assert Run(e0, baseline, trace[..n - 1]) == e0;
    }
  }

  /** The last tick of a trace does not move any deadline earlier. */
  lemma LastTickNeverLowers(e0: Expiry, baseline: Orientation, trace: seq<Sample>, d: Direction)
    requires trace != [] && NonDecreasing(trace)
    requires Deadline(e0, d) <= trace[0].now + HoldTime
    ensures Deadline(Run(e0, baseline, trace[..|trace| - 1]), d) <= Deadline(Run(e0, baseline, trace), d)
  {
    var n := |trace|;
    if n > 1 {
      DropLast(trace);
      DeadlineBound(e0, baseline, trace[..n - 1], d);
    } else {
      assert trace[..n - 1] == [];
    }
  }

  /** With time never going backwards, no deadline ever moves earlier:
      the deadline after any prefix of the trace is at most the deadline
      after the whole trace. */
  lemma {:induction false} DeadlinesNeverDecrease(e0: Expiry, baseline: Orientation, trace: seq<Sample>, k: nat, d: Direction)
    requires trace != [] && NonDecreasing(trace)
    requires Deadline(e0, d) <= trace[0].now + HoldTime
    requires k <= |trace|
    ensures Deadline(Run(e0, baseline, trace[..k]), d) <= Deadline(Run(e0, baseline, trace), d)
    decreases |trace|
  {
    var n := |trace|;
    if k == n {
      assert trace[..k] == trace;
    } else {
      var prefix := trace[..n - 1];
      LastTickNeverLowers(e0, baseline, trace, d);
      if k < n - 1 {
        DropLast(trace);
        assert prefix[..k] == trace[..k];
        DeadlinesNeverDecrease(e0, baseline, prefix, k, d);
      }
    }
  }

  /** The indicators of the last tick are lit exactly while its time is
      before the deadlines the trace leaves. */
  lemma LastTickLit(e0: Expiry, baseline: Orientation, trace: seq<Sample>, d: Direction)
    requires trace != []
    ensures IsOn(LastTick(e0, baseline, trace).lit, d) <==> trace[|trace| - 1].now < Deadline(Run(e0, baseline, trace), d)
  {
  }

  /** A forward tilt at time t lights FORWARD on that tick. */
  lemma ScenarioTiltLights(baseline: Orientation, tilted: Orientation, t: real)
    requires tilted.pitch - baseline.pitch < -TiltDeg
    ensures IsOn(LastTick(InitialExpiry, baseline, [Sample(t, tilted)]).lit, Forward)
  {
    var trace := [Sample(t, tilted)];
    assert FiresAt(baseline, trace, 0, Forward);
    RunLast(InitialExpiry, baseline, trace, Forward);
    LastTickLit(InitialExpiry, baseline, trace, Forward);
  }

  /** After a forward tilt at time t, a level reading on a later tick
      inside the hold keeps FORWARD lit while the label already says
      "No movement". */
  lemma ScenarioHeldWhileLevel(baseline: Orientation, tilted: Orientation, level: Orientation, t: real, t2: real)
    requires t <= t2 < t + HoldTime
    requires tilted.pitch - baseline.pitch < -TiltDeg
    requires -TiltDeg <= level.pitch - baseline.pitch <= TiltDeg
    requires -TiltDeg <= level.roll - baseline.roll <= TiltDeg
    ensures var trace := [Sample(t, tilted), Sample(t2, level)];
            IsOn(LastTick(InitialExpiry, baseline, trace).lit, Forward)
            && LastTick(InitialExpiry, baseline, trace).report == "No movement"
  {
    var s0, s1 := Sample(t, tilted), Sample(t2, level);
    var trace := [s0, s1];
    assert trace[..1] == [s0];
    assert FiresAt(baseline, [s0], 0, Forward);
    RunLast(InitialExpiry, baseline, [s0], Forward);
    RunLast(InitialExpiry, baseline, trace, Forward);
    LastTickLit(InitialExpiry, baseline, trace, Forward);
    LabelIgnoresHeldState(Run(InitialExpiry, baseline, [s0]), InitialExpiry, baseline, level, t2);
  }

  /** After a forward tilt at time t and a level reading since, a tick
      with a level reading at exactly t + HoldTime finds FORWARD off. */
  lemma ScenarioOffAtHoldEnd(baseline: Orientation, tilted: Orientation, level: Orientation, t: real, t2: real)
    requires t <= t2 <= t + HoldTime
    requires tilted.pitch - baseline.pitch < -TiltDeg
    requires -TiltDeg <= level.pitch - baseline.pitch <= TiltDeg
    ensures var trace := [Sample(t, tilted), Sample(t2, level), Sample(t + HoldTime, level)];
            !IsOn(LastTick(InitialExpiry, baseline, trace).lit, Forward)
  {
    var s0, s1, s2 := Sample(t, tilted), Sample(t2, level), Sample(t + HoldTime, level);
    var trace := [s0, s1, s2];
    assert trace[..2] == [s0, s1];
    assert [s0, s1][..1] == [s0];
    assert FiresAt(baseline, [s0], 0, Forward);
    assert !FiresAt(baseline, [s0, s1], 1, Forward);
    assert !FiresAt(baseline, trace, 2, Forward);
    RunLast(InitialExpiry, baseline, [s0], Forward);
    RunLast(InitialExpiry, baseline, [s0, s1], Forward);
    RunLast(InitialExpiry, baseline, trace, Forward);
    LastTickLit(InitialExpiry, baseline, trace, Forward);
  }
}
