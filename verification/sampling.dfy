/** The sampling loop around the trigger state machine: all indicators are
    switched off at start-up, every tick writes the four indicators it
    computed, the label is printed only when it differs from the one
    printed last, and whatever ends the loop (an operator interrupt or a
    failing sensor read) the cleanup switches all four indicators off.
    The ticks that completed before the loop ended arrive as a trace. */
module Sampling {
  import opened Calibration
  import opened Tilt

  /** The indicator output of every completed tick, in order. */
  function TickLights(baseline: Orientation, trace: seq<Sample>): (lights: seq<Indicators>)
    ensures |lights| == |trace|
    ensures forall i :: 0 <= i < |trace| ==> lights[i] == LastTick(InitialExpiry, baseline, trace[..i + 1]).lit
  {
    seq(|trace|, i requires 0 <= i < |trace| => LastTick(InitialExpiry, baseline, trace[..i + 1]).lit)
  }

  /** The label of every completed tick, in order. */
  function TickLabels(baseline: Orientation, trace: seq<Sample>): (labels: seq<string>)
    ensures |labels| == |trace|
    ensures forall i :: 0 <= i < |trace| ==> labels[i] == LastTick(InitialExpiry, baseline, trace[..i + 1]).report
  {
    seq(|trace|, i requires 0 <= i < |trace| => LastTick(InitialExpiry, baseline, trace[..i + 1]).report)
  }

  /** Every indicator state the program writes: all off at start-up, one
      state per completed tick, and all off again on the way out. */
  function Session(baseline: Orientation, trace: seq<Sample>): (writes: seq<Indicators>)
    ensures |writes| == |trace| + 2
    ensures writes[0] == AllOff && writes[|writes| - 1] == AllOff
    ensures forall i, d :: 1 <= i <= |trace| ==>
              (IsOn(writes[i], d) <==> trace[i - 1].now < Deadline(Run(InitialExpiry, baseline, trace[..i]), d))
  {
    [AllOff] + TickLights(baseline, trace) + [AllOff]
  }

  /** Whatever tick the loop stopped after, the indicators are left off,
      and a session that ran longer wrote the same states up to that
      point. */
  lemma SessionEndsOff(baseline: Orientation, trace: seq<Sample>, k: nat)
    requires k <= |trace|
    ensures Session(baseline, trace[..k])[k + 1] == AllOff
    ensures Session(baseline, trace[..k])[..k + 1] == Session(baseline, trace)[..k + 1]
  {
    var short, long := Session(baseline, trace[..k]), Session(baseline, trace);
    forall i | 0 <= i < k + 1
      ensures short[i] == long[i]
    {
      if i > 0 {
        assert trace[..k][..i] == trace[..i];
        assert short[i] == TickLights(baseline, trace[..k])[i - 1];
        assert long[i] == TickLights(baseline, trace)[i - 1];
      }
    }
  }

  /** The labels at which the label changed: each label is kept exactly
      when it differs from the label of the tick before it (from `prev` for
      the first). */
  function Changes(labels: seq<string>, prev: string): seq<string> {
    if labels == [] then []
    else (if labels[0] != prev then [labels[0]] else []) + Changes(labels[1..], labels[0])
  }

  /** The labels the loop prints: a label is printed only when it differs
      from the last one printed. Since the last line printed is always the
      previous tick's label, exactly the changes are printed. */
  function Printed(labels: seq<string>, last: string): (out: seq<string>)
    ensures |out| <= |labels|
    ensures forall i :: 0 <= i < |out| ==> out[i] in labels
    ensures out == Changes(labels, last)
  {
    if labels == [] then []
    else if labels[0] != last then [labels[0]] + Printed(labels[1..], labels[0])
    else Printed(labels[1..], last)
  }

  predicate NoAdjacentRepeats(s: seq<string>) {
    forall i :: 0 < i < |s| ==> s[i] != s[i - 1]
  }

  /** The printed lines never repeat the previous line, and the first one
      differs from what was printed before. */
  lemma {:induction false} PrintedNeverRepeats(labels: seq<string>, last: string)
    ensures NoAdjacentRepeats(Printed(labels, last))
    ensures Printed(labels, last) != [] ==> Printed(labels, last)[0] != last
  {
    if labels != [] {
      PrintedNeverRepeats(labels[1..], if labels[0] != last then labels[0] else last);
    }
  }

  /** When consecutive labels always differ, every label is printed. */
  lemma {:induction false} ChangesAllPrinted(labels: seq<string>, last: string)
    requires NoAdjacentRepeats(labels)
    requires labels != [] ==> labels[0] != last
    ensures Printed(labels, last) == labels
  {
    if labels != [] {
      ChangesAllPrinted(labels[1..], labels[0]);
    }
  }

  /** A label repeated on consecutive ticks is printed once. */
  lemma {:induction false} RepeatPrintedOnce(line: string, n: nat, last: string)
    requires n > 0 && line != last
    ensures Printed(seq(n, _ => line), last) == [line]
  {
    var labels := seq(n, _ => line);
    assert labels[1..] == seq(n - 1, _ => line);
    Quiet(line, n - 1);
  }

  /** Labels equal to the last one printed print nothing. */
  lemma {:induction false} Quiet(line: string, n: nat)
    ensures Printed(seq(n, _ => line), line) == []
  {
    if n > 0 {
      assert seq(n, _ => line)[1..] == seq(n - 1, _ => line);
      Quiet(line, n - 1);
    }
  }

  /** The labels printed over a session start from an empty last line, and
      no tick label is empty, so the first tick's label is always printed. */
  lemma FirstLabelPrinted(baseline: Orientation, trace: seq<Sample>)
    requires trace != []
    ensures var out := Printed(TickLabels(baseline, trace), "");
            out != [] && out[0] == TickLabels(baseline, trace)[0]
  {
    var first := LastTick(InitialExpiry, baseline, trace[..1]);
    var reading := trace[0].reading;
    var dev := Deviation(baseline, reading);
    assert trace[..1][|trace[..1]| - 1] == trace[0];
    LabelSpelledOut(dev.pitch, dev.roll);
    assert first.report != "";
  }
}
