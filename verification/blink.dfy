/** The blink-count prompt and the blink loop. The prompt keeps asking
    until the answer is a whole number from 0 to 100; the loop then turns
    the LED on and off that many times and reports its progress after each
    blink. Parsing the typed text with `int()` is outside the model: each
    answer arrives as the integer it parsed to, or as a parse failure.
    The one-second pauses are left out. */
module BlinkCount {
  import opened Wrappers

  /** Largest blink count the prompt accepts. */
  const MaxBlinks: int := 100

  /** One answer to the prompt, after `int()`. */
  datatype Entry = Integer(n: int) | NotAnInteger

  /** The prompt's verdict on one answer. */
  datatype Verdict = Accept(count: nat) | Negative | TooMany | NotANumber

  /** Checks one answer: a parse failure, a negative number and a number
      above 100 are each rejected with their own message; 100 itself is
      accepted. */
  function Validate(e: Entry): (v: Verdict)
    ensures v.Accept? <==> e.Integer? && 0 <= e.n <= MaxBlinks
    ensures v.Accept? ==> v.count == e.n
    ensures v == Negative <==> e.Integer? && e.n < 0
    ensures v == TooMany <==> e.Integer? && e.n > MaxBlinks
  {
    match e
    case NotAnInteger => NotANumber
    case Integer(n) =>
      if n < 0 then Negative
      else if n > MaxBlinks then TooMany
      else Accept(n)
  }

  /** The boundaries: 0 and 100 are accepted, -1 and 101 are not. */
  lemma ValidateBoundaries()
    ensures Validate(Integer(0)) == Accept(0) && Validate(Integer(100)) == Accept(100)
    ensures Validate(Integer(-1)) == Negative && Validate(Integer(101)) == TooMany
  {
  }

  /** The first accepted answer and how many answers were read to reach
      it, or None when no answer is acceptable. */
  function FirstAccepted(entries: seq<Entry>): (r: Option<(nat, nat)>)
    ensures r.Some? ==> 0 < r.value.1 <= |entries| && Validate(entries[r.value.1 - 1]) == Accept(r.value.0)
    ensures r.Some? ==> forall k :: 0 <= k < r.value.1 - 1 ==> !Validate(entries[k]).Accept?
    ensures r.None? <==> forall k :: 0 <= k < |entries| ==> !Validate(entries[k]).Accept?
  {
    if entries == [] then None
    else match Validate(entries[0])
      case Accept(c) => Some((c, 1))
      case _ =>
        match FirstAccepted(entries[1..])
        case Some((c, k)) => Some((c, k + 1))
        case None => None
  }

  /** The prompt loop: reads answers until one is accepted. It returns the
      count and how many answers it read; when the answers run out first it
      returns no count. */
  method PromptBlinkCount(entries: seq<Entry>) returns (count: Option<nat>, read: nat)
    ensures read <= |entries|
    ensures count.Some? ==> count.value <= MaxBlinks
    ensures count.None? ==> read == |entries|
    ensures match FirstAccepted(entries)
            case Some((c, k)) => count == Some(c) && read == k
            case None => count == None
  {
    read := 0;
    while read < |entries|
      invariant read <= |entries|
      invariant FirstAccepted(entries) == Shift(FirstAccepted(entries[read..]), read)
    {
      var v := Validate(entries[read]);
      FirstAcceptedFrom(entries, read);
      if v.Accept? {
        return Some(v.count), read + 1;
      }
      read := read + 1;
    }
    assert entries[read..] == [];
    return None, read;
  }

  /** One step of the search for the first accepted answer, from index i. */
  lemma FirstAcceptedFrom(entries: seq<Entry>, i: nat)
    requires i < |entries|
    ensures FirstAccepted(entries[i..]) ==
              match Validate(entries[i])
              case Accept(c) => Some((c, 1))
              case _ => Shift(FirstAccepted(entries[i + 1..]), 1)
  {
    assert entries[i..][0] == entries[i];
    assert entries[i..][1..] == entries[i + 1..];
  }

  /** Adds `offset` to the number of answers read. */
  function Shift(r: Option<(nat, nat)>, offset: nat): Option<(nat, nat)> {
    match r
    case Some((c, k)) => Some((c, k + offset))
    case None => None
  }

  /** The LED writes of n complete blinks: on, off, on, off, ... */
  function BlinkWrites(n: nat): (w: seq<bool>)
    ensures |w| == 2 * n
    ensures forall i :: 0 <= i < 2 * n ==> (w[i] <==> i % 2 == 0)
  {
    if n == 0 then [] else BlinkWrites(n - 1) + [true, false]
  }

  /** The blink loop: for each of the n blinks the LED is switched on and
      then off, and "Blink i of n complete" is reported with i counting
      from 1. The LED writes (true for on) and the progress counters are
      returned in order. */
  method BlinkLoop(n: nat) returns (writes: seq<bool>, progress: seq<nat>)
    ensures writes == BlinkWrites(n) && |progress| == n
    ensures forall i :: 0 <= i < n ==> writes[2 * i] && !writes[2 * i + 1]
    ensures forall i :: 0 <= i < n ==> progress[i] == i + 1
    ensures n == 0 ==> writes == [] && progress == []
    ensures n > 0 ==> !writes[|writes| - 1]
  {
    writes, progress := [], [];
    var i := 0;
    while i < n
      invariant i <= n
      invariant writes == BlinkWrites(i) && |progress| == i
      invariant forall k :: 0 <= k < i ==> progress[k] == k + 1
    {
      writes := writes + [true, false];
      progress := progress + [i + 1];
      i := i + 1;
    }
    assert forall k :: 0 <= k < n ==> 2 * k % 2 == 0 && (2 * k + 1) % 2 == 1;
  }

  /** The number of on-writes in w. */
  function Ons(w: seq<bool>): nat {
    if w == [] then 0 else Ons(w[..|w| - 1]) + (if w[|w| - 1] then 1 else 0)
  }

  /** The first k writes of the blink loop hold (k + 1) / 2 on-writes: the
      writes alternate starting with on. */
  lemma {:induction false} OnsOfPrefix(n: nat, k: nat)
    requires k <= 2 * n
    ensures Ons(BlinkWrites(n)[..k]) == (k + 1) / 2
  {
    if k > 0 {
      var w := BlinkWrites(n)[..k];
      assert w[..k - 1] == BlinkWrites(n)[..k - 1];
      OnsOfPrefix(n, k - 1);
      assert w[k - 1] <==> (k - 1) % 2 == 0;
    }
  }

  /** The LED writes when an interrupt arrives after the first k writes of
      an n-blink loop (k = 0 covers an interrupt at the prompt): the writes
      made so far, then the cleanup's off. The LED always ends off, and it
      was switched on (k + 1) / 2 times. */
  function InterruptedWrites(n: nat, k: nat): (out: seq<bool>)
    requires k <= 2 * n
    ensures |out| == k + 1 && out[..k] == BlinkWrites(n)[..k]
    ensures !out[k]
    ensures Ons(out) == (k + 1) / 2
  {
    var out := BlinkWrites(n)[..k] + [false];
    assert out[..k] == BlinkWrites(n)[..k];
    OnsOfPrefix(n, k);
    out
  }
}
