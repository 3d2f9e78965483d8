/** The string operations the audio player applies to each command line:
    Python's `str.strip()` (drop leading and trailing whitespace),
    `str.lower()` restricted to ASCII letters, and `str.startswith`. */
module Text {

  /** The characters Python's `str.isspace` accepts, by code point. */
  predicate IsSpace(c: char) {
    var n := c as int;
    n == 0x20 || 0x09 <= n <= 0x0D || 0x1C <= n <= 0x1F || n == 0x85 || n == 0xA0
    || n == 0x1680 || 0x2000 <= n <= 0x200A || n == 0x2028 || n == 0x2029
    || n == 0x202F || n == 0x205F || n == 0x3000
  }

  predicate AllSpace(s: string) {
    forall i :: 0 <= i < |s| ==> IsSpace(s[i])
  }

  /** Neither end of s is whitespace. */
  predicate Trimmed(s: string) {
    s == [] || (!IsSpace(s[0]) && !IsSpace(s[|s| - 1]))
  }

  /** s without its leading whitespace. */
  function StripLeft(s: string): (r: string)
    ensures |r| <= |s|
  {
    if s != [] && IsSpace(s[0]) then StripLeft(s[1..]) else s
  }

  /** s without its trailing whitespace. */
  function StripRight(s: string): (r: string)
    ensures |r| <= |s|
  {
    if s != [] && IsSpace(s[|s| - 1]) then StripRight(s[..|s| - 1]) else s
  }

  /** `str.strip()`: s without its leading and trailing whitespace. */
  function Strip(s: string): (r: string)
    ensures |r| <= |s|
  {
    StripRight(StripLeft(s))
  }

  /** StripLeft cuts off exactly a whitespace prefix, s[..i], up to the
      first non-space character. */
  lemma {:induction false} StripLeftCut(s: string) returns (i: nat)
    ensures i <= |s| && StripLeft(s) == s[i..] && AllSpace(s[..i])
    ensures StripLeft(s) == [] || !IsSpace(StripLeft(s)[0])
  {
    if s != [] && IsSpace(s[0]) {
      var i' := StripLeftCut(s[1..]);
      i := i' + 1;
      assert s[1..][i'..] == s[i..];
      forall k | 0 <= k < i
        ensures IsSpace(s[..i][k])
      {
        if k > 0 {
          assert s[..i][k] == s[1..][..i'][k - 1];
        }
      }
    } else {
      i := 0;
      assert s[0..] == s;
    }
  }

  /** StripRight cuts off exactly a whitespace suffix, s[j..], back to the
      last non-space character. */
  lemma {:induction false} StripRightCut(s: string) returns (j: nat)
    ensures j <= |s| && StripRight(s) == s[..j] && AllSpace(s[j..])
    ensures StripRight(s) == [] || !IsSpace(StripRight(s)[|StripRight(s)| - 1])
    decreases |s|
  {
    if s != [] && IsSpace(s[|s| - 1]) {
      var s' := s[..|s| - 1];
      j := StripRightCut(s');
      assert s'[..j] == s[..j];
      forall k | 0 <= k < |s| - j
        ensures IsSpace(s[j..][k])
      {
        if k < |s'| - j {
          assert s[j..][k] == s'[j..][k];
        }
      }
    } else {
      j := |s|;
      assert s[..|s|] == s;
    }
  }

  /** The cut points of Strip: the result is s[i..j], it has no
      whitespace at either end, and everything cut off is whitespace. */
  lemma StripBounds(s: string) returns (i: nat, j: nat)
    ensures i <= j <= |s| && Strip(s) == s[i..j]
    ensures AllSpace(s[..i]) && AllSpace(s[j..])
    ensures Trimmed(Strip(s))
  {
    var l := StripLeft(s);
    i := StripLeftCut(s);
    var m := StripRightCut(l);
    j := i + m;
    assert Strip(s) == s[i..j];
    assert s[j..] == l[m..];
    if Strip(s) != [] {
      assert Strip(s)[0] == l[0];
    }
  }

  /** Strip's result is the slice of s between its first and last
      non-space characters: it has no whitespace at either end, and
      everything cut off is whitespace. */
  lemma StripSpec(s: string)
    ensures Trimmed(Strip(s))
    ensures exists i, j :: 0 <= i <= j <= |s| && Strip(s) == s[i..j] && AllSpace(s[..i]) && AllSpace(s[j..])
  {
    var i, j := StripBounds(s);
    assert 0 <= i <= j <= |s| && Strip(s) == s[i..j] && AllSpace(s[..i]) && AllSpace(s[j..]);
  }

  function LowerChar(c: char): char {
    if 'A' <= c <= 'Z' then (c as int + 32) as char else c
  }

  predicate IsUpper(c: char) {
    'A' <= c <= 'Z'
  }

  /** `str.lower()` on ASCII letters: each capital becomes its small letter
      and every other character is kept. */
  function Lower(s: string): (r: string)
    ensures |r| == |s|
    ensures forall i :: 0 <= i < |s| ==> r[i] == LowerChar(s[i])
    ensures forall i :: 0 <= i < |r| ==> !IsUpper(r[i])
  {
    seq(|s|, k requires 0 <= k < |s| => LowerChar(s[k]))
  }

  /** Lowering twice is lowering once. */
  lemma LowerIdempotent(s: string)
    ensures Lower(Lower(s)) == Lower(s)
  {
  }

  /** Lowering leaves whitespace where it was, so it keeps a trimmed
      string trimmed. */
  lemma LowerKeepsSpace(s: string)
    ensures forall i :: 0 <= i < |s| ==> (IsSpace(Lower(s)[i]) <==> IsSpace(s[i]))
    ensures Trimmed(s) ==> Trimmed(Lower(s))
  {
  }

  /** Stripping a string with no space at either end changes nothing. */
  lemma StripTrimmed(s: string)
    requires Trimmed(s)
    ensures Strip(s) == s
  {
    assert StripLeft(s) == s;
  }

  /** StripLeft removes exactly a whitespace prefix that ends before a
      non-space character. */
  lemma {:induction false} StripLeftAt(s: string, i: nat)
    requires i < |s| && AllSpace(s[..i]) && !IsSpace(s[i])
    ensures StripLeft(s) == s[i..]
  {
    if i > 0 {
      assert IsSpace(s[..i][0]);
      assert s[1..][..i - 1] == s[1..i];
      StripLeftAt(s[1..], i - 1);
      assert s[1..][i - 1..] == s[i..];
    }
  }

  /** StripRight removes exactly a whitespace suffix that starts after a
      non-space character. */
  lemma {:induction false} StripRightAt(s: string, j: nat)
    requires 0 < j <= |s| && AllSpace(s[j..]) && !IsSpace(s[j - 1])
    ensures StripRight(s) == s[..j]
    decreases |s|
  {
    if j < |s| {
      assert IsSpace(s[j..][|s| - 1 - j]);
      var s' := s[..|s| - 1];
      forall k | 0 <= k < |s'[j..]|
        ensures IsSpace(s'[j..][k])
      {
        assert s'[j..][k] == s[j..][k];
      }
      assert s'[j - 1] == s[j - 1];
      StripRightAt(s', j);
      assert s'[..j] == s[..j];
    }
  }

  /** Strip cuts s down to s[i..j] when that slice is non-empty and
      trimmed and only whitespace lies outside it. */
  lemma StripSlice(s: string, i: nat, j: nat)
    requires i < j <= |s| && Trimmed(s[i..j])
    requires AllSpace(s[..i]) && AllSpace(s[j..])
    ensures Strip(s) == s[i..j]
  {
    assert s[i] == s[i..j][0] && s[j - 1] == s[i..j][j - 1 - i];
    StripLeftAt(s, i);
    assert s[i..][j - i..] == s[j..];
    StripRightAt(s[i..], j - i);
    assert s[i..][..j - i] == s[i..j];
  }

  lemma AllSpaceConcat(a: string, b: string)
    requires AllSpace(a) && AllSpace(b)
    ensures AllSpace(a + b)
  {
    forall k | 0 <= k < |a + b|
      ensures IsSpace((a + b)[k])
    {
      if k < |a| {
        assert (a + b)[k] == a[k];
      } else {
        assert (a + b)[k] == b[k - |a|];
      }
    }
  }

  /** A string of whitespace only strips to nothing. */
  lemma StripAllSpace(s: string)
    requires AllSpace(s)
    ensures Strip(s) == []
  {
    var i, j := StripBounds(s);
  }

  /** Lowering a slice is slicing the lowered string. */
  lemma LowerSlice(s: string, i: nat, j: nat)
    requires i <= j <= |s|
    ensures Lower(s)[i..j] == Lower(s[i..j])
  {
    forall k | 0 <= k < j - i
      ensures Lower(s)[i..j][k] == Lower(s[i..j])[k]
    {
      assert s[i..j][k] == s[i + k];
    }
  }

  /** Lowering keeps a whitespace-only string whitespace-only. */
  lemma LowerAllSpace(s: string)
    requires AllSpace(s)
    ensures AllSpace(Lower(s))
  {
    LowerKeepsSpace(s);
  }

  /** Stripping and lowering commute: lowering moves no whitespace. */
  lemma StripLower(s: string)
    ensures Strip(Lower(s)) == Lower(Strip(s))
  {
    var i, j := StripBounds(s);
    var l := Lower(s);
    assert AllSpace(l[..i]) by {
      LowerSlice(s, 0, i);
      LowerAllSpace(s[..i]);
      assert s[0..i] == s[..i] && l[0..i] == l[..i];
    }
    assert AllSpace(l[j..]) by {
      LowerSlice(s, j, |s|);
      LowerAllSpace(s[j..]);
      assert s[j..|s|] == s[j..] && l[j..|l|] == l[j..];
    }
    if i == j {
      AllSpaceConcat(l[..i], l[j..]);
      assert l == l[..i] + l[j..];
      StripAllSpace(l);
    } else {
      assert Trimmed(l[i..j]) && l[i..j] == Lower(s[i..j]) by {
        LowerSlice(s, i, j);
        LowerKeepsSpace(s[i..j]);
      }
      StripSlice(l, i, j);
    }
  }

  /** Whitespace added at either end is stripped off again. */
  lemma StripPadding(front: string, s: string, back: string)
    requires AllSpace(front) && AllSpace(back)
    ensures Strip(front + s + back) == Strip(s)
  {
    var i, j := StripBounds(s);
    var w := front + s + back;
    var n := |front|;
    assert w[..n + i] == front + s[..i];
    assert w[n + j..] == s[j..] + back;
    AllSpaceConcat(front, s[..i]);
    AllSpaceConcat(s[j..], back);
    if i == j {
      AllSpaceConcat(w[..n + i], w[n + j..]);
      assert w == w[..n + i] + w[n + j..];
      StripAllSpace(w);
    } else {
      assert w[n + i..n + j] == s[i..j];
      StripSlice(w, n + i, n + j);
    }
  }

  /** `str.startswith(prefix)`. */
  predicate StartsWith(s: string, prefix: string) {
    |prefix| <= |s| && s[..|prefix|] == prefix
  }
}
