/** String helpers shared by the slug rule, the reply cleanup and the blank-line filter:
    Python's notion of whitespace and `str.strip` generalised to any set of characters. */
module Text {

  /** `c.isspace()` in Python: the ASCII controls \t \n \v \f \r, the separators 0x1c..0x1f,
      the space, and the Unicode space and line/paragraph separator characters. */
  predicate IsSpace(c: char) {
    || c == ' '
    || '\t' <= c <= '\r'
    || '\U{1c}' <= c <= '\U{1f}'
    || c == '\U{85}' || c == '\U{a0}' || c == '\U{1680}'
    || '\U{2000}' <= c <= '\U{200a}'
    || c == '\U{2028}' || c == '\U{2029}' || c == '\U{202f}' || c == '\U{205f}' || c == '\U{3000}'
  }

  /** Number of leading characters of `s` that satisfy `p`. */
  function LeadCount(s: string, p: char -> bool): (n: nat)
    ensures n <= |s|
    ensures forall k :: 0 <= k < n ==> p(s[k])
    ensures n < |s| ==> !p(s[n])
  {
    if s == [] || !p(s[0]) then 0 else 1 + LeadCount(s[1..], p)
  }

  /** Number of trailing characters of `s` that satisfy `p`. */
  function TrailCount(s: string, p: char -> bool): (n: nat)
    ensures n <= |s|
    ensures forall k :: |s| - n <= k < |s| ==> p(s[k])
    ensures n < |s| ==> !p(s[|s| - 1 - n])
  {
    if s == [] || !p(s[|s| - 1]) then 0 else 1 + TrailCount(s[..|s| - 1], p)
  }

  /** Every character of `s` satisfies `p`. */
  predicate All(s: string, p: char -> bool) {
    forall k :: 0 <= k < |s| ==> p(s[k])
  }

  /** `s.strip(chars)`: remove the longest prefix and the longest suffix made of characters
      satisfying `p`. The result is a slice of `s` whose cut-off ends satisfy `p` and whose
      own ends do not. */
  function Trim(s: string, p: char -> bool): (r: string)
    ensures r == [] || (!p(r[0]) && !p(r[|r| - 1]))
    ensures exists i, j :: 0 <= i <= j <= |s| && r == s[i..j] && All(s[..i], p) && All(s[j..], p)
  {
    var i := LeadCount(s, p);
    var t := s[i..];
    var n := TrailCount(t, p);
    var j := |s| - n;
    assert All(s[..i], p);
    assert All(s[j..], p) by {
      forall k | 0 <= k < n ensures p(s[j..][k]) {
        assert s[j..][k] == t[|t| - n + k];
      }
    }
    assert s[i..j] == [] || (!p(s[i]) && !p(s[j - 1])) by {
      if i < j {
        assert t[|t| - 1 - n] == s[j - 1];
      }
    }
    s[i..j]
  }

  /** A string whose ends do not satisfy `p` is left unchanged by `Trim`. */
  lemma TrimUnchanged(s: string, p: char -> bool)
    requires s == [] || (!p(s[0]) && !p(s[|s| - 1]))
    ensures Trim(s, p) == s
  {
    assert LeadCount(s, p) == 0;
    assert s[0..] == s;
  }

  /** `Trim` removes everything exactly when every character satisfies `p`. */
  lemma {:induction false} TrimEmptyIff(s: string, p: char -> bool)
    ensures Trim(s, p) == [] <==> All(s, p)
  {
    var r := Trim(s, p);
    var i, j :| 0 <= i <= j <= |s| && r == s[i..j] && All(s[..i], p) && All(s[j..], p);
    if r == [] {
      forall k | 0 <= k < |s| ensures p(s[k]) {
        if k < i { assert s[..i][k] == s[k]; } else { assert s[j..][k - j] == s[k]; }
      }
    } else {
      assert s[i] == r[0];
      assert !p(s[i]);
    }
  }

  /** Padding made of `p` characters around a core whose ends are not `p` is exactly what
      `Trim` removes. */
  lemma TrimPadded(a: string, x: string, b: string, p: char -> bool)
    requires All(a, p) && All(b, p)
    requires x == [] || (!p(x[0]) && !p(x[|x| - 1]))
    ensures Trim(a + x + b, p) == x
  {
    var s := a + x + b;
    if x == [] {
      assert s == a + b;
      assert All(s, p);
      TrimEmptyIff(s, p);
    } else {
      LeadCountPadded(a, x + b, p);
      assert s == a + (x + b);
      assert s[|a|..] == x + b;
      TrailCountPadded(x, b, p);
    }
  }

  lemma {:induction false} LeadCountPadded(a: string, y: string, p: char -> bool)
    requires All(a, p) && y != [] && !p(y[0])
    ensures LeadCount(a + y, p) == |a|
  {
    if a != [] {
      assert (a + y)[1..] == a[1..] + y;
      assert All(a[1..], p) by {
        forall k | 0 <= k < |a| - 1 ensures p(a[1..][k]) { assert a[1..][k] == a[k + 1]; }
      }
      LeadCountPadded(a[1..], y, p);
    } else {
      assert a + y == y;
    }
  }

  lemma {:induction false} TrailCountPadded(y: string, b: string, p: char -> bool)
    requires All(b, p) && y != [] && !p(y[|y| - 1])
    ensures TrailCount(y + b, p) == |b|
  {
    if b != [] {
      var b' := b[..|b| - 1];
      assert (y + b)[..|y + b| - 1] == y + b';
      assert All(b', p) by {
        forall k | 0 <= k < |b'| ensures p(b'[k]) { assert b'[k] == b[k]; }
      }
      TrailCountPadded(y, b', p);
    } else {
      assert y + b == y;
    }
  }

  /** `t` occurs in `s` as one contiguous piece. */
  predicate IsSliceOf(t: string, s: string) {
    exists i, j :: 0 <= i <= j <= |s| && t == s[i..j]
  }

  lemma TrimIsSlice(s: string, p: char -> bool)
    ensures IsSliceOf(Trim(s, p), s)
  {
  }

  lemma SuffixIsSlice(s: string, k: nat)
    requires k <= |s|
    ensures IsSliceOf(s[k..], s)
  {
    assert s[k..] == s[k..|s|];
  }

  /** A piece of a piece of `s` is a piece of `s`. */
  lemma SliceOfSlice(t: string, u: string, s: string)
    requires IsSliceOf(t, u) && IsSliceOf(u, s)
    ensures IsSliceOf(t, s)
  {
    var i, j :| 0 <= i <= j <= |u| && t == u[i..j];
    var k, l :| 0 <= k <= l <= |s| && u == s[k..l];
    assert t == s[k + i..k + j] by {
      forall n | 0 <= n < |t| ensures t[n] == s[k + i + n] {
        assert t[n] == u[i + n];
      }
    }
  }

  /** Python's `s.strip()` with no argument: empty exactly for a whitespace-only string,
      and otherwise neither end is whitespace. */
  function Strip(s: string): (r: string)
    ensures r == [] <==> All(s, IsSpace)
    ensures r == [] || (!IsSpace(r[0]) && !IsSpace(r[|r| - 1]))
  {
    TrimEmptyIff(s, IsSpace);
    Trim(s, IsSpace)
  }

  /** On ASCII, `IsSpace` holds of exactly \t \n \v \f \r, the four separators
      0x1c..0x1f and the space. */
  lemma IsSpaceAscii(c: char)
    requires c < '\U{80}'
    ensures IsSpace(c) <==> c in "\t\n\U{b}\U{c}\r\U{1c}\U{1d}\U{1e}\U{1f} "
  {
  }

  /** A line is blank when it is empty or holds only whitespace. */
  predicate IsBlank(line: string) {
    All(line, IsSpace)
  }

  /** Concatenation is associative; stated once so that proofs can call it in a small context. */
  lemma AppendAssoc<T>(x: seq<T>, y: seq<T>, z: seq<T>)
    ensures x + (y + z) == (x + y) + z
  {
  }
}
