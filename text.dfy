/** Python's string primitives that the `.env` parser relies on:
    whitespace, `lstrip`/`rstrip`/`strip`, `startswith` and the position of
    the first occurrence of a character (`str.find`, `split(sep, 1)`). */
module Text {

  /** `str.isspace()` for one character: the ASCII separators and the
      Unicode space characters that Python's argument-less `strip` removes. */
  predicate IsSpace(c: char) {
    var n := c as int;
    (9 <= n <= 13) || (28 <= n <= 32) || n == 0x85 || n == 0xA0 || n == 0x1680
    || (0x2000 <= n <= 0x200A) || n == 0x2028 || n == 0x2029 || n == 0x202F
    || n == 0x205F || n == 0x3000
  }

  predicate AllSpace(s: string) {
    forall i :: 0 <= i < |s| ==> IsSpace(s[i])
  }

  /** Neither end of `s` is whitespace: what `strip` leaves behind. */
  predicate Trimmed(s: string) {
    s == [] || (!IsSpace(s[0]) && !IsSpace(s[|s| - 1]))
  }

  predicate StartsWith(s: string, prefix: string) {
    |prefix| <= |s| && s[..|prefix|] == prefix
  }

  /** `s.lstrip()`: the longest suffix of `s` that does not start with
      whitespace; everything removed is whitespace. */
  function LStrip(s: string): (r: string)
    ensures |r| <= |s| && r == s[|s| - |r|..]
    ensures AllSpace(s[..|s| - |r|])
    ensures r == [] || !IsSpace(r[0])
  {
    if s != [] && IsSpace(s[0]) then
      var r := LStrip(s[1..]);
      var k := |s| - |r|;
      assert s[k..] == s[1..][k - 1..];
      assert forall i :: 0 <= i < k ==> s[..k][i] == if i == 0 then s[0] else s[1..][..k - 1][i - 1];
      r
    else s
  }

  /** `s.rstrip()`: the longest prefix of `s` that does not end with
      whitespace; everything removed is whitespace. */
  function RStrip(s: string): (r: string)
    ensures |r| <= |s| && r == s[..|r|]
    ensures AllSpace(s[|r|..])
    ensures r == [] || !IsSpace(r[|r| - 1])
  {
    if s != [] && IsSpace(s[|s| - 1]) then
      var r := RStrip(s[..|s| - 1]);
      assert s[..|r|] == s[..|s| - 1][..|r|];
      assert forall i :: |r| <= i < |s| ==> s[i] == if i == |s| - 1 then s[|s| - 1] else s[..|s| - 1][i];
      r
    else s
  }

  /** `s.strip()`. */
  function Strip(s: string): (r: string)
    ensures Trimmed(r)
    ensures |r| <= |s|
  {
    RStrip(LStrip(s))
  }

  /** The index of the first `c` in `s`, or `|s|` when there is none. */
  function IndexOf(s: string, c: char): (i: nat)
    ensures i <= |s|
    ensures c !in s[..i]
    ensures i < |s| ==> s[i] == c
    ensures i == |s| <==> c !in s
  {
    if s == [] then 0
    else if s[0] == c then 0
    else
      var j := IndexOf(s[1..], c);
      assert s[..j + 1] == [s[0]] + s[1..][..j];
      1 + j
  }

  // ---------------------------------------------------------------------
  // Characterisations: the strip functions remove exactly the whitespace
  // padding around a text whose ends are not whitespace.

  lemma {:induction false} LStripPadded(pad: string, s: string)
    requires AllSpace(pad)
    requires s == [] || !IsSpace(s[0])
    ensures LStrip(pad + s) == s
  {
    if pad != [] {
      assert (pad + s)[1..] == pad[1..] + s;
      LStripPadded(pad[1..], s);
    }
  }

  lemma {:induction false} RStripPadded(s: string, pad: string)
    requires AllSpace(pad)
    requires s == [] || !IsSpace(s[|s| - 1])
    ensures RStrip(s + pad) == s
  {
    if pad != [] {
      var n := |pad|;
      assert (s + pad)[..|s + pad| - 1] == s + pad[..n - 1];
      RStripPadded(s, pad[..n - 1]);
    }
  }

  lemma StripPadded(pre: string, mid: string, post: string)
    requires AllSpace(pre) && AllSpace(post)
    requires Trimmed(mid)
    ensures Strip(pre + mid + post) == mid
  {
    if mid == [] {
      assert pre + mid + post == pre + post;
      assert AllSpace(pre + post);
      assert LStrip(pre + post) == [];
    } else {
      assert pre + mid + post == pre + (mid + post);
      LStripPadded(pre, mid + post);
      RStripPadded(mid, post);
    }
  }

  lemma StripTrimmed(s: string)
    requires Trimmed(s)
    ensures Strip(s) == s
  {
    StripPadded([], s, []);
    assert [] + s + [] == s;
  }

  /** Whitespace appended to a text that is not all whitespace survives
      `lstrip`. */
  lemma {:induction false} LStripAppend(s: string, pad: string)
    requires !AllSpace(s)
    ensures LStrip(s + pad) == LStrip(s) + pad
  {
    if IsSpace(s[0]) {
      assert (s + pad)[1..] == s[1..] + pad;
      assert !AllSpace(s[1..]) by {
        var i :| 0 <= i < |s| && !IsSpace(s[i]);
        assert s[1..][i - 1] == s[i];
      }
      LStripAppend(s[1..], pad);
    }
  }

  /** `rstrip` removes appended whitespace along with the rest. */
  lemma {:induction false} RStripSpaceSuffix(s: string, pad: string)
    requires AllSpace(pad)
    ensures RStrip(s + pad) == RStrip(s)
  {
    if pad != [] {
      var n := |pad|;
      assert (s + pad)[..|s + pad| - 1] == s + pad[..n - 1];
      RStripSpaceSuffix(s, pad[..n - 1]);
    } else {
      assert s + pad == s;
    }
  }

  /** `strip` removes appended whitespace along with the rest. */
  lemma StripSpaceSuffix(s: string, pad: string)
    requires AllSpace(pad)
    ensures Strip(s + pad) == Strip(s)
  {
    if AllSpace(s) {
      assert AllSpace(s + pad);
      LStripPadded(s + pad, []);
      LStripPadded(s, []);
      assert s + pad + [] == s + pad && s + [] == s;
    } else {
      LStripAppend(s, pad);
      RStripSpaceSuffix(LStrip(s), pad);
    }
  }

  /** Right-stripping stops at a character that is not whitespace. */
  lemma {:induction false} RStripAfter(a: string, c: char, b: string)
    requires !IsSpace(c)
    ensures RStrip(a + [c] + b) == a + [c] + RStrip(b)
  {
    if b == [] {
      assert a + [c] + b == a + [c];
    } else if IsSpace(b[|b| - 1]) {
      var b' := b[..|b| - 1];
      assert (a + [c] + b)[..|a + [c] + b| - 1] == a + [c] + b';
      RStripAfter(a, c, b');
    }
  }

  /** A character that is not whitespace survives stripping exactly when it
      occurs in the input. */
  lemma NonSpaceInStrip(s: string, c: char)
    requires !IsSpace(c)
    ensures c in Strip(s) <==> c in s
  {
    var l := LStrip(s);
    NonSpaceInLStrip(s, c);
    NonSpaceInRStrip(l, c);
  }

  lemma NonSpaceInLStrip(s: string, c: char)
    requires !IsSpace(c)
    ensures c in LStrip(s) <==> c in s
  {
    var l := LStrip(s);
    var k := |s| - |l|;
    assert s == s[..k] + l;
    forall i | 0 <= i < k ensures s[..k][i] != c {
      assert IsSpace(s[..k][i]);
    }
  }

  lemma NonSpaceInRStrip(s: string, c: char)
    requires !IsSpace(c)
    ensures c in RStrip(s) <==> c in s
  {
    var r := RStrip(s);
    assert s == r + s[|r|..];
    forall i | 0 <= i < |s| - |r| ensures s[|r|..][i] != c {
      assert IsSpace(s[|r|..][i]);
    }
  }

  lemma IndexOfConcat(a: string, c: char, b: string)
    requires c !in a
    ensures IndexOf(a + [c] + b, c) == |a|
  {
    var s := a + [c] + b;
    assert s[|a|] == c;
  }

  /** `pat` occurs in `s` at position `j`. */
  predicate OccursAt(s: string, pat: string, j: int) {
    0 <= j && j + |pat| <= |s| && s[j..j + |pat|] == pat
  }

  /** `s.replace(pat, rep, 1)`: the first occurrence of `pat` is replaced by
      `rep`; without one, `s` is returned unchanged. */
  function ReplaceFirst(s: string, pat: string, rep: string): string
    decreases |s|
  {
    if StartsWith(s, pat) then rep + s[|pat|..]
    else if s == [] then s
    else [s[0]] + ReplaceFirst(s[1..], pat, rep)
  }

  /** When the first occurrence of `pat` is at `j`, exactly that occurrence
      is replaced and the text on both sides of it is kept. */
  lemma {:induction false} ReplaceFirstAt(s: string, pat: string, rep: string, j: nat)
    requires OccursAt(s, pat, j)
    requires forall k :: 0 <= k < j ==> !OccursAt(s, pat, k)
    ensures ReplaceFirst(s, pat, rep) == s[..j] + rep + s[j + |pat|..]
  {
    if j == 0 {
      assert StartsWith(s, pat);
    } else {
      assert !OccursAt(s, pat, 0);
      var t := s[1..];
      OccursShift(s, pat, j - 1);
      forall k | 0 <= k < j - 1 ensures !OccursAt(t, pat, k) {
        OccursShift(s, pat, k);
      }
      ReplaceFirstAt(t, pat, rep, j - 1);
      ReplaceFirstStep(s, pat, rep, t[..j - 1] + rep + t[j - 1 + |pat|..]);
      assert [s[0]] + t[..j - 1] == s[..j];
      assert t[j - 1 + |pat|..] == s[j + |pat|..];
    }
  }

  /** Without an occurrence at the start, the first character is kept and
      the replacement goes on in the rest. */
  lemma ReplaceFirstStep(s: string, pat: string, rep: string, tail: string)
    requires s != [] && !OccursAt(s, pat, 0)
    requires ReplaceFirst(s[1..], pat, rep) == tail
    ensures ReplaceFirst(s, pat, rep) == [s[0]] + tail
  {
    assert !StartsWith(s, pat);
  }

  /** An occurrence in `s[1..]` is one position further on in `s`. */
  lemma OccursShift(s: string, pat: string, k: nat)
    requires s != []
    ensures OccursAt(s[1..], pat, k) <==> OccursAt(s, pat, k + 1)
  {
    if k + |pat| <= |s| - 1 {
      assert s[1..][k..k + |pat|] == s[k + 1..k + 1 + |pat|];
    }
  }

  /** A text in which `pat` does not occur is left unchanged. */
  lemma {:induction false} ReplaceFirstAbsent(s: string, pat: string, rep: string)
    requires forall k :: 0 <= k ==> !OccursAt(s, pat, k)
    ensures ReplaceFirst(s, pat, rep) == s
    decreases |s|
  {
    assert !OccursAt(s, pat, 0);
    if s == [] {
      assert !StartsWith(s, pat);
    } else {
      var t := s[1..];
      forall k | 0 <= k ensures !OccursAt(t, pat, k) {
        OccursShift(s, pat, k);
      }
      ReplaceFirstAbsent(t, pat, rep);
      ReplaceFirstStep(s, pat, rep, t);
      assert [s[0]] + t == s;
    }
  }
}
