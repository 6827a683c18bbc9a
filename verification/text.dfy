/**
 * The Python string operations the service relies on: `str.strip()`,
 * `str.lower()`, slicing `s[:n]` and the substring test `part in s`.
 * Strings are sequences of Unicode scalar values; the model leaves out the
 * lone surrogates a Python `str` can also hold.
 */
module Text {

  function Min(a: int, b: int): int {
    if a <= b then a else b
  }

  /** The characters Python's `str.isspace()` accepts, which `str.strip()` removes. */
  predicate IsSpace(c: char) {
    var n := c as int;
    || 9 <= n <= 13
    || 28 <= n <= 32
    || n == 0x85 || n == 0xA0 || n == 0x1680
    || 0x2000 <= n <= 0x200A
    || n == 0x2028 || n == 0x2029 || n == 0x202F || n == 0x205F || n == 0x3000
  }

  predicate AllSpace(s: string) {
    forall i :: 0 <= i < |s| ==> IsSpace(s[i])
  }

  /** `part` sits in `s` starting at index `i`. */
  predicate OccursAt(s: string, part: string, i: int) {
    0 <= i <= |s| - |part| && s[i..i + |part|] == part
  }

  /** The meaning of Python's `part in s`: some position holds `part`. */
  ghost predicate IsSubstring(part: string, s: string) {
    exists i :: OccursAt(s, part, i)
  }

  /** Python's `part in s`, computed by scanning the start positions in turn. */
  predicate Contains(s: string, part: string)
    decreases |s|
  {
    if |s| < |part| then false
    else s[..|part|] == part || Contains(s[1..], part)
  }

  lemma {:induction false} ContainsIffSubstring(s: string, part: string)
    ensures Contains(s, part) <==> IsSubstring(part, s)
    decreases |s|
  {
    if |s| < |part| {
    } else if s[..|part|] == part {
      assert OccursAt(s, part, 0);
    } else {
      ContainsIffSubstring(s[1..], part);
      SubstringOfTail(s, part);
    }
  }

  /** When `part` does not start `s`, it occurs in `s` exactly when it occurs in `s[1..]`. */
  lemma SubstringOfTail(s: string, part: string)
    requires |part| <= |s| && s[..|part|] != part
    ensures IsSubstring(part, s) <==> IsSubstring(part, s[1..])
  {
    if IsSubstring(part, s[1..]) {
      var i :| OccursAt(s[1..], part, i);
      assert s[1..][i..i + |part|] == s[i + 1..i + 1 + |part|];
      assert OccursAt(s, part, i + 1);
    }
    if IsSubstring(part, s) {
      var i :| OccursAt(s, part, i);
      assert i != 0;
      assert s[1..][i - 1..i - 1 + |part|] == s[i..i + |part|];
      assert OccursAt(s[1..], part, i - 1);
    }
  }

  /** Every character of `s` at positions `lo` up to `hi` is whitespace. */
  predicate SpaceBetween(s: string, lo: int, hi: int) {
    forall k :: lo <= k < hi && 0 <= k < |s| ==> IsSpace(s[k])
  }

  /** A string lacking one of the characters of `part` does not contain `part`. */
  lemma MissingLetter(s: string, part: string, k: int)
    requires 0 <= k < |part|
    requires forall j :: 0 <= j < |s| ==> s[j] != part[k]
    ensures !IsSubstring(part, s)
  {
    if IsSubstring(part, s) {
      var i :| OccursAt(s, part, i);
      OccursAtChar(s, part, i, k);
      assert false;
    }
  }

  lemma OccursByChars(s: string, part: string, i: int)
    requires 0 <= i <= |s| - |part|
    requires forall k :: 0 <= k < |part| ==> s[i + k] == part[k]
    ensures OccursAt(s, part, i)
  {
    assert s[i..i + |part|] == part;
  }

  lemma OccursAtChar(s: string, part: string, i: int, k: int)
    requires OccursAt(s, part, i) && 0 <= k < |part|
    ensures s[i + k] == part[k]
  {
    assert s[i..i + |part|][k] == s[i + k];
  }

  /** `s` without its leading whitespace. */
  function TrimStart(s: string): (r: string)
    ensures |r| <= |s|
    ensures SpaceBetween(s, 0, |s| - |r|)
    ensures r == [] || !IsSpace(r[0])
  {
    if s == [] || !IsSpace(s[0]) then s else TrimStart(s[1..])
  }

  /** What `TrimStart` keeps is a suffix of `s`. */
  lemma {:induction false} TrimStartCut(s: string)
    ensures TrimStart(s) == s[|s| - |TrimStart(s)|..]
    decreases |s|
  {
    if s != [] && IsSpace(s[0]) {
      TrimStartCut(s[1..]);
      assert s[1..][|s| - 1 - |TrimStart(s)|..] == s[|s| - |TrimStart(s)|..];
    }
  }

  /** `s` without its trailing whitespace. */
  function TrimEnd(s: string): (r: string)
    ensures |r| <= |s|
    ensures SpaceBetween(s, |r|, |s|)
    ensures r == [] || !IsSpace(r[|r| - 1])
  {
    if s == [] || !IsSpace(s[|s| - 1]) then s else TrimEnd(s[..|s| - 1])
  }

  /** What `TrimEnd` keeps is a prefix of `s`. */
  lemma {:induction false} TrimEndCut(s: string)
    ensures TrimEnd(s) == s[..|TrimEnd(s)|]
    decreases |s|
  {
    if s != [] && IsSpace(s[|s| - 1]) {
      TrimEndCut(s[..|s| - 1]);
      assert s[..|s| - 1][..|TrimEnd(s)|] == s[..|TrimEnd(s)|];
    }
  }

  /**
   * Python's `s.strip()`: the part of `s` left after removing whitespace
   * at both ends.
   */
  function Strip(s: string): (r: string)
    ensures r == [] <==> AllSpace(s)
    ensures r != [] ==> !IsSpace(r[0]) && !IsSpace(r[|r| - 1])
  {
    TrimStartCut(s);
    TrimEndCut(TrimStart(s));
    TrimEnd(TrimStart(s))
  }

  /** What stripping removes is whitespace, and only from the two ends. */
  lemma StripCut(s: string)
    ensures var r := Strip(s);
      exists i :: OccursAt(s, r, i) && SpaceBetween(s, 0, i) && SpaceBetween(s, i + |r|, |s|)
  {
    var head := TrimStart(s);
    var r := TrimEnd(head);
    var i := |s| - |head|;
    TrimStartCut(s);
    TrimEndCut(head);
    assert s[i..i + |r|] == r;
    assert OccursAt(s, r, i);
  }

  /**
   * The converse of the contract of Strip: any cut of `s` that removes only
   * whitespace and leaves no whitespace at either end of what remains is the
   * stripped string.
   */
  lemma StripUnique(s: string, r: string, i: int)
    requires OccursAt(s, r, i) && SpaceBetween(s, 0, i) && SpaceBetween(s, i + |r|, |s|)
    requires r == [] || (!IsSpace(r[0]) && !IsSpace(r[|r| - 1]))
    ensures Strip(s) == r
  {
    if r != [] {
      OccursAtChar(s, r, i, 0);
      assert !AllSpace(s);
      StripCut(s);
      var j :| OccursAt(s, Strip(s), j) && SpaceBetween(s, 0, j) && SpaceBetween(s, j + |Strip(s)|, |s|);
      SameCut(s, r, i, Strip(s), j);
      assert r == s[i..i + |r|];
    }
  }

  /** Two cuts of `s` that trim only whitespace and keep no whitespace at their ends coincide. */
  lemma SameCut(s: string, r: string, i: int, t: string, j: int)
    requires OccursAt(s, r, i) && SpaceBetween(s, 0, i) && SpaceBetween(s, i + |r|, |s|)
    requires OccursAt(s, t, j) && SpaceBetween(s, 0, j) && SpaceBetween(s, j + |t|, |s|)
    requires r != [] && !IsSpace(r[0]) && !IsSpace(r[|r| - 1])
    requires t != [] && !IsSpace(t[0]) && !IsSpace(t[|t| - 1])
    ensures i == j && |r| == |t|
  {
    OccursAtChar(s, r, i, 0);
    OccursAtChar(s, t, j, 0);
    OccursAtChar(s, r, i, |r| - 1);
    OccursAtChar(s, t, j, |t| - 1);
  }

  /** A string with no whitespace at either end is unchanged by stripping. */
  lemma StripUnpadded(s: string)
    requires s != [] && !IsSpace(s[0]) && !IsSpace(s[|s| - 1])
    ensures Strip(s) == s
  {
    assert OccursAt(s, s, 0);
    StripUnique(s, s, 0);
  }

  lemma StripIdempotent(s: string)
    ensures Strip(Strip(s)) == Strip(s)
  {
    var r := Strip(s);
    assert OccursAt(r, r, 0);
    StripUnique(r, r, 0);
  }

  /** Python's `str.lower()` restricted to ASCII letters. */
  function LowerChar(c: char): char {
    if 'A' <= c <= 'Z' then (c as int + 32) as char else c
  }

  function Lower(s: string): (r: string)
    ensures |r| == |s|
    ensures forall i :: 0 <= i < |s| ==> r[i] == LowerChar(s[i])
  {
    seq(|s|, i requires 0 <= i < |s| => LowerChar(s[i]))
  }

  /** A string without upper-case ASCII letters is its own lower-case form. */
  lemma LowerUnchanged(s: string)
    requires forall i :: 0 <= i < |s| ==> !('A' <= s[i] <= 'Z')
    ensures Lower(s) == s
  {
  }

  /** Python's slice `s[:n]` for a non-negative bound. */
  function Take(s: string, n: nat): (r: string)
    ensures |r| == Min(n, |s|)
    ensures forall i :: 0 <= i < |r| ==> r[i] == s[i]
  {
    if n <= |s| then s[..n] else s
  }
}
