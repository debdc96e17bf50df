/**
 * The Python string built-ins that the list controller relies on: `lower`,
 * `find`, `replace`, `strip`/`rstrip`, slicing with negative bounds and
 * `"%d" %` formatting.  Case mapping and whitespace are the ASCII ones.
 */
module PyStr {

  // ---------------------------------------------------------------- case

  predicate IsUpper(c: char) {
    'A' <= c <= 'Z'
  }

  /** `c.lower()` on ASCII letters; every other character is left alone. */
  function LowerChar(c: char): (r: char)
    ensures !IsUpper(r)
    ensures !IsUpper(c) ==> r == c
    ensures IsUpper(c) ==> r as int - c as int == 'a' as int - 'A' as int
  {
    if IsUpper(c) then (c as int + ('a' as int - 'A' as int)) as char else c
  }

  predicate NoUpper(s: string) {
    forall i :: 0 <= i < |s| ==> !IsUpper(s[i])
  }

  /** `s.lower()`: same length, each character lower-cased, no upper-case letter left. */
  function Lower(s: string): (r: string)
    ensures |r| == |s| && NoUpper(r)
    ensures forall i :: 0 <= i < |s| ==> r[i] == LowerChar(s[i])
    ensures NoUpper(s) ==> r == s
  {
    seq(|s|, i requires 0 <= i < |s| => LowerChar(s[i]))
  }

  // ---------------------------------------------------------------- search

  predicate StartsWith(s: string, prefix: string) {
    |prefix| <= |s| && s[..|prefix|] == prefix
  }

  /** `pat` occurs in `s` at offset `k`. */
  predicate OccursAt(s: string, pat: string, k: int) {
    0 <= k && k + |pat| <= |s| && s[k..k + |pat|] == pat
  }

  /** `pat in s` */
  ghost predicate Occurs(s: string, pat: string) {
    exists k :: OccursAt(s, pat, k)
  }

  lemma OccursAtShift(s: string, pat: string, k: int)
    requires |s| > 0 && 1 <= k
    ensures OccursAt(s, pat, k) <==> OccursAt(s[1..], pat, k - 1)
  {
    if k + |pat| <= |s| {
      assert s[1..][k - 1..k - 1 + |pat|] == s[k..k + |pat|];
    }
  }

  /** `s.find(pat)`: the first offset at which `pat` occurs, or -1. */
  function Find(s: string, pat: string): (r: int)
    ensures r == -1 || 0 <= r <= |s| - |pat|
    ensures r >= 0 ==> OccursAt(s, pat, r)
    ensures forall k :: 0 <= k && (r < 0 || k < r) ==> !OccursAt(s, pat, k)
    ensures r < 0 <==> !Occurs(s, pat)
    ensures r == 0 <==> StartsWith(s, pat)
    decreases |s|
  {
    if StartsWith(s, pat) then
      assert OccursAt(s, pat, 0);
      0
    else if |s| == 0 then -1
    else
      var r := Find(s[1..], pat);
      assert forall k :: 1 <= k ==> (OccursAt(s, pat, k) <==> OccursAt(s[1..], pat, k - 1)) by {
        forall k | 1 <= k { OccursAtShift(s, pat, k); }
      }
      assert !OccursAt(s, pat, 0);
      if r < 0 then -1 else r + 1
  }

  /** A one-character pattern occurs exactly when the character is in the string. */
  lemma OccursChar(s: string, c: char)
    ensures Occurs(s, [c]) <==> c in s
  {
    if c in s {
      var k :| 0 <= k < |s| && s[k] == c;
      assert OccursAt(s, [c], k);
    }
    if Occurs(s, [c]) {
      var k :| OccursAt(s, [c], k);
      assert s[k] == s[k..k + 1][0];
    }
  }

  // ---------------------------------------------------------------- replace

  /**
   * `s.replace(pat, rep)`: the first occurrence is found, the text before it
   * kept, `rep` put in its place, and the search goes on after it.
   */
  function Replace(s: string, pat: string, rep: string): string
    requires |pat| > 0
    decreases |s|
  {
    var k := Find(s, pat);
    if k < 0 then s else s[..k] + rep + Replace(s[k + |pat|..], pat, rep)
  }

  /**
   * When the replacement is non-empty and shares no character with the
   * pattern, no occurrence of the pattern is left behind.
   */
  lemma {:induction false} ReplaceLeavesNone(s: string, pat: string, rep: string)
    requires |pat| > 0 && |rep| > 0
    requires forall i :: 0 <= i < |rep| ==> rep[i] !in pat
    ensures !Occurs(Replace(s, pat, rep), pat)
    decreases |s|
  {
    var k := Find(s, pat);
    if k >= 0 {
      var rest := s[k + |pat|..];
      ReplaceLeavesNone(rest, pat, rep);
      NoneBeforeFirst(s, pat);
      NoneAfterReplacement(rep, Replace(rest, pat, rep), pat);
      NoneBeforeReplacement(s[..k], rep + Replace(rest, pat, rep), pat, rep[0]);
      assert s[..k] + rep + Replace(rest, pat, rep) == s[..k] + (rep + Replace(rest, pat, rep));
    }
  }

  /** A replacement sharing no character with `pat`, followed by text free of `pat`, is free of it. */
  lemma NoneAfterReplacement(rep: string, rest: string, pat: string)
    requires |pat| > 0 && |rep| > 0
    requires forall i :: 0 <= i < |rep| ==> rep[i] !in pat
    requires !Occurs(rest, pat)
    ensures !Occurs(rep + rest, pat)
  {
    var r := rep + rest;
    forall k | 0 <= k ensures !OccursAt(r, pat, k) {
      if k + |pat| > |r| {
      } else if k < |rep| {
        assert r[k..k + |pat|][0] == rep[k];
        assert pat[0] in pat;
      } else {
        assert r[k..k + |pat|] == rest[k - |rep|..k - |rep| + |pat|];
        assert !OccursAt(rest, pat, k - |rep|);
      }
    }
  }

  /**
   * Text free of `pat` followed by text free of `pat` that starts with a
   * character foreign to `pat` is free of it: a window across the seam
   * would hold that character.
   */
  lemma NoneBeforeReplacement(front: string, back: string, pat: string, c: char)
    requires |pat| > 0 && !Occurs(front, pat)
    requires |back| > 0 && back[0] == c && c !in pat && !Occurs(back, pat)
    ensures !Occurs(front + back, pat)
  {
    var r := front + back;
    forall k | 0 <= k ensures !OccursAt(r, pat, k) {
      if k + |pat| > |r| {
      } else if k + |pat| <= |front| {
        assert r[k..k + |pat|] == front[k..k + |pat|];
        assert !OccursAt(front, pat, k);
      } else if k < |front| {
        assert r[k..k + |pat|][|front| - k] == c;
      } else {
        assert r[k..k + |pat|] == back[k - |front|..k - |front| + |pat|];
        assert !OccursAt(back, pat, k - |front|);
      }
    }
  }

  /** The text before the first occurrence holds no occurrence. */
  lemma NoneBeforeFirst(s: string, pat: string)
    requires |pat| > 0 && Find(s, pat) >= 0
    ensures !Occurs(s[..Find(s, pat)], pat)
  {
    var k := Find(s, pat);
    forall i | 0 <= i ensures !OccursAt(s[..k], pat, i) {
      if i + |pat| <= k {
        assert !OccursAt(s, pat, i);
        assert s[..k][i..i + |pat|] == s[i..i + |pat|];
      }
    }
  }

  /** `replace` leaves a string without the pattern as it is. */
  lemma ReplaceAbsent(s: string, pat: string, rep: string)
    requires |pat| > 0 && !Occurs(s, pat)
    ensures Replace(s, pat, rep) == s
  {
  }

  /** No proper suffix of `pat` is also a prefix of it, so two occurrences never overlap. */
  predicate Unbordered(pat: string) {
    forall j :: 0 < j < |pat| ==> pat[j..] != pat[..|pat| - j]
  }

  /**
   * For a pattern that cannot overlap itself, text free of the pattern,
   * then the pattern, then anything: `replace` keeps the text, puts in the
   * replacement and goes on with the rest.
   */
  lemma ReplaceAfterFree(a: string, pat: string, b: string, rep: string)
    requires |pat| > 0 && Unbordered(pat) && !Occurs(a, pat)
    ensures Replace(a + pat + b, pat, rep) == a + rep + Replace(b, pat, rep)
  {
    var s := a + pat + b;
    assert OccursAt(s, pat, |a|) by {
      assert s[|a|..|a| + |pat|] == pat;
    }
    forall k | 0 <= k < |a| ensures !OccursAt(s, pat, k) {
      NotBeforeSeam(a, pat, b, k);
    }
    assert Find(s, pat) == |a|;
    assert s[..|a|] == a && s[|a| + |pat|..] == b;
  }

  /** No occurrence starts inside `a` when `a` is free of an unbordered pattern that follows it. */
  lemma NotBeforeSeam(a: string, pat: string, b: string, k: int)
    requires |pat| > 0 && Unbordered(pat) && !Occurs(a, pat)
    requires 0 <= k < |a|
    ensures !OccursAt(a + pat + b, pat, k)
  {
    var s := a + pat + b;
    if k + |pat| <= |a| {
      assert s[k..k + |pat|] == a[k..k + |pat|];
      assert !OccursAt(a, pat, k);
    } else {
      var j := |a| - k;
      assert s[k..k + |pat|][j..] == s[|a|..k + |pat|];
      assert s[|a|..k + |pat|] == pat[..|pat| - j];
      assert pat[j..] != pat[..|pat| - j];
    }
  }

  // ---------------------------------------------------------------- whitespace

  /** ASCII whitespace as `str.isspace` sees it: TAB, LF, VT, FF, CR, the four separators 0x1C..0x1F, and SPACE. */
  predicate IsSpace(c: char) {
    '\t' <= c <= '\r' || 28 <= c as int <= 32
  }

  /** The end of the run of whitespace in `s` that starts at `k`. */
  function SpaceRunEnd(s: string, k: nat): (n: nat)
    requires k <= |s|
    ensures k <= n <= |s|
    ensures forall i :: k <= i < n ==> IsSpace(s[i])
    ensures n == |s| || !IsSpace(s[n])
    decreases |s| - k
  {
    if k < |s| && IsSpace(s[k]) then SpaceRunEnd(s, k + 1) else k
  }

  /** The start of the run of whitespace in `s` that ends just before `k`. */
  function SpaceRunStart(s: string, k: nat): (n: nat)
    requires k <= |s|
    ensures n <= k
    ensures forall i :: n <= i < k ==> IsSpace(s[i])
    ensures n == 0 || !IsSpace(s[n - 1])
  {
    if k > 0 && IsSpace(s[k - 1]) then SpaceRunStart(s, k - 1) else k
  }

  /** `s.rstrip()`: the longest prefix that does not end in whitespace. */
  function RStrip(s: string): (r: string)
    ensures |r| <= |s| && r == s[..|r|]
    ensures forall i :: |r| <= i < |s| ==> IsSpace(s[i])
    ensures r == [] || !IsSpace(r[|r| - 1])
  {
    s[..SpaceRunStart(s, |s|)]
  }

  /** `s.lstrip()`: the longest suffix that does not start with whitespace. */
  function LStrip(s: string): (r: string)
    ensures |r| <= |s| && r == s[|s| - |r|..]
    ensures forall i :: 0 <= i < |s| - |r| ==> IsSpace(s[i])
    ensures r == [] || !IsSpace(r[0])
  {
    s[SpaceRunEnd(s, 0)..]
  }

  /** `s.strip()`: whitespace removed from both ends. */
  function Strip(s: string): (r: string)
    ensures |r| <= |s|
  {
    RStrip(LStrip(s))
  }

  /** `s` is leading whitespace, then `Strip(s)`, then trailing whitespace. */
  lemma StripParts(s: string)
    ensures var r := Strip(s); var a := |s| - |LStrip(s)|;
      a + |r| <= |s| && s[a..a + |r|] == r &&
      (forall i :: 0 <= i < a ==> IsSpace(s[i])) &&
      (forall i :: a + |r| <= i < |s| ==> IsSpace(s[i]))
  {
    var t := LStrip(s);
    var r := RStrip(t);
    SpacesAround(s, t, r);
  }

  /** Whitespace before a suffix `t` of `s`, and after a prefix `r` of `t`, is whitespace around `r` in `s`. */
  lemma SpacesAround(s: string, t: string, r: string)
    requires |t| <= |s| && t == s[|s| - |t|..]
    requires forall i :: 0 <= i < |s| - |t| ==> IsSpace(s[i])
    requires |r| <= |t| && r == t[..|r|]
    requires forall i :: |r| <= i < |t| ==> IsSpace(t[i])
    ensures var a := |s| - |t|;
      a + |r| <= |s| && s[a..a + |r|] == r &&
      (forall i :: 0 <= i < a ==> IsSpace(s[i])) &&
      (forall i :: a + |r| <= i < |s| ==> IsSpace(s[i]))
  {
    var a := |s| - |t|;
    forall i | a + |r| <= i < |s| ensures IsSpace(s[i]) {
      assert s[i] == t[i - a];
    }
  }

  /** `Strip(s)` neither starts nor ends with whitespace. */
  lemma StripTrimmed(s: string)
    ensures var r := Strip(s); r == [] || (!IsSpace(r[0]) && !IsSpace(r[|r| - 1]))
  {
    var t := LStrip(s);
    var r := RStrip(t);
    if r != [] {
      assert r[0] == t[0];
    }
  }

  // ---------------------------------------------------------------- slicing

  /** Python's normalisation of a slice bound `k` against a length `n`. */
  function SliceIndex(k: int, n: nat): (i: nat)
    ensures i <= n
    ensures 0 <= k <= n ==> i == k
    ensures -(n as int) <= k < 0 ==> i as int == n as int + k
  {
    if k < 0 then (if n + k < 0 then 0 else n + k)
    else if k > n then n
    else k
  }

  /** `s[k:]`: a suffix of `s`. */
  function SliceFrom(s: string, k: int): (r: string)
    ensures |r| <= |s| && r == s[|s| - |r|..]
    ensures 0 <= k ==> |r| == if k <= |s| then |s| - k else 0
    ensures k < 0 ==> |r| == if -k <= |s| then -k else |s|
  {
    s[SliceIndex(k, |s|)..]
  }

  /** `s[:k]`: a prefix of `s`. */
  function SliceTo(s: string, k: int): (r: string)
    ensures |r| <= |s| && r == s[..|r|]
    ensures 0 <= k ==> |r| == if k <= |s| then k else |s|
    ensures k < 0 ==> |r| == if -k <= |s| then |s| + k else 0
  {
    s[..SliceIndex(k, |s|)]
  }

  // ---------------------------------------------------------------- "%d" % i

  predicate IsDigit(c: char) {
    '0' <= c <= '9'
  }

  predicate AllDigits(s: string) {
    forall i :: 0 <= i < |s| ==> IsDigit(s[i])
  }

  /** The number a string of decimal digits denotes. */
  function ValueOf(s: string): nat
    requires AllDigits(s)
  {
    if s == [] then 0 else ValueOf(s[..|s| - 1]) * 10 + (s[|s| - 1] as int - '0' as int)
  }

  function DigitChar(d: int): char
    requires 0 <= d < 10
  {
    ('0' as int + d) as char
  }

  /** The decimal digits of `n`, most significant first, without leading zeros. */
  function Digits(n: nat): (r: string)
    ensures |r| > 0 && AllDigits(r)
    ensures ValueOf(r) == n
    ensures n > 0 ==> r[0] != '0'
    ensures n == 0 ==> r == "0"
  {
    if n < 10 then [DigitChar(n)]
    else
      var r := Digits(n / 10) + [DigitChar(n % 10)];
      assert r[..|r| - 1] == Digits(n / 10);
      r
  }

  /** `"%d" % i`: a minus sign for negative values, then the digits of the magnitude. */
  function Decimal(i: int): (r: string)
    ensures |r| > 0
    ensures forall k :: 0 <= k < |r| ==> IsDigit(r[k]) || r[k] == '-'
    ensures 0 <= i ==> AllDigits(r) && ValueOf(r) == i
    ensures i < 0 ==> r[0] == '-' && AllDigits(r[1..]) && ValueOf(r[1..]) == -i
    ensures i == 0 ==> r == "0"
    ensures 0 < i ==> r[0] != '0'
    ensures i < 0 ==> |r| > 1 && r[1] != '0'
  {
    if i < 0 then
      var r := "-" + Digits(-i);
      assert r[1..] == Digits(-i);
      r
    else Digits(i)
  }

  // ---------------------------------------------------------------------
  // Repetition (`s * n`)
  // ---------------------------------------------------------------------

  /** `s * n`: `n` copies of `s` one after another. */
  function Repeat<T>(s: seq<T>, n: nat): (r: seq<T>)
    ensures |r| == |s| * n
    ensures forall x :: x in r ==> x in s
  {
    if n == 0 then [] else s + Repeat(s, n - 1)
  }

  /** Position `i` of `s * n` holds `s[i % |s|]`: the copies follow one another. */
  lemma RepeatAt<T>(s: seq<T>, n: nat)
    ensures forall i :: 0 <= i < |Repeat(s, n)| ==> Repeat(s, n)[i] == s[i % |s|]
  {
    forall i | 0 <= i < |Repeat(s, n)| ensures Repeat(s, n)[i] == s[i % |s|] {
      RepeatIndex(s, n, i);
    }
  }

  lemma {:induction false} RepeatIndex<T>(s: seq<T>, n: nat, i: int)
    requires 0 <= i < |Repeat(s, n)|
    ensures Repeat(s, n)[i] == s[i % |s|]
    decreases n
  {
    var rest := Repeat(s, n - 1);
    assert Repeat(s, n) == s + rest;
    if i < |s| {
      ModUnique(i, |s|, 0, i);
    } else {
      RepeatIndex(s, n - 1, i - |s|);
      ModShift(i - |s|, |s|);
    }
  }

  /** Adding the modulus once does not change the remainder. */
  lemma ModShift(j: nat, m: nat)
    requires 0 < m
    ensures (j + m) % m == j % m
  {
    var q := j / m;
    var r := j % m;
    assert j == q * m + r;
    assert j + m == (q + 1) * m + r by {
      assert (q + 1) * m == q * m + m;
    }
    ModUnique(j + m, m, q + 1, r);
  }

  /** The remainder is determined by any quotient-remainder split. */
  lemma ModUnique(x: int, m: int, q: int, r: int)
    requires 0 < m && x == q * m + r && 0 <= r < m
    ensures x % m == r
  {
    var q' := x / m;
    var r' := x % m;
    assert x == q' * m + r';
    if q' < q {
      MulStep(q', q - 1, m);
      assert false;
    } else if q < q' {
      MulStep(q, q' - 1, m);
      assert false;
    }
  }

  lemma MulStep(a: int, b: int, m: int)
    requires a <= b && 0 < m
    ensures a * m + m <= (b + 1) * m
  {
    assert (b + 1) * m == b * m + m;
    assert b * m - a * m == (b - a) * m;
  }
}
