/** String helpers with the meaning the sources rely on: Python's `str.strip`, `str.split(sep)`,
    `sep.join`, `str.isdigit`, `int(digits)` and `str(n)`, and JavaScript's `trim`. */
module Text {
  import opened Seqs

  /** The ASCII whitespace characters that `str.strip()` and `String.prototype.trim` remove. */
  predicate IsSpace(c: char) {
    c == ' ' || c == '\t' || c == '\n' || c == '\r' || c == '\U{B}' || c == '\U{C}'
  }

  predicate AllSpace(s: string) {
    forall i :: 0 <= i < |s| ==> IsSpace(s[i])
  }

  /** The number of whitespace characters `s` starts with. */
  function SpaceRun(s: string): (n: nat)
    ensures n <= |s|
    ensures forall i :: 0 <= i < n ==> IsSpace(s[i])
    ensures n < |s| ==> !IsSpace(s[n])
  {
    if s == [] || !IsSpace(s[0]) then 0
    else
      var n := SpaceRun(s[1..]);
      assert forall i :: 1 <= i < n + 1 ==> s[i] == s[1..][i - 1];
      n + 1
  }

  /** The length of `s` without its trailing whitespace. */
  function TextEnd(s: string): (n: nat)
    ensures n <= |s|
    ensures forall i :: n <= i < |s| ==> IsSpace(s[i])
    ensures n > 0 ==> !IsSpace(s[n - 1])
  {
    if s == [] || !IsSpace(s[|s| - 1]) then |s|
    else
      var n := TextEnd(s[..|s| - 1]);
      assert forall i :: n <= i < |s| - 1 ==> s[i] == s[..|s| - 1][i];
      n
  }

  /** Python `s.strip()` and JavaScript `s.trim()`: `s` without its leading and trailing whitespace. */
  function Strip(s: string): (r: string)
    ensures |r| <= |s|
    ensures r == [] || (!IsSpace(r[0]) && !IsSpace(r[|r| - 1]))
    ensures r == [] <==> AllSpace(s)
  {
    var a := SpaceRun(s);
    if a == |s| then []
    else
      var e := TextEnd(s);
      assert a < e;
      assert !AllSpace(s) by {
        assert !IsSpace(s[a]);
      }
      s[a..e]
  }

  /** `!s.trim()` in TypeScript and `not s.strip()` in Python. */
  predicate IsBlank(s: string) {
    Strip(s) == []
  }

  lemma StripIdempotent(s: string)
    ensures Strip(Strip(s)) == Strip(s)
  {
    var r := Strip(s);
    if r != [] {
      assert SpaceRun(r) == 0;
      assert TextEnd(r) == |r|;
      assert r[0..|r|] == r;
    }
  }

  /** Stripping a string that starts with a non-space character only trims its end, and leaves
      something. */
  lemma StripSolidStart(s: string)
    requires s != [] && !IsSpace(s[0])
    ensures Strip(s) != [] && IsPrefix(Strip(s), s)
  {
    assert SpaceRun(s) == 0;
    assert !AllSpace(s) by {
      assert !IsSpace(s[0]);
    }
  }

  /** A string that is already stripped and has some character is not blank. */
  lemma StrippedNonEmptyNotBlank(s: string)
    requires s == Strip(s) && s != []
    ensures !IsBlank(s)
  {
  }

  /** `sep` occurs in `s` starting at index `j`. */
  predicate OccursAt(s: string, sep: string, j: nat) {
    j + |sep| <= |s| && s[j..j + |sep|] == sep
  }

  /** The index of the leftmost occurrence of `sep` in `s`, as `s.find(sep)` computes it. */
  function IndexOf(s: string, sep: string): (r: Option<nat>)
    requires |sep| > 0
    ensures r.Some? ==> OccursAt(s, sep, r.value)
    ensures r.Some? ==> forall j: nat :: j < r.value ==> !OccursAt(s, sep, j)
    ensures r.None? ==> forall j: nat :: !OccursAt(s, sep, j)
    decreases |s|
  {
    if |s| < |sep| then None
    else if s[..|sep|] == sep then Some(0)
    else
      var rest := IndexOf(s[1..], sep);
      assert forall j: nat :: j >= 1 ==> OccursAt(s, sep, j) == OccursAt(s[1..], sep, j - 1);
      assert !OccursAt(s, sep, 0);
      match rest
      case None => None
      case Some(k) => Some(k + 1)
  }

  /** Python `s.split(sep)` for a non-empty separator: the pieces between the leftmost
      non-overlapping occurrences of `sep`. */
  function Split(s: string, sep: string): (r: seq<string>)
    requires |sep| > 0
    ensures |r| >= 1
    decreases |s|
  {
    match IndexOf(s, sep)
    case None => [s]
    case Some(k) => [s[..k]] + Split(s[k + |sep|..], sep)
  }

  /** Python `sep.join(xs)`. */
  function Join(xs: seq<string>, sep: string): string {
    if |xs| == 0 then []
    else if |xs| == 1 then xs[0]
    else xs[0] + sep + Join(xs[1..], sep)
  }

  /** Joining the pieces of a split with the same separator gives back the string. */
  lemma JoinCons(x: string, xs: seq<string>, sep: string)
    requires |xs| >= 1
    ensures Join([x] + xs, sep) == x + sep + Join(xs, sep)
  {
    assert ([x] + xs)[1..] == xs;
  }

  lemma {:induction false} JoinSplit(s: string, sep: string)
    requires |sep| > 0
    ensures Join(Split(s, sep), sep) == s
    decreases |s|
  {
    match IndexOf(s, sep)
    case None =>
    case Some(k) =>
      var tail := s[k + |sep|..];
      var pieces := Split(tail, sep);
      JoinSplit(tail, sep);
      JoinCons(s[..k], pieces, sep);
      assert s == s[..k] + sep + tail;
  }

  /** No piece of a split contains the separator. */
  lemma {:induction false} SplitPiecesFree(s: string, sep: string, i: nat)
    requires |sep| > 0 && i < |Split(s, sep)|
    ensures IndexOf(Split(s, sep)[i], sep).None?
    decreases |s|
  {
    var found := IndexOf(s, sep);
    if found.Some? {
      var k := found.value;
      var tail := s[k + |sep|..];
      SplitUnfold(s, sep, k);
      if i == 0 {
        LeadingPieceFree(s, sep, k);
      } else {
        assert Split(s, sep)[i] == Split(tail, sep)[i - 1];
        SplitPiecesFree(tail, sep, i - 1);
      }
    }
  }

  /** One step of the split: the first piece, then the split of what follows the separator. */
  lemma SplitUnfold(s: string, sep: string, k: nat)
    requires |sep| > 0 && IndexOf(s, sep) == Some(k)
    ensures Split(s, sep) == [s[..k]] + Split(s[k + |sep|..], sep)
  {
  }

  /** The text before the leftmost occurrence holds no occurrence. */
  lemma {:induction false} LeadingPieceFree(s: string, sep: string, k: nat)
    requires |sep| > 0 && IndexOf(s, sep) == Some(k)
    ensures IndexOf(s[..k], sep).None?
    decreases k
  {
    var p := s[..k];
    if k > 0 && |p| >= |sep| {
      assert s[..|sep|] != sep;
      assert p[..|sep|] == s[..|sep|];
      assert IndexOf(s[1..], sep) == Some(k - 1);
      LeadingPieceFree(s[1..], sep, k - 1);
      assert p[1..] == s[1..][..k - 1];
    }
  }

  /** Joining the first `n` pieces gives a prefix of the whole join. */
  lemma {:induction false} JoinTakePrefix(xs: seq<string>, n: nat, sep: string)
    ensures IsPrefix(Join(Take(xs, n), sep), Join(xs, sep))
  {
    if n == 0 {
      assert Take(xs, n) == [];
    } else if n >= |xs| {
      assert Take(xs, n) == xs;
    } else if n == 1 {
      assert Take(xs, n) == [xs[0]];
      JoinCons(xs[0], xs[1..], sep);
      assert xs == [xs[0]] + xs[1..];
    } else {
      JoinTakePrefix(xs[1..], n - 1, sep);
      var t := Take(xs, n);
      assert t == [xs[0]] + Take(xs[1..], n - 1);
      JoinCons(xs[0], Take(xs[1..], n - 1), sep);
      JoinCons(xs[0], xs[1..], sep);
      assert xs == [xs[0]] + xs[1..];
    }
  }

  /** Joining blank pieces with a blank separator gives a blank string. */
  lemma {:induction false} JoinAllSpace(xs: seq<string>, sep: string)
    requires AllSpace(sep) && forall i :: 0 <= i < |xs| ==> AllSpace(xs[i])
    ensures AllSpace(Join(xs, sep))
  {
    if |xs| >= 2 {
      JoinAllSpace(xs[1..], sep);
      var j := Join(xs, sep);
      var rest := Join(xs[1..], sep);
      assert j == xs[0] + sep + rest;
      forall k | 0 <= k < |j| ensures IsSpace(j[k]) {
        if k < |xs[0]| {
          assert j[k] == xs[0][k];
        } else if k < |xs[0]| + |sep| {
          assert j[k] == sep[k - |xs[0]|];
        } else {
          assert j[k] == rest[k - |xs[0]| - |sep|];
        }
      }
    } else if |xs| == 1 {
      assert Join(xs, sep) == xs[0];
    }
  }

  /** The join of two or more pieces contains the separator right after the first piece. */
  lemma JoinHasSeparator(xs: seq<string>, sep: string)
    requires |xs| >= 2
    ensures OccursAt(Join(xs, sep), sep, |xs[0]|)
  {
    assert Join(xs, sep) == xs[0] + sep + Join(xs[1..], sep);
  }

  // -------- decimal digits --------

  predicate IsDigit(c: char) {
    '0' <= c <= '9'
  }

  /** Python `s.isdigit()` on ASCII: non-empty and every character a decimal digit. */
  predicate IsDigits(s: string) {
    |s| > 0 && forall i :: 0 <= i < |s| ==> IsDigit(s[i])
  }

  function DigitChar(d: nat): (c: char)
    requires d < 10
    ensures IsDigit(c) && c as int - '0' as int == d
  {
    (d + '0' as int) as char
  }

  /** Python `int(s)` on a digit string (leading zeros allowed). */
  function DecimalValue(s: string): (n: nat)
    requires forall i :: 0 <= i < |s| ==> IsDigit(s[i])
  {
    if s == [] then 0
    else
      assert IsDigit(s[|s| - 1]);
      DecimalValue(s[..|s| - 1]) * 10 + (s[|s| - 1] as int - '0' as int)
  }

  /** Python `str(n)` / a JavaScript template literal on a non-negative integer. */
  function NatToString(n: nat): (s: string)
    ensures IsDigits(s)
    ensures |s| > 1 ==> s[0] != '0'
  {
    if n < 10 then [DigitChar(n)] else NatToString(n / 10) + [DigitChar(n % 10)]
  }

  /** Rendering a number and parsing it back gives the number. */
  lemma {:induction false} DecimalRoundTrip(n: nat)
    ensures DecimalValue(NatToString(n)) == n
  {
    if n >= 10 {
      var s := NatToString(n);
      assert s[..|s| - 1] == NatToString(n / 10);
      DecimalRoundTrip(n / 10);
    }
  }

  lemma NatToStringInjective(m: nat, n: nat)
    requires NatToString(m) == NatToString(n)
    ensures m == n
  {
    DecimalRoundTrip(m);
    DecimalRoundTrip(n);
  }

  /** Python `str(i)` on any integer. */
  function IntToString(i: int): (s: string)
    ensures |s| > 0
    ensures i >= 0 ==> s == NatToString(i)
    ensures i < 0 ==> s[0] == '-' && s[1..] == NatToString(-i)
  {
    if i < 0 then "-" + NatToString(-i) else NatToString(i)
  }

  predicate IsPrefix(p: string, s: string) {
    |p| <= |s| && s[..|p|] == p
  }

  /** Python `s.endswith(suffix)`. */
  predicate EndsWith(s: string, suffix: string) {
    |suffix| <= |s| && s[|s| - |suffix|..] == suffix
  }
}
