/**
 * String helpers shared by the model: Python's `str.lower()`, the `in`
 * substring test, `str.replace`, slicing `s[:n]` and the decimal rendering
 * of an integer inside an f-string, plus the small result types that stand
 * for the external services.
 */
module Text {

  /** A value that may be absent (Python's `None`). */
  datatype Option<+T> = None | Some(value: T)

  /** What a call to the text-generation service yields: its text, or an exception. */
  datatype Reply = Answered(text: string) | Failed

  // ---------------------------------------------------------------------
  // Case folding
  // ---------------------------------------------------------------------

  predicate IsUpper(c: char) {
    'A' <= c <= 'Z'
  }

  /** Lower-cases one ASCII letter and leaves every other character alone. */
  function LowerChar(c: char): (r: char)
    ensures !IsUpper(r)
    ensures !IsUpper(c) ==> r == c
    ensures IsUpper(c) ==> r as int - c as int == 32
  {
    if IsUpper(c) then (c as int + 32) as char else c
  }

  /** `s.lower()` on the ASCII letters of `s`. */
  function Lower(s: string): (r: string)
    ensures |r| == |s|
    ensures forall i :: 0 <= i < |s| ==> r[i] == LowerChar(s[i])
    ensures forall i :: 0 <= i < |r| ==> !IsUpper(r[i])
  {
    seq(|s|, i requires 0 <= i < |s| => LowerChar(s[i]))
  }

  // ---------------------------------------------------------------------
  // Prefixes, slices and substrings
  // ---------------------------------------------------------------------

  /** `s[:n]`: the first `n` characters, or all of `s` when it is shorter. */
  function Take(s: string, n: nat): (r: string)
    ensures |r| == if |s| < n then |s| else n
    ensures IsPrefix(r, s)
  {
    if |s| <= n then s else s[..n]
  }

  predicate IsPrefix(p: string, s: string) {
    |p| <= |s| && s[..|p|] == p
  }

  /** Python's `p in s` for strings. */
  predicate IsSubstring(p: string, s: string)
    ensures IsSubstring(p, s) ==> |p| <= |s|
    decreases |s|
  {
    IsPrefix(p, s) || (s != [] && IsSubstring(p, s[1..]))
  }

  /** A substring found at a known offset is a substring. */
  lemma {:induction false} SubstringAt(p: string, s: string, i: nat)
    requires i + |p| <= |s| && s[i..i + |p|] == p
    ensures IsSubstring(p, s)
    decreases i
  {
    if i == 0 {
      assert s[..|p|] == p;
    } else {
      assert s[1..][i - 1..i - 1 + |p|] == s[i..i + |p|];
      SubstringAt(p, s[1..], i - 1);
    }
  }

  /** What is in a text is still there after something is put in front of it. */
  lemma {:induction false} SubstringInSuffix(p: string, h: string, t: string)
    requires IsSubstring(p, t)
    ensures IsSubstring(p, h + t)
    decreases |h|
  {
    if h != [] {
      assert (h + t)[1..] == h[1..] + t;
      SubstringInSuffix(p, h[1..], t);
    } else {
      assert h + t == t;
    }
  }

  /** Every substring occurs at some offset: the converse of SubstringAt. */
  lemma {:induction false} SubstringHasOffset(p: string, s: string) returns (i: nat)
    requires IsSubstring(p, s)
    ensures i + |p| <= |s| && s[i..i + |p|] == p
    decreases |s|
  {
    if IsPrefix(p, s) {
      i := 0;
    } else {
      var j := SubstringHasOffset(p, s[1..]);
      assert s[1..][j..j + |p|] == s[j + 1..j + 1 + |p|];
      i := j + 1;
    }
  }

  /** `y` sits in `x + y + z` right after `x`. */
  lemma MiddleSlice(x: string, y: string, z: string)
    ensures (x + y + z)[|x|..|x| + |y|] == y
  {
  }

  /** The same for a text built as `w + (x + (y + z))`: `y` sits after `w` and `x`. */
  lemma MiddleSlice4(w: string, x: string, y: string, z: string)
    ensures |w| + |x| + |y| <= |w + (x + (y + z))|
    ensures (w + (x + (y + z)))[|w| + |x|..|w| + |x| + |y|] == y
  {
    assert w + (x + (y + z)) == (w + x) + y + z;
    MiddleSlice(w + x, y, z);
  }

  /** `f` of each element, written one after another in order. */
  function Joined<T>(xs: seq<T>, f: T -> string): string
    decreases |xs|
  {
    if xs == [] then [] else f(xs[0]) + Joined(xs[1..], f)
  }

  lemma {:induction false} JoinedAppend<T>(a: seq<T>, b: seq<T>, f: T -> string)
    ensures Joined(a + b, f) == Joined(a, f) + Joined(b, f)
    decreases |a|
  {
    if a == [] {
      assert a + b == b;
    } else {
      assert (a + b)[0] == a[0];
      assert (a + b)[1..] == a[1..] + b;
      JoinedAppend(a[1..], b, f);
    }
  }

  /** The text of a sequence split around its element `i`. */
  lemma JoinedSplit<T>(xs: seq<T>, i: nat, f: T -> string)
    requires i < |xs|
    ensures Joined(xs, f) == Joined(xs[..i], f) + (f(xs[i]) + Joined(xs[i + 1..], f))
  {
    assert xs == xs[..i] + xs[i..];
    JoinedAppend(xs[..i], xs[i..], f);
    assert xs[i..][1..] == xs[i + 1..];
  }

  /** The text of element `i` sits right after the texts of elements 0..i-1. */
  lemma JoinedAt<T>(xs: seq<T>, i: nat, f: T -> string)
    requires i < |xs|
    ensures var start := |Joined(xs[..i], f)|;
      start + |f(xs[i])| <= |Joined(xs, f)|
      && Joined(xs, f)[start..start + |f(xs[i])|] == f(xs[i])
  {
    JoinedSplit(xs, i, f);
    MiddleSlice4([], Joined(xs[..i], f), f(xs[i]), Joined(xs[i + 1..], f));
  }

  /** One more element adds its text at the end. */
  lemma JoinedSnoc<T>(xs: seq<T>, i: nat, f: T -> string)
    requires i < |xs|
    ensures Joined(xs[..i + 1], f) == Joined(xs[..i], f) + f(xs[i])
  {
    assert xs[..i + 1] == xs[..i] + [xs[i]];
    JoinedAppend(xs[..i], [xs[i]], f);
    assert Joined([xs[i]], f) == f(xs[i]) + Joined([], f);
  }

  /** So the text of each element occurs in the joined text. */
  lemma JoinedContains<T>(xs: seq<T>, i: nat, f: T -> string)
    requires i < |xs|
    ensures IsSubstring(f(xs[i]), Joined(xs, f))
  {
    JoinedAt(xs, i, f);
    SubstringAt(f(xs[i]), Joined(xs, f), |Joined(xs[..i], f)|);
  }

  /** `in` is transitive: a piece of a piece of `s` is a piece of `s`. */
  lemma SubstringTrans(p: string, q: string, s: string)
    requires IsSubstring(p, q) && IsSubstring(q, s)
    ensures IsSubstring(p, s)
  {
    var i := SubstringHasOffset(p, q);
    var j := SubstringHasOffset(q, s);
    forall n | 0 <= n < |p|
      ensures s[j + i..j + i + |p|][n] == p[n]
    {
      assert p[n] == q[i + n] == s[j..j + |q|][i + n];
    }
    SubstringAt(p, s, j + i);
  }

  /** The empty string is in every string, so `"" in s` always holds. */
  lemma EmptyIsSubstring(s: string)
    ensures IsSubstring("", s)
  {
    assert IsPrefix("", s);
  }

  // ---------------------------------------------------------------------
  // str.replace
  // ---------------------------------------------------------------------

  /**
   * `s.replace(pat, rep)`: every occurrence of `pat`, found left to right and
   * without overlap, is replaced by `rep`.
   */
  function ReplaceAll(s: string, pat: string, rep: string): (r: string)
    requires pat != []
    ensures rep == pat ==> r == s
    decreases |s|
  {
    if |s| < |pat| then s
    else if s[..|pat|] == pat then
      assert s == s[..|pat|] + s[|pat|..];
      rep + ReplaceAll(s[|pat|..], pat, rep)
    else
      assert s == [s[0]] + s[1..];
      [s[0]] + ReplaceAll(s[1..], pat, rep)
  }

  /**
   * `t` holds no occurrence of `pat` that starts inside `t`, not even one
   * that would run on past the end of `t`.
   */
  predicate NoMatchWithin(t: string, pat: string)
    requires pat != []
  {
    forall i :: 0 <= i < |t| && t[i] == pat[0] ==> i + |pat| <= |t| && t[i..i + |pat|] != pat
  }

  /** Dropping the first character of `t` keeps NoMatchWithin. */
  lemma NoMatchWithinTail(t: string, pat: string)
    requires pat != [] && t != [] && NoMatchWithin(t, pat)
    ensures NoMatchWithin(t[1..], pat)
  {
    forall i | 0 <= i < |t[1..]| && t[1..][i] == pat[0]
      ensures i + |pat| <= |t[1..]| && t[1..][i..i + |pat|] != pat
    {
      assert t[i + 1] == pat[0];
      assert t[1..][i..i + |pat|] == t[i + 1..i + 1 + |pat|];
    }
  }

  /** No match starts at the front of `t + rest` when none starts inside `t`. */
  lemma NoMatchAtFront(t: string, rest: string, pat: string)
    requires pat != [] && t != [] && NoMatchWithin(t, pat)
    ensures |t + rest| < |pat| ==> |rest| < |pat|
    ensures |t + rest| >= |pat| ==> (t + rest)[..|pat|] != pat
  {
    var s := t + rest;
    if t[0] == pat[0] {
      assert |pat| <= |t| && t[..|pat|] != pat;
      assert t[..|pat|] == s[..|pat|];
    }
  }

  /** Replacing in `t + rest` leaves `t` as it is when no match starts inside `t`. */
  lemma {:induction false} ReplaceAllSkips(t: string, rest: string, pat: string, rep: string)
    requires pat != [] && NoMatchWithin(t, pat)
    ensures ReplaceAll(t + rest, pat, rep) == t + ReplaceAll(rest, pat, rep)
    decreases |t|
  {
    var s := t + rest;
    if t == [] {
      assert s == rest;
    } else {
      NoMatchAtFront(t, rest, pat);
      NoMatchWithinTail(t, pat);
      if |s| < |pat| {
        assert ReplaceAll(s, pat, rep) == s;
        assert ReplaceAll(rest, pat, rep) == rest;
      } else {
        assert ReplaceAll(s, pat, rep) == [s[0]] + ReplaceAll(s[1..], pat, rep);
        assert s[1..] == t[1..] + rest;
        ReplaceAllSkips(t[1..], rest, pat, rep);
        assert [s[0]] + t[1..] == t;
      }
    }
  }

  /** Replacing in `pat + rest` turns the leading `pat` into `rep`. */
  lemma ReplaceAllMatches(rest: string, pat: string, rep: string)
    requires pat != []
    ensures ReplaceAll(pat + rest, pat, rep) == rep + ReplaceAll(rest, pat, rep)
  {
    var s := pat + rest;
    assert s[..|pat|] == pat;
    assert s[|pat|..] == rest;
  }

  // ---------------------------------------------------------------------
  // Decimal rendering of ids
  // ---------------------------------------------------------------------

  predicate IsDigit(c: char) {
    '0' <= c <= '9'
  }

  function DigitChar(d: nat): (c: char)
    requires d < 10
    ensures IsDigit(c) && c as int - '0' as int == d
  {
    ('0' as int + d) as char
  }

  /** `f"{n}"` for a non-negative integer: its decimal digits, no leading zero. */
  function Decimal(n: nat): (r: string)
    ensures r != []
    ensures forall i :: 0 <= i < |r| ==> IsDigit(r[i])
    ensures r[0] == '0' ==> n == 0
    decreases n
  {
    if n < 10 then [DigitChar(n)] else Decimal(n / 10) + [DigitChar(n % 10)]
  }

  /** Reads a string of decimal digits back as a number. */
  function ParseDecimal(s: string): nat
    requires forall i :: 0 <= i < |s| ==> IsDigit(s[i])
    decreases |s|
  {
    if s == [] then 0
    else ParseDecimal(s[..|s| - 1]) * 10 + DigitValue(s[|s| - 1])
  }

  function DigitValue(c: char): nat
    requires IsDigit(c)
  {
    c as int - '0' as int
  }

  /** Decimal rendering loses nothing: distinct ids print differently. */
  lemma {:induction false} DecimalRoundTrip(n: nat)
    ensures ParseDecimal(Decimal(n)) == n
    decreases n
  {
    if n >= 10 {
      var d := Decimal(n);
      assert d[..|d| - 1] == Decimal(n / 10);
      DecimalRoundTrip(n / 10);
    }
  }

  // ---------------------------------------------------------------------
  // Repetition
  // ---------------------------------------------------------------------

  /** `c * n` in Python: `n` copies of the character `c`. */
  function Repeat(c: char, n: nat): (r: string)
    ensures |r| == n
    ensures forall i :: 0 <= i < n ==> r[i] == c
  {
    seq(n, _ => c)
  }
}
