/**
 The handful of Python `str` operations the scripts rely on, stated over
 `string` (a sequence of Unicode scalar values, compared by code point as
 Python compares `str`).
 */
module Text {

  /** Python's `s.split(sep)` for a one-character separator: the pieces between
      separators, empty pieces included, so there is always at least one. */
  function Split(s: string, sep: char): (r: seq<string>)
    ensures |r| >= 1
    ensures forall t | t in r :: sep !in t
  {
    if s == [] then [""]
    else
      var rest := Split(s[1..], sep);
      if s[0] == sep then [""] + rest
      else [[s[0]] + rest[0]] + rest[1..]
  }

  /** Python's `sep.join(pieces)`. */
  function Join(pieces: seq<string>, sep: char): string
  {
    if |pieces| == 0 then ""
    else if |pieces| == 1 then pieces[0]
    else pieces[0] + [sep] + Join(pieces[1..], sep)
  }

  /** Gluing the pieces of a split back together gives the original string. */
  lemma {:induction false} JoinSplit(s: string, sep: char)
    ensures Join(Split(s, sep), sep) == s
  {
    if s != [] {
      var rest := Split(s[1..], sep);
      JoinSplit(s[1..], sep);
      if s[0] == sep {
        assert Split(s, sep) == [""] + rest;
        assert ([""] + rest)[1..] == rest;
      } else {
        assert Split(s, sep) == [[s[0]] + rest[0]] + rest[1..];
        if |rest| > 1 {
          assert ([[s[0]] + rest[0]] + rest[1..])[1..] == rest[1..];
        }
      }
    }
  }

  /** A string without the separator splits into itself alone. */
  lemma {:induction false} SplitWithoutSep(t: string, sep: char)
    requires sep !in t
    ensures Split(t, sep) == [t]
  {
    if t != [] {
      SplitWithoutSep(t[1..], sep);
      assert [t[0]] + t[1..] == t;
    }
  }

  /** A separator-free piece followed by the separator splits off as the first piece. */
  lemma {:induction false} SplitAfterPiece(t: string, sep: char, rest: string)
    requires sep !in t
    ensures Split(t + [sep] + rest, sep) == [t] + Split(rest, sep)
  {
    var s := t + [sep] + rest;
    if t == [] {
      assert s[1..] == rest;
    } else {
      assert s[1..] == t[1..] + [sep] + rest;
      SplitAfterPiece(t[1..], sep, rest);
      assert [t[0]] + t[1..] == t;
    }
  }

  /** Splitting a join of separator-free pieces gives the pieces back. */
  lemma {:induction false} SplitJoin(pieces: seq<string>, sep: char)
    requires |pieces| >= 1
    requires forall p | p in pieces :: sep !in p
    ensures Split(Join(pieces, sep), sep) == pieces
  {
    if |pieces| == 1 {
      SplitWithoutSep(pieces[0], sep);
    } else {
      SplitJoin(pieces[1..], sep);
      SplitAfterPiece(pieces[0], sep, Join(pieces[1..], sep));
      assert [pieces[0]] + pieces[1..] == pieces;
    }
  }

  /** A split has one more piece than the string has separators. */
  lemma {:induction false} SplitCount(s: string, sep: char)
    ensures |Split(s, sep)| == multiset(s)[sep] + 1
  {
    if s != [] {
      SplitCount(s[1..], sep);
      assert s == [s[0]] + s[1..];
      assert multiset(s) == multiset{s[0]} + multiset(s[1..]);
    }
  }

  /** Python's `pat in s` for two strings. */
  predicate Contains(s: string, pat: string)
  {
    pat <= s || (s != [] && Contains(s[1..], pat))
  }

  /** An occurrence of a pattern carries every character of the pattern into the string. */
  lemma {:induction false} ContainsCarries(s: string, pat: string, c: char)
    requires Contains(s, pat) && c in pat
    ensures c in s
  {
    if !(pat <= s) {
      ContainsCarries(s[1..], pat, c);
    }
  }

  /** In front of a pattern that starts with `sep`, a separator-free prefix cannot hold an occurrence. */
  lemma {:induction false} ContainsSkipsPiece(t: string, rest: string, pat: string, sep: char)
    requires sep !in t && |pat| > 0 && pat[0] == sep
    ensures Contains(t + rest, pat) <==> Contains(rest, pat)
  {
    if t == [] {
      assert t + rest == rest;
    } else {
      assert (t + rest)[1..] == t[1..] + rest;
      assert t[0] in t;
      assert (t + rest)[0] != pat[0];
      ContainsSkipsPiece(t[1..], rest, pat, sep);
    }
  }

  /** `x + sep` starts a join of separator-free pieces exactly when x is the first of at least two pieces. */
  lemma JoinStartsWith(pieces: seq<string>, x: string, sep: char)
    requires |pieces| >= 1 && sep !in x
    requires forall p | p in pieces :: sep !in p
    ensures x + [sep] <= Join(pieces, sep) <==> |pieces| >= 2 && x == pieces[0]
  {
    var p0 := pieces[0];
    var j := Join(pieces, sep);
    if |pieces| == 1 {
      if |x| < |j| {
        assert j[|x|] in p0;
      }
    } else {
      assert j == p0 + [sep] + Join(pieces[1..], sep);
      if |x| < |p0| {
        assert p0[|x|] in p0;
        assert j[|x|] == p0[|x|];
      } else if |x| > |p0| {
        assert j[|p0|] == sep;
        assert x[|p0|] in x;
      } else {
        assert j[..|x| + 1] == p0 + [sep];
        if x + [sep] <= j {
          assert x == (x + [sep])[..|x|] == j[..|x|] == p0;
        }
      }
    }
  }

  /**
   `sep + x + sep` occurs in a join of separator-free pieces exactly when x is
   one of the inner pieces (neither the first nor the last).
   */
  lemma {:induction false} DelimitedPiece(pieces: seq<string>, x: string, sep: char)
    requires |pieces| >= 1 && sep !in x
    requires forall p | p in pieces :: sep !in p
    ensures Contains(Join(pieces, sep), [sep] + x + [sep]) <==> exists i | 0 < i < |pieces| - 1 :: pieces[i] == x
  {
    var pat := [sep] + x + [sep];
    if |pieces| == 1 {
      if Contains(pieces[0], pat) {
        ContainsCarries(pieces[0], pat, sep);
      }
    } else {
      var tail := pieces[1..];
      var r := Join(tail, sep);
      ContainsSkipsPiece(pieces[0], [sep] + r, pat, sep);
      assert Join(pieces, sep) == pieces[0] + ([sep] + r);
      assert ([sep] + r)[1..] == r;
      assert pat <= [sep] + r <==> x + [sep] <= r;
      JoinStartsWith(tail, x, sep);
      DelimitedPiece(tail, x, sep);
      assert forall i | 0 < i < |tail| :: tail[i] == pieces[i + 1];
    }
  }

  /** Python's `s.replace(c, '')`. */
  function RemoveChar(s: string, c: char): (r: string)
    ensures c !in r
    ensures forall d | d != c :: multiset(r)[d] == multiset(s)[d]
  {
    if s == [] then []
    else
      assert s == [s[0]] + s[1..];
      (if s[0] == c then [] else [s[0]]) + RemoveChar(s[1..], c)
  }

  /** Number of copies of `c` at the front of `s`. */
  function LeadingRun(s: string, c: char): (n: nat)
    ensures n <= |s|
    ensures forall i | 0 <= i < n :: s[i] == c
    ensures n < |s| ==> s[n] != c
  {
    if s == [] || s[0] != c then 0 else 1 + LeadingRun(s[1..], c)
  }

  /** Number of copies of `c` at the back of `s`. */
  function TrailingRun(s: string, c: char): (n: nat)
    ensures n <= |s|
    ensures forall i | |s| - n <= i < |s| :: s[i] == c
    ensures n < |s| ==> s[|s| - 1 - n] != c
  {
    if s == [] || s[|s| - 1] != c then 0 else 1 + TrailingRun(s[..|s| - 1], c)
  }

  /** Python's `s.strip(c)`: every leading and trailing `c` removed. */
  function Strip(s: string, c: char): (r: string)
  {
    var lead := LeadingRun(s, c);
    if lead == |s| then "" else s[lead..|s| - TrailingRun(s, c)]
  }

  /** The stripped string is the middle of the original, with only `c` cut from either end, and neither of its ends is `c`. */
  lemma StripIsMiddle(s: string, c: char)
    ensures var r := Strip(s, c);
      && (r == [] || (r[0] != c && r[|r| - 1] != c))
      && exists i, j | 0 <= i <= j <= |s| ::
           && r == s[i..j]
           && (forall k | 0 <= k < i :: s[k] == c)
           && (forall k | j <= k < |s| :: s[k] == c)
  {
    var lead := LeadingRun(s, c);
    if lead == |s| {
      assert Strip(s, c) == s[|s|..|s|];
    } else {
      var trail := TrailingRun(s, c);
      assert s[lead] != c;
      assert lead <= |s| - 1 - trail;
      assert Strip(s, c) == s[lead..|s| - trail];
    }
  }

  /** Stripping removes exactly the surrounding copies of `c`: a value whose ends are not `c` survives any padding. */
  lemma {:induction false} StripPadded(t: string, c: char, front: nat, back: nat)
    requires t != [] ==> t[0] != c && t[|t| - 1] != c
    ensures Strip(Repeat(c, front) + t + Repeat(c, back), c) == t
  {
    var s := Repeat(c, front) + t + Repeat(c, back);
    LeadingOfPadded(t, c, front, back);
    if t == [] {
      assert s == Repeat(c, front + back);
      RepeatAll(c, front + back);
    } else {
      TrailingOfPadded(t, c, front, back);
      assert s[front..|s| - back] == t;
    }
  }

  /** `n` copies of `c`. */
  function Repeat(c: char, n: nat): (r: string)
    ensures |r| == n && forall i | 0 <= i < n :: r[i] == c
  {
    if n == 0 then "" else [c] + Repeat(c, n - 1)
  }

  lemma RepeatAll(c: char, n: nat)
    ensures LeadingRun(Repeat(c, n), c) == n
  {
    if n > 0 {
      assert Repeat(c, n)[1..] == Repeat(c, n - 1);
      RepeatAll(c, n - 1);
    }
  }

  lemma {:induction false} LeadingOfPadded(t: string, c: char, front: nat, back: nat)
    requires t != [] ==> t[0] != c
    ensures LeadingRun(Repeat(c, front) + t + Repeat(c, back), c) == front + (if t == [] then back else 0)
  {
    var s := Repeat(c, front) + t + Repeat(c, back);
    if front > 0 {
      assert s[1..] == Repeat(c, front - 1) + t + Repeat(c, back);
      LeadingOfPadded(t, c, front - 1, back);
    } else if t == [] {
      assert s == Repeat(c, back);
      RepeatAll(c, back);
    }
  }

  lemma {:induction false} TrailingOfPadded(t: string, c: char, front: nat, back: nat)
    requires t != [] && t[|t| - 1] != c
    ensures TrailingRun(Repeat(c, front) + t + Repeat(c, back), c) == back
  {
    var s := Repeat(c, front) + t + Repeat(c, back);
    if back > 0 {
      assert Repeat(c, back) == Repeat(c, back - 1) + [c] by {
        RepeatSnoc(c, back);
      }
      assert s[..|s| - 1] == Repeat(c, front) + t + Repeat(c, back - 1);
      TrailingOfPadded(t, c, front, back - 1);
    }
  }

  lemma RepeatSnoc(c: char, n: nat)
    requires n > 0
    ensures Repeat(c, n) == Repeat(c, n - 1) + [c]
  {
  }

  /** Python's `a <= b` on `str`: lexicographic by code point, a proper prefix first. */
  predicate LexLe(a: string, b: string)
  {
    a == [] || (b != [] && (a[0] < b[0] || (a[0] == b[0] && LexLe(a[1..], b[1..]))))
  }

  lemma {:induction false} LexLeTotal(a: string, b: string)
    ensures LexLe(a, b) || LexLe(b, a)
  {
    if a != [] && b != [] && a[0] == b[0] {
      LexLeTotal(a[1..], b[1..]);
    }
  }

  lemma {:induction false} LexLeTrans(a: string, b: string, c: string)
    requires LexLe(a, b) && LexLe(b, c)
    ensures LexLe(a, c)
  {
    if a != [] && a[0] == b[0] && b[0] == c[0] {
      LexLeTrans(a[1..], b[1..], c[1..]);
    }
  }

  lemma {:induction false} LexLeAntisym(a: string, b: string)
    requires LexLe(a, b) && LexLe(b, a)
    ensures a == b
  {
    if a != [] {
      LexLeAntisym(a[1..], b[1..]);
      assert a == [a[0]] + a[1..] && b == [b[0]] + b[1..];
    }
  }

  lemma LexLeRefl(a: string)
    ensures LexLe(a, a)
  {
  }

  predicate IsDigit(c: char)
  {
    '0' <= c <= '9'
  }

  /** Python's `str(n)` for a natural number. */
  function Decimal(n: nat): (r: string)
    ensures |r| >= 1 && forall c | c in r :: IsDigit(c)
  {
    if n < 10 then [DigitChar(n)] else Decimal(n / 10) + [DigitChar(n % 10)]
  }

  function DigitChar(d: nat): (c: char)
    requires d < 10
    ensures IsDigit(c)
  {
    ['0', '1', '2', '3', '4', '5', '6', '7', '8', '9'][d]
  }

  function DigitValue(c: char): nat
    requires IsDigit(c)
  {
    (c as int - '0' as int) as nat
  }

  /** Value of a string of decimal digits; leading zeros are allowed, as Python's `int(s)` allows them. */
  function DigitsValue(s: string): nat
    requires forall c | c in s :: IsDigit(c)
  {
    if s == [] then 0 else 10 * DigitsValue(s[..|s| - 1]) + DigitValue(s[|s| - 1])
  }

  /** Python's `s.zfill(width)` for a string without a sign: zeros prepended up to `width`. */
  function ZFill(s: string, width: nat): string
  {
    if |s| >= width then s else Repeat('0', width - |s|) + s
  }

  /** The run label of ftq_map.py:78, `f'{r+1}'.zfill(2)`, for the row at zero-based position r. */
  function RunLabel(r: nat): string
  {
    ZFill(Decimal(r + 1), 2)
  }

  lemma {:induction false} DecimalValue(n: nat)
    ensures DigitsValue(Decimal(n)) == n
  {
    if n >= 10 {
      DecimalValue(n / 10);
      var d := Decimal(n);
      assert d[..|d| - 1] == Decimal(n / 10);
    }
  }

  lemma {:induction false} LeadingZerosValue(k: nat, s: string)
    requires forall c | c in s :: IsDigit(c)
    ensures forall c | c in Repeat('0', k) + s :: IsDigit(c)
    ensures DigitsValue(Repeat('0', k) + s) == DigitsValue(s)
  {
    var z := Repeat('0', k);
    assert forall c | c in z + s :: c in z || c in s;
    if s == [] {
      assert z + s == z;
      ZerosValue(k);
    } else {
      LeadingZerosValue(k, s[..|s| - 1]);
      assert (z + s)[..|z + s| - 1] == z + s[..|s| - 1];
    }
  }

  lemma {:induction false} ZerosValue(k: nat)
    ensures forall c | c in Repeat('0', k) :: IsDigit(c)
    ensures DigitsValue(Repeat('0', k)) == 0
  {
    if k > 0 {
      ZerosValue(k - 1);
      RepeatSnoc('0', k);
    }
  }

  /**
   A run label is a string of digits, at least two long and exactly two for the
   first 99 runs, that reads back as the 1-based run number: distinct rows of a
   group therefore never share a label.
   */
  lemma RunLabelValue(r: nat)
    ensures forall c | c in RunLabel(r) :: IsDigit(c)
    ensures DigitsValue(RunLabel(r)) == r + 1
    ensures |RunLabel(r)| >= 2 && (r < 99 ==> |RunLabel(r)| == 2)
  {
    var d := Decimal(r + 1);
    DecimalValue(r + 1);
    if |d| < 2 {
      LeadingZerosValue(2 - |d|, d);
    } else if r < 99 {
      assert d == Decimal((r + 1) / 10) + [DigitChar((r + 1) % 10)];
    }
  }

  lemma RunLabelInjective(r: nat, q: nat)
    requires RunLabel(r) == RunLabel(q)
    ensures r == q
  {
    RunLabelValue(r);
    RunLabelValue(q);
  }

}
