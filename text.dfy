// String helpers with the semantics of the Python string methods the ETL job
// uses: `sep.join(xs)`, `s.split(c)[1]`, `s.split(c)[-1]`, `s.replace(p, "")`
// and `str(i)` for integers.

module Results {
  /** An operation that either produces a value or raises an exception. */
  datatype Result<T> = Ok(value: T) | Err(msg: string)

  datatype Option<T> = None | Some(value: T)
}

module Text {

  /** `sep.join(xs)` */
  function Join(xs: seq<string>, sep: string): string
  {
    if |xs| == 0 then ""
    else if |xs| == 1 then xs[0]
    else xs[0] + sep + Join(xs[1..], sep)
  }

  /** Index of the first occurrence of `c` in `s`, or `|s|` when there is none. */
  function IndexOf(s: string, c: char): (i: nat)
    ensures i <= |s|
    ensures i < |s| ==> s[i] == c
    ensures forall j :: 0 <= j < i ==> s[j] != c
  {
    if |s| == 0 then 0
    else if s[0] == c then 0
    else 1 + IndexOf(s[1..], c)
  }

  /** `pat` occurs in `s` starting at position `j`. */
  predicate StartsAt(s: string, pat: string, j: nat)
  {
    j + |pat| <= |s| && s[j..j + |pat|] == pat
  }

  /** `pat in s`, the substring test. */
  predicate Occurs(s: string, pat: string)
  {
    exists j: nat :: j <= |s| && StartsAt(s, pat, j)
  }

  /**
   * No occurrence of `sep` begins inside `piece`, even when `piece` is followed
   * by `sep`: a piece that `Join` puts before a separator cannot be cut early.
   */
  predicate SepFree(piece: string, sep: string)
  {
    forall j: nat :: j < |piece| ==> !StartsAt(piece + sep, sep, j)
  }

  /**
   * `s.split(sep)`: scans from the left and cuts at every non-overlapping
   * occurrence of `sep`.
   */
  function SplitOn(s: string, sep: string): (parts: seq<string>)
    requires |sep| > 0
    ensures |parts| > 0
    decreases |s|
  {
    if |s| < |sep| then [s]
    else if s[..|sep|] == sep then [""] + SplitOn(s[|sep|..], sep)
    else
      var rest := SplitOn(s[1..], sep);
      [[s[0]] + rest[0]] + rest[1..]
  }

  /** A piece free of the separator's first character is separator-free. */
  lemma FirstAbsentSepFree(piece: string, sep: string)
    requires |sep| > 0 && sep[0] !in piece
    ensures SepFree(piece, sep)
  {
    forall j: nat | j < |piece| ensures !StartsAt(piece + sep, sep, j) {
      if j + |sep| <= |piece + sep| {
        assert (piece + sep)[j..j + |sep|][0] == piece[j];
        assert piece[j] in piece;
      }
    }
  }

  /** Dropping the first character of a separator-free piece keeps it separator-free. */
  lemma SepFreeTail(piece: string, sep: string)
    requires |sep| > 0 && |piece| > 0 && SepFree(piece, sep)
    ensures SepFree(piece[1..], sep)
  {
    var s, t := piece + sep, piece[1..] + sep;
    assert t == s[1..];
    forall j: nat | j < |piece[1..]| ensures !StartsAt(t, sep, j) {
      assert !StartsAt(s, sep, j + 1);
      if j + |sep| <= |t| {
        assert t[j..j + |sep|] == s[j + 1..j + 1 + |sep|];
      }
    }
  }

  /** A separator-free piece followed by the separator is cut right after the piece. */
  lemma {:induction false} SplitAfterPiece(x: string, sep: string, rest: string)
    requires |sep| > 0 && SepFree(x, sep)
    ensures SplitOn(x + sep + rest, sep) == [x] + SplitOn(rest, sep)
    decreases |x|
  {
    var s := x + sep + rest;
    if x == [] {
      assert s[..|sep|] == sep && s[|sep|..] == rest;
    } else {
      var tail := x[1..] + sep + rest;
      assert s == [x[0]] + tail by { assert x == [x[0]] + x[1..]; }
      assert !StartsAt(x + sep, sep, 0);
      assert s[..|sep|] == (x + sep)[0..|sep|];
      SepFreeTail(x, sep);
      SplitAfterPiece(x[1..], sep, rest);
      assert s[1..] == tail;
      var parts := SplitOn(tail, sep);
      assert parts == [x[1..]] + SplitOn(rest, sep);
      assert SplitOn(s, sep) == [[s[0]] + parts[0]] + parts[1..];
      assert [s[0]] + parts[0] == x && parts[1..] == SplitOn(rest, sep);
    }
  }

  /** A separator-free piece on its own is not cut at all. */
  lemma {:induction false} SplitWhole(x: string, sep: string)
    requires |sep| > 0 && SepFree(x, sep)
    ensures SplitOn(x, sep) == [x]
    decreases |x|
  {
    if |x| >= |sep| {
      assert !StartsAt(x + sep, sep, 0);
      assert x[..|sep|] == (x + sep)[0..|sep|];
      SepFreeTail(x, sep);
      SplitWhole(x[1..], sep);
      assert x == [x[0]] + x[1..];
    }
  }

  /** Joining separator-free pieces is reversible: `s.split(sep)` gives the pieces back. */
  lemma {:induction false} SplitJoin(xs: seq<string>, sep: string)
    requires |sep| > 0 && |xs| > 0
    requires forall k :: 0 <= k < |xs| ==> SepFree(xs[k], sep)
    ensures SplitOn(Join(xs, sep), sep) == xs
  {
    if |xs| == 1 {
      SplitWhole(xs[0], sep);
    } else {
      var rest := Join(xs[1..], sep);
      assert Join(xs, sep) == xs[0] + sep + rest;
      SplitAfterPiece(xs[0], sep, rest);
      assert forall k :: 0 <= k < |xs[1..]| ==> xs[1..][k] == xs[k + 1];
      SplitJoin(xs[1..], sep);
      assert xs == [xs[0]] + xs[1..];
    }
  }

  /** `IndexOf` finds the first occurrence: any position before which `c` is absent and at which it occurs (or the end). */
  lemma IndexOfAt(s: string, c: char, k: nat)
    requires k <= |s| && (k == |s| || s[k] == c)
    requires forall j :: 0 <= j < k ==> s[j] != c
    ensures IndexOf(s, c) == k
  {
  }

  /** `s.split(c)[1]`: the text between the first and the second `c`. */
  function SecondField(s: string, c: char): (r: string)
    requires c in s
    ensures c !in r
    ensures var i := IndexOf(s, c);
      i + 1 + |r| <= |s| && s[i + 1..i + 1 + |r|] == r &&
      (i + 1 + |r| == |s| || s[i + 1 + |r|] == c)
  {
    var i := IndexOf(s, c);
    assert i < |s|;
    var rest := s[i + 1..];
    var r := rest[..IndexOf(rest, c)];
    assert forall j :: 0 <= j < |r| ==> r[j] == rest[j];
    r
  }

  /** `s.split(c)[-1]`: the text after the last `c`, or all of `s` when it has none. */
  function LastField(s: string, c: char): (r: string)
    ensures c !in r
    ensures |r| <= |s|
    decreases |s|
  {
    if s == [] || s[|s| - 1] == c then []
    else
      var init := s[..|s| - 1];
      var r := LastField(init, c);
      assert s == init + [s[|s| - 1]];
      r + [s[|s| - 1]]
  }

  /** The last field is the suffix of `s` that follows its last `c` (or all of `s`). */
  lemma {:induction false} LastFieldSuffix(s: string, c: char)
    ensures var r := LastField(s, c);
      r == s[|s| - |r|..] && (|r| < |s| ==> s[|s| - |r| - 1] == c)
    decreases |s|
  {
    if s != [] && s[|s| - 1] != c {
      var init := s[..|s| - 1];
      LastFieldSuffix(init, c);
      var r0 := LastField(init, c);
      assert init[|init| - |r0|..] + [s[|s| - 1]] == s[|s| - |r0| - 1..];
      if |r0| < |init| {
        assert s[|s| - |r0| - 2] == init[|init| - |r0| - 1];
      }
    }
  }

  /** `s.replace(pat, rep)`: leftmost, non-overlapping replacement of every occurrence. */
  function ReplaceAll(s: string, pat: string, rep: string): string
    requires |pat| > 0
    decreases |s|
  {
    if |s| < |pat| then s
    else if s[..|pat|] == pat then rep + ReplaceAll(s[|pat|..], pat, rep)
    else [s[0]] + ReplaceAll(s[1..], pat, rep)
  }

  /** A string in which `pat[0]` does not occur is left alone by `replace`. */
  lemma {:induction false} ReplaceAllAbsent(s: string, pat: string, rep: string)
    requires |pat| > 0 && pat[0] !in s
    ensures ReplaceAll(s, pat, rep) == s
    decreases |s|
  {
    if |s| >= |pat| {
      assert s[..|pat|] != pat by { assert s[0] in s; }
      assert forall x :: x in s[1..] ==> x in s;
      ReplaceAllAbsent(s[1..], pat, rep);
    }
  }

  /** `s + pat` with `pat[0]` absent from `s` loses exactly its trailing `pat`. */
  lemma {:induction false} ReplaceAllSuffix(s: string, pat: string)
    requires |pat| > 0 && pat[0] !in s
    ensures ReplaceAll(s + pat, pat, "") == s
    decreases |s|
  {
    var t := s + pat;
    if |s| == 0 {
      assert t[..|pat|] == pat;
      assert t[|pat|..] == [];
    } else {
      assert t[..|pat|] != pat by { assert t[0] == s[0]; assert s[0] in s; }
      assert s == [s[0]] + s[1..];
      assert t[1..] == s[1..] + pat;
      ReplaceAllSuffix(s[1..], pat);
      assert ReplaceAll(t, pat, "") == [t[0]] + ReplaceAll(t[1..], pat, "");
    }
  }

  /** A prefix in which `pat[0]` does not occur is kept as it is. */
  lemma {:induction false} ReplaceAllKeep(p: string, rest: string, pat: string, rep: string)
    requires |pat| > 0 && pat[0] !in p
    ensures ReplaceAll(p + rest, pat, rep) == p + ReplaceAll(rest, pat, rep)
    decreases |p|
  {
    if p != [] {
      var s := p + rest;
      assert s[0] == p[0] && s[1..] == p[1..] + rest;
      assert p[0] in p;
      assert p == [p[0]] + p[1..];
      ReplaceAllKeep(p[1..], rest, pat, rep);
      if |s| >= |pat| {
        assert s[..|pat|][0] == p[0];
      }
    } else {
      assert p + rest == rest;
    }
  }

  /** The first occurrence of `pat`, after a prefix free of `pat[0]`, is deleted. */
  lemma ReplaceAllFirst(p: string, pat: string, rest: string)
    requires |pat| > 0 && pat[0] !in p
    ensures ReplaceAll(p + pat + rest, pat, "") == p + ReplaceAll(rest, pat, "")
  {
    var t := pat + rest;
    assert p + pat + rest == p + t;
    ReplaceAllKeep(p, t, pat, "");
    assert t[..|pat|] == pat && t[|pat|..] == rest;
    assert ReplaceAll(t, pat, "") == "" + ReplaceAll(rest, pat, "");
    assert "" + ReplaceAll(rest, pat, "") == ReplaceAll(rest, pat, "");
  }

  /** Replacing with the empty string only deletes characters. */
  lemma {:induction false} ReplaceAllDeletes(s: string, pat: string, c: char)
    requires |pat| > 0 && c in ReplaceAll(s, pat, "")
    ensures c in s
    decreases |s|
  {
    if |s| >= |pat| {
      if s[..|pat|] == pat {
        assert ReplaceAll(s, pat, "") == ReplaceAll(s[|pat|..], pat, "");
        ReplaceAllDeletes(s[|pat|..], pat, c);
        assert forall x :: x in s[|pat|..] ==> x in s;
      } else if c != s[0] {
        assert ReplaceAll(s, pat, "") == [s[0]] + ReplaceAll(s[1..], pat, "");
        ReplaceAllDeletes(s[1..], pat, c);
        assert forall x :: x in s[1..] ==> x in s;
      }
    }
  }

  /** The text after a last separator that is followed by separator-free text is that text. */
  lemma {:induction false} LastFieldAfter(prefix: string, c: char, t: string)
    requires c !in t
    ensures LastField(prefix + [c] + t, c) == t
    decreases |t|
  {
    var s := prefix + [c] + t;
    if t == [] {
      assert s[|s| - 1] == c;
    } else {
      var init := t[..|t| - 1];
      assert t[|t| - 1] in t;
      assert forall x :: x in init ==> x in t;
      LastFieldAfter(prefix, c, init);
      assert s[..|s| - 1] == prefix + [c] + init;
      assert t == init + [t[|t| - 1]];
    }
  }

  function DigitChar(d: nat): char
    requires d < 10
  {
    (48 + d) as char
  }

  /** The number a string of decimal digits denotes. */
  function DigitsValue(s: string): nat
  {
    if s == [] then 0
    else
      var d := s[|s| - 1] as int - 48;
      DigitsValue(s[..|s| - 1]) * 10 + (if 0 <= d then d else 0)
  }

  /** The number `int(s)` reads from an optional minus sign and decimal digits. */
  function IntValue(s: string): int
  {
    if s != [] && s[0] == '-' then 0 - DigitsValue(s[1..]) as int else DigitsValue(s)
  }

  /** `str(n)`: the decimal digits of `n`, without leading zeros. */
  function NatToString(n: nat): (s: string)
    ensures |s| > 0 && (|s| > 1 ==> s[0] != '0')
    ensures forall k :: 0 <= k < |s| ==> '0' <= s[k] <= '9'
  {
    if n < 10 then [DigitChar(n)]
    else
      var init := NatToString(n / 10);
      init + [DigitChar(n % 10)]
  }

  /** The digits of `str(n)` read back as `n`. */
  lemma {:induction false} NatToStringValue(n: nat)
    ensures DigitsValue(NatToString(n)) == n
  {
    if n >= 10 {
      var init := NatToString(n / 10);
      var s := NatToString(n);
      assert s[..|s| - 1] == init;
      NatToStringValue(n / 10);
    }
  }

  /** `str(i)` for a Python int: a minus sign for negatives, then the digits. */
  function IntToString(i: int): (s: string)
    ensures |s| > 0 && '0' <= s[|s| - 1] <= '9'
    ensures forall k :: 0 <= k < |s| ==> s[k] == '-' || '0' <= s[k] <= '9'
    ensures forall k :: 0 < k < |s| ==> s[k] != '-'
    ensures (s[0] == '-') <==> i < 0
  {
    if i < 0 then "-" + NatToString(-i) else NatToString(i)
  }

  /** `str(i)` reads back as `i`, the minus sign included. */
  lemma IntToStringValue(i: int)
    ensures IntValue(IntToString(i)) == i
  {
    if i < 0 {
      var digits := NatToString(-i);
      assert IntToString(i)[1..] == digits;
      NatToStringValue(-i);
    } else {
      NatToStringValue(i);
    }
  }
}
