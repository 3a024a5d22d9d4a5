/** Python's `sep.join`, `str.split(sep)` on a one-character separator, `str.lstrip(ch)` and `str(n)`. */
module Strs {

  /** `sep.join(xs)`. */
  function Join(xs: seq<string>, sep: string): (r: string)
    ensures |xs| == 0 ==> r == ""
    ensures |xs| == 1 ==> r == xs[0]
  {
    if |xs| == 0 then ""
    else if |xs| == 1 then xs[0]
    else xs[0] + sep + Join(xs[1..], sep)
  }

  /** `s.split(c)`: the maximal pieces between occurrences of `c`; never an empty list. */
  function Split(s: string, c: char): (r: seq<string>)
    ensures |r| >= 1
    ensures forall i :: 0 <= i < |r| ==> c !in r[i]
  {
    if |s| == 0 then [""]
    else
      var rest := Split(s[1..], c);
      if s[0] == c then [""] + rest
      else
        assert forall i :: 1 <= i < |rest| ==> c !in rest[i];
        [[s[0]] + rest[0]] + rest[1..]
  }

  /** Splitting a string that begins with a separator-free piece. */
  lemma {:induction false} SplitAfterPiece(x: string, c: char, rest: string)
    requires c !in x
    ensures Split(x + rest, c) == [x + Split(rest, c)[0]] + Split(rest, c)[1..]
  {
    if |x| > 0 {
      assert (x + rest)[1..] == x[1..] + rest;
      SplitAfterPiece(x[1..], c, rest);
      assert [x[0]] + (x[1..] + Split(rest, c)[0]) == x + Split(rest, c)[0];
    } else {
      var r := Split(rest, c);
      assert x + rest == rest;
      assert x + r[0] == r[0];
      assert r == [r[0]] + r[1..];
    }
  }

  /** Joining on `c` and splitting on `c` gives the pieces back, when no piece contains `c`. */
  lemma {:induction false} SplitJoin(xs: seq<string>, c: char)
    requires |xs| >= 1
    requires forall i :: 0 <= i < |xs| ==> c !in xs[i]
    ensures Split(Join(xs, [c]), c) == xs
  {
    if |xs| == 1 {
      SplitAfterPiece(xs[0], c, "");
      assert xs[0] + "" == xs[0];
    } else {
      var tail := Join(xs[1..], [c]);
      SplitJoin(xs[1..], c);
      assert Join(xs, [c]) == xs[0] + ([c] + tail);
      SplitAfterPiece(xs[0], c, [c] + tail);
      assert ([c] + tail)[1..] == tail;
      assert Split([c] + tail, c) == [""] + Split(tail, c);
      assert xs[0] + "" == xs[0];
      assert xs == [xs[0]] + xs[1..];
    }
  }

  /** Splitting on `c` and joining on `c` gives the string back. */
  lemma {:induction false} JoinSplit(s: string, c: char)
    ensures Join(Split(s, c), [c]) == s
  {
    if |s| > 0 {
      JoinSplit(s[1..], c);
      var rest := Split(s[1..], c);
      if s[0] == c {
        assert Split(s, c) == [""] + rest;
        assert ([""] + rest)[1..] == rest;
        assert s == [c] + s[1..];
      } else {
        var r := Split(s, c);
        assert r[1..] == rest[1..];
        if |rest| == 1 {
          assert s == [s[0]] + s[1..];
        } else {
          assert Join(rest, [c]) == rest[0] + [c] + Join(rest[1..], [c]);
          assert s == [s[0]] + s[1..];
        }
      }
    }
  }

  /** Joining two non-empty lists is joining each and putting one separator between. */
  lemma {:induction false} JoinAppend(a: seq<string>, b: seq<string>, sep: string)
    requires |a| >= 1 && |b| >= 1
    ensures Join(a + b, sep) == Join(a, sep) + sep + Join(b, sep)
  {
    if |a| > 1 {
      JoinAppend(a[1..], b, sep);
      assert (a + b)[1..] == a[1..] + b;
    }
  }

  /** `s.lstrip(c)`: drop every leading `c`. */
  function LStrip(s: string, c: char): (r: string)
    ensures |r| <= |s| && r == s[|s| - |r|..]
    ensures |r| == 0 || r[0] != c
    ensures forall i :: 0 <= i < |s| - |r| ==> s[i] == c
  {
    if |s| > 0 && s[0] == c then LStrip(s[1..], c) else s
  }

  function Digit(d: nat): char
    requires d < 10
  {
    "0123456789"[d]
  }

  predicate IsDigit(ch: char)
  {
    '0' <= ch <= '9'
  }

  /** `str(n)` for a non-negative integer. */
  function NatToString(n: nat): (r: string)
    ensures |r| >= 1
    ensures forall i :: 0 <= i < |r| ==> IsDigit(r[i])
    ensures ParseNat(r) == n
  {
    if n < 10 then [Digit(n)]
    else
      var r := NatToString(n / 10) + [Digit(n % 10)];
      assert r[..|r| - 1] == NatToString(n / 10);
      r
  }

  /** The value of a string of decimal digits (the inverse of `NatToString`). */
  function ParseNat(s: string): nat
  {
    if |s| == 0 then 0
    else
      var d := s[|s| - 1];
      ParseNat(s[..|s| - 1]) * 10 + (if IsDigit(d) then (d as int - '0' as int) else 0)
  }
}
