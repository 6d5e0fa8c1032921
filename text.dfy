/**
 * The string operations the upload and report views rely on: Python's
 * `str.endswith`, `", ".join(...)` and `str(n)` for a non-negative integer.
 */
module Text {

  /** `s.endswith(suffix)`: a case-sensitive comparison of the last characters. */
  predicate EndsWith(s: string, suffix: string)
  {
    |suffix| <= |s| && s[|s| - |suffix|..] == suffix
  }

  /** `s.startswith(prefix)`. */
  predicate StartsWith(s: string, prefix: string)
  {
    |prefix| <= |s| && s[..|prefix|] == prefix
  }

  /** `sep.join(xs)`. */
  function Join(xs: seq<string>, sep: string): string
  {
    if |xs| == 0 then ""
    else if |xs| == 1 then xs[0]
    else xs[0] + sep + Join(xs[1..], sep)
  }

  /** Every item is non-empty and has no comma, so that a `", "`-joined list can be read back. */
  predicate CommaFreeItems(xs: seq<string>)
  {
    forall i :: 0 <= i < |xs| ==> xs[i] != "" && ',' !in xs[i]
  }

  /** Two lists of comma-free names that join to the same text are the same list. */
  lemma {:induction false} JoinInjective(xs: seq<string>, ys: seq<string>)
    requires CommaFreeItems(xs) && CommaFreeItems(ys)
    requires Join(xs, ", ") == Join(ys, ", ")
    ensures xs == ys
    decreases |xs|
  {
    if |xs| == 0 || |ys| == 0 {
      if |xs| != 0 {
        JoinHeadPrefix(xs);
        assert false;
      }
      if |ys| != 0 {
        JoinHeadPrefix(ys);
        assert false;
      }
    } else {
      var a, b := xs[0], ys[0];
      var j := Join(xs, ", ");
      JoinHeadPrefix(xs);
      JoinHeadPrefix(ys);
      if |a| != |b| {
        assert false;
      } else {
        assert a == j[..|a|] == b;
        if |xs| == 1 || |ys| == 1 {
          if |xs| != |ys| {
            assert false;
          }
          assert xs == [a] && ys == [b];
        } else {
          assert Join(xs[1..], ", ") == j[|a| + 2..] == Join(ys[1..], ", ");
          JoinInjective(xs[1..], ys[1..]);
          assert xs == [a] + xs[1..] && ys == [b] + ys[1..];
        }
      }
    }
  }

  /** The joined text starts with the first item, followed by `", "` when more items follow. */
  lemma JoinHeadPrefix(xs: seq<string>)
    requires CommaFreeItems(xs) && |xs| > 0
    ensures |Join(xs, ", ")| >= |xs[0]| > 0
    ensures Join(xs, ", ")[..|xs[0]|] == xs[0]
    ensures |xs| > 1 ==> |Join(xs, ", ")| > |xs[0]| && Join(xs, ", ")[|xs[0]|] == ','
  {
  }

  predicate IsDigit(c: char)
  {
    '0' <= c <= '9'
  }

  function DigitChar(d: nat): (c: char)
    requires d < 10
    ensures IsDigit(c)
  {
    ('0' as int + d) as char
  }

  /** `str(n)` for an integer `n >= 0`: decimal digits, no sign, no leading zero. */
  function NatToString(n: nat): (s: string)
    ensures |s| >= 1
    ensures forall i :: 0 <= i < |s| ==> IsDigit(s[i])
    ensures (s[0] == '0') == (n == 0)
    ensures n == 0 ==> s == "0"
  {
    if n < 10 then [DigitChar(n)] else NatToString(n / 10) + [DigitChar(n % 10)]
  }

  /** Reads a string of decimal digits back as a number: the reference inverse of `NatToString`. */
  function ParseNat(s: string): nat
    requires forall i :: 0 <= i < |s| ==> IsDigit(s[i])
  {
    if |s| == 0 then 0 else 10 * ParseNat(s[..|s| - 1]) + DigitValue(s[|s| - 1])
  }

  function DigitValue(c: char): (d: nat)
    requires IsDigit(c)
    ensures d < 10 && DigitChar(d) == c
  {
    (c as int - '0' as int) as nat
  }

  lemma {:induction false} ParseNatToString(n: nat)
    ensures ParseNat(NatToString(n)) == n
  {
    var s := NatToString(n);
    if n >= 10 {
      ParseNatToString(n / 10);
      assert s[..|s| - 1] == NatToString(n / 10);
    }
  }

  /** Different numbers print differently. */
  lemma NatToStringInjective(m: nat, n: nat)
    requires NatToString(m) == NatToString(n)
    ensures m == n
  {
    ParseNatToString(m);
    ParseNatToString(n);
  }
}
