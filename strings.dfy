/** The Python string built-ins the feed code relies on: `str.isdigit`, `int(s)`,
    `str(n)` and `str.replace`, restricted to ASCII digits. */
module Strings {

  predicate IsAsciiDigit(c: char) {
    '0' <= c <= '9'
  }

  /** `s.isdigit()`: true for a non-empty string of digits only (so `""`, `"-1"`, `" 1"` and `"+1"` are rejected). */
  predicate IsDigits(s: string) {
    |s| > 0 && forall i :: 0 <= i < |s| ==> IsAsciiDigit(s[i])
  }

  function DigitValue(c: char): (d: nat)
    requires IsAsciiDigit(c)
    ensures d < 10
  {
    c as int - '0' as int
  }

  function DigitChar(d: nat): (c: char)
    requires d < 10
    ensures IsAsciiDigit(c) && DigitValue(c) == d
  {
    ('0' as int + d) as char
  }

  /** `int(s)` on a string of ASCII digits; leading zeros are allowed, as in Python. */
  function ParseDecimal(s: string): nat
    requires forall i :: 0 <= i < |s| ==> IsAsciiDigit(s[i])
    decreases |s|
  {
    if s == [] then 0 else ParseDecimal(s[..|s| - 1]) * 10 + DigitValue(s[|s| - 1])
  }

  /** `str(n)` for a non-negative integer: its shortest decimal rendering. */
  function NatToString(n: nat): string
    decreases n
  {
    if n < 10 then [DigitChar(n)] else NatToString(n / 10) + [DigitChar(n % 10)]
  }

  /** `int(str(n)) == n`: the rendering is all digits, reads back as `n`, and has no leading zero;
      a single digit renders as itself, so `str(0)` is `"0"`. */
  lemma {:induction false} NatToStringRoundTrip(n: nat)
    ensures IsDigits(NatToString(n))
    ensures ParseDecimal(NatToString(n)) == n
    ensures NatToString(n)[0] == '0' ==> n == 0
    ensures n < 10 ==> NatToString(n) == [DigitChar(n)]
    decreases n
  {
    if n >= 10 {
      NatToStringRoundTrip(n / 10);
      var prefix := NatToString(n / 10);
      var s := prefix + [DigitChar(n % 10)];
      assert s[..|s| - 1] == prefix;
    }
  }

  /** `str(n)` for any integer: a minus sign before the digits of a negative number. */
  function IntToString(n: int): string {
    if n < 0 then "-" + NatToString(-n) else NatToString(n)
  }

  /** How `str(n)` reads back: the digits of `n` itself, or a minus sign and the digits of `-n`. */
  lemma IntToStringRoundTrip(n: int)
    ensures n >= 0 ==> IsDigits(IntToString(n)) && ParseDecimal(IntToString(n)) == n
    ensures n < 0 ==> var s := IntToString(n);
      |s| >= 2 && s[0] == '-' && IsDigits(s[1..]) && ParseDecimal(s[1..]) == -n
  {
    if n < 0 {
      NatToStringRoundTrip(-n);
      assert IntToString(n)[1..] == NatToString(-n);
    } else {
      NatToStringRoundTrip(n);
    }
  }

  /** `t` is a prefix of `s`. */
  predicate StartsWith(s: string, t: string) {
    |t| <= |s| && s[..|t|] == t
  }

  /** `t in s`: `t` occurs somewhere in `s`. */
  predicate Contains(s: string, t: string)
    decreases |s|
  {
    StartsWith(s, t) || (|s| > 0 && Contains(s[1..], t))
  }

  /** `s.replace(pat, rep)` for a non-empty `pat`: scans left to right and replaces every
      non-overlapping occurrence of `pat` by `rep`. */
  function ReplaceAll(s: string, pat: string, rep: string): string
    requires |pat| > 0
    decreases |s|
  {
    if |s| < |pat| then s
    else if s[..|pat|] == pat then rep + ReplaceAll(s[|pat|..], pat, rep)
    else [s[0]] + ReplaceAll(s[1..], pat, rep)
  }

  /** A string without `pat` comes back unchanged. */
  lemma {:induction false} ReplaceAllAbsent(s: string, pat: string, rep: string)
    requires |pat| > 0
    ensures !Contains(s, pat) ==> ReplaceAll(s, pat, rep) == s
    decreases |s|
  {
    if !Contains(s, pat) && |s| >= |pat| {
      assert s[..|pat|] != pat;
      ReplaceAllAbsent(s[1..], pat, rep);
      assert [s[0]] + s[1..] == s;
    }
  }

  /** Text without the first character of `pat` is copied through unchanged: `pat` can
      begin at none of its positions. */
  lemma ReplaceAllKeepsPrefix(a: string, b: string, pat: string, rep: string)
    requires |pat| > 0 && pat[0] !in a
    ensures ReplaceAll(a + b, pat, rep) == a + ReplaceAll(b, pat, rep)
  {
    forall i | 0 <= i < |a|
      ensures !StartsWith((a + b)[i..], pat)
    {
      assert (a + b)[i..][0] == a[i];
    }
    ReplaceAllSkipsPrefix(a, b, pat, rep);
  }

  /** Text in front of `b` at none of whose positions `pat` begins is copied through, and
      the replacement goes on in `b`. */
  lemma {:induction false} ReplaceAllSkipsPrefix(a: string, b: string, pat: string, rep: string)
    requires |pat| > 0
    requires forall i :: 0 <= i < |a| ==> !StartsWith((a + b)[i..], pat)
    ensures ReplaceAll(a + b, pat, rep) == a + ReplaceAll(b, pat, rep)
    decreases |a|
  {
    if a != [] {
      var s := a + b;
      assert s[0..] == s;
      if |s| < |pat| {
        ReplaceAllAbsent(b, pat, rep);
        ShortNotContains(b, pat);
      } else {
        assert s[1..] == a[1..] + b;
        forall i | 0 <= i < |a[1..]|
          ensures !StartsWith((a[1..] + b)[i..], pat)
        {
          assert (a[1..] + b)[i..] == s[i + 1..];
        }
        ReplaceAllSkipsPrefix(a[1..], b, pat, rep);
        assert [a[0]] + a[1..] == a;
      }
    } else {
      assert a + b == b;
    }
  }

  lemma {:induction false} ShortNotContains(s: string, t: string)
    requires |s| < |t|
    ensures !Contains(s, t)
    decreases |s|
  {
    if |s| > 0 {
      ShortNotContains(s[1..], t);
    }
  }

  /** If `rep` does not start with a character of `t`, a prefix `t` of the result was already a prefix of the input. */
  lemma {:induction false} ReplaceAllPrefixFromInput(s: string, t: string, pat: string, rep: string)
    requires |pat| > 0 && |rep| > 0 && rep[0] !in t
    requires StartsWith(ReplaceAll(s, pat, rep), t)
    ensures StartsWith(s, t)
    decreases |s|
  {
    if t != [] && |s| >= |pat| {
      var r := ReplaceAll(s, pat, rep);
      assert r[..|t|][0] == r[0] == t[0] && t[0] in t;
      if s[..|pat|] == pat {
        assert false;
      } else {
        var r' := ReplaceAll(s[1..], pat, rep);
        assert r == [s[0]] + r';
        assert r'[..|t| - 1] == r[1..|t|] == t[1..];
        ReplaceAllPrefixFromInput(s[1..], t[1..], pat, rep);
        assert s[..|t|] == [s[0]] + s[1..][..|t| - 1];
      }
    }
  }

  /** Prepending text that cannot start `pat` creates no new occurrence. */
  lemma {:induction false} PrependKeepsAbsent(a: string, x: string, pat: string)
    requires |pat| > 0 && pat[0] !in a && !Contains(x, pat)
    ensures !Contains(a + x, pat)
    decreases |a|
  {
    if a != [] {
      assert a[0] in a;
      assert |pat| <= |a + x| ==> (a + x)[..|pat|][0] == a[0];
      assert (a + x)[1..] == a[1..] + x;
      PrependKeepsAbsent(a[1..], x, pat);
    } else {
      assert a + x == x;
    }
  }

  /** When `rep` shares neither end with `pat`, no occurrence of `pat` survives the replacement. */
  lemma {:induction false} ReplaceAllRemoves(s: string, pat: string, rep: string)
    requires |pat| > 0 && |rep| > 0 && pat[0] !in rep && rep[0] !in pat
    ensures !Contains(ReplaceAll(s, pat, rep), pat)
    decreases |s|
  {
    var r := ReplaceAll(s, pat, rep);
    if |s| < |pat| {
      ShortNotContains(s, pat);
    } else if s[..|pat|] == pat {
      ReplaceAllRemoves(s[|pat|..], pat, rep);
      PrependKeepsAbsent(rep, ReplaceAll(s[|pat|..], pat, rep), pat);
    } else {
      var r' := ReplaceAll(s[1..], pat, rep);
      ReplaceAllRemoves(s[1..], pat, rep);
      assert r == [s[0]] + r';
      assert r[1..] == r';
      if StartsWith(r, pat) {
        assert StartsWith(r', pat[1..]) by {
          assert r'[..|pat| - 1] == r[1..|pat|] == pat[1..];
        }
        ReplaceAllPrefixFromInput(s[1..], pat[1..], pat, rep);
        assert false;
      }
    }
  }

  /** With a one-character pattern, replacement distributes over concatenation. */
  lemma {:induction false} ReplaceCharConcat(a: string, b: string, c: char, rep: string)
    ensures ReplaceAll(a + b, [c], rep) == ReplaceAll(a, [c], rep) + ReplaceAll(b, [c], rep)
    decreases |a|
  {
    if a != [] {
      var s := a + b;
      assert s[..1] == a[..1];
      assert s[1..] == a[1..] + b;
      ReplaceCharConcat(a[1..], b, c, rep);
      if a[..1] == [c] {
        assert ReplaceAll(s, [c], rep) == rep + ReplaceAll(s[1..], [c], rep);
        assert ReplaceAll(a, [c], rep) == rep + ReplaceAll(a[1..], [c], rep);
      } else {
        assert ReplaceAll(s, [c], rep) == [s[0]] + ReplaceAll(s[1..], [c], rep);
        assert ReplaceAll(a, [c], rep) == [a[0]] + ReplaceAll(a[1..], [c], rep);
      }
    } else {
      assert a + b == b;
    }
  }

  /** A one-character pattern replaces a single character exactly when it is that character. */
  lemma ReplaceCharSingle(x: char, c: char, rep: string)
    ensures ReplaceAll([x], [c], rep) == if x == c then rep else [x]
  {
    assert [x][..1] == [x];
    assert [x][1..] == [];
  }

  /** A one-character pattern leaves a string without that character unchanged. */
  lemma {:induction false} ReplaceCharAbsent(s: string, c: char, rep: string)
    requires c !in s
    ensures ReplaceAll(s, [c], rep) == s
    decreases |s|
  {
    if s != [] {
      assert s == [s[0]] + s[1..];
      ReplaceCharConcat([s[0]], s[1..], c, rep);
      ReplaceCharSingle(s[0], c, rep);
      ReplaceCharAbsent(s[1..], c, rep);
    }
  }
}
