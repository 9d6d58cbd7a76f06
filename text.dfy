/** The few Python string and slice built-ins the extractor relies on:
    `endswith`, `rstrip`, `split(sep)[-1]`, `split(sep)[0]`, `s[:n]`,
    `replace` of one character, and `str()` of an integer. */
module Text {

  predicate StartsWith(s: string, prefix: string) {
    |prefix| <= |s| && s[..|prefix|] == prefix
  }

  predicate EndsWith(s: string, suffix: string) {
    |suffix| <= |s| && s[|s| - |suffix|..] == suffix
  }

  /** Python `s.rstrip(c)`: `s` without the run of `c` at its end. */
  function RStrip(s: string, c: char): (r: string)
    ensures |r| <= |s| && r == s[..|r|]
    ensures r == [] || r[|r| - 1] != c
    ensures forall k :: |r| <= k < |s| ==> s[k] == c
  {
    if s == [] then []
    else if s[|s| - 1] == c then RStrip(s[..|s| - 1], c)
    else s
  }

  /** Python `s.split(c)[-1]` for a one-character separator: the longest
      suffix of `s` free of `c`, which starts right after the last `c`
      (or is all of `s` when there is none). */
  function AfterLastChar(s: string, c: char): (r: string)
    ensures |r| <= |s| && r == s[|s| - |r|..]
    ensures c !in r
    ensures |r| == |s| || s[|s| - |r| - 1] == c
  {
    if s == [] then []
    else if s[|s| - 1] == c then []
    else
      var r' := AfterLastChar(s[..|s| - 1], c);
      assert s[|s| - |r'| - 1..] == s[..|s| - 1][|s| - 1 - |r'|..] + [s[|s| - 1]];
      r' + [s[|s| - 1]]
  }

  /** The piece after the last `c` of `p + [c] + r`, when `r` is free of `c`, is `r`. */
  lemma {:induction false} AfterLastCharConcat(p: string, c: char, r: string)
    requires c !in r
    ensures AfterLastChar(p + [c] + r, c) == r
  {
    var s := p + [c] + r;
    if r != [] {
      var r' := r[..|r| - 1];
      assert s[..|s| - 1] == p + [c] + r';
      AfterLastCharConcat(p, c, r');
      assert r' + [r[|r| - 1]] == r;
    }
  }

  /** Python `s.split(c)[0]` for a one-character separator: the longest
      prefix of `s` free of `c`, which ends right before the first `c`. */
  function BeforeFirstChar(s: string, c: char): string {
    if s == [] then []
    else if s[0] == c then []
    else [s[0]] + BeforeFirstChar(s[1..], c)
  }

  /** The piece is a prefix free of `c`, followed in `s` by a `c` unless it is all of `s`. */
  lemma {:induction false} BeforeFirstCharSpec(s: string, c: char)
    ensures var r := BeforeFirstChar(s, c);
      && |r| <= |s| && r == s[..|r|]
      && c !in r
      && (|r| == |s| || s[|r|] == c)
  {
    if s != [] && s[0] != c {
      BeforeFirstCharSpec(s[1..], c);
    }
  }

  /** `r` does not contain the two-character text `[a, b]`. */
  predicate FreeOfPair(r: string, a: char, b: char) {
    forall k :: 0 <= k < |r| - 1 ==> !(r[k] == a && r[k + 1] == b)
  }

  /** Python `s.split(a + b)[-1]` for a two-character separator of two
      distinct characters (such a separator cannot overlap itself, so the
      last piece is the text after its last occurrence). */
  function AfterLastPair(s: string, a: char, b: char): string {
    if |s| < 2 then s
    else if s[|s| - 2] == a && s[|s| - 1] == b then []
    else AfterLastPair(s[..|s| - 1], a, b) + [s[|s| - 1]]
  }

  /** The piece is a suffix of `s`. */
  lemma {:induction false} AfterLastPairSuffix(s: string, a: char, b: char)
    ensures var r := AfterLastPair(s, a, b); |r| <= |s| && r == s[|s| - |r|..]
  {
    if 2 <= |s| && !(s[|s| - 2] == a && s[|s| - 1] == b) {
      var init := s[..|s| - 1];
      var r' := AfterLastPair(init, a, b);
      AfterLastPairSuffix(init, a, b);
      assert s[|s| - |r'| - 1..] == init[|init| - |r'|..] + [s[|s| - 1]];
    }
  }

  /** The piece does not contain the pair, and unless it is all of `s` it
      follows the last occurrence of the pair. */
  lemma {:induction false} AfterLastPairSpec(s: string, a: char, b: char)
    ensures var r := AfterLastPair(s, a, b);
      && |r| <= |s| && r == s[|s| - |r|..]
      && FreeOfPair(r, a, b)
      && (|r| == |s| || (|r| + 2 <= |s| && s[|s| - |r| - 2] == a && s[|s| - |r| - 1] == b))
  {
    AfterLastPairSuffix(s, a, b);
    if 2 <= |s| && !(s[|s| - 2] == a && s[|s| - 1] == b) {
      var init := s[..|s| - 1];
      var r' := AfterLastPair(init, a, b);
      AfterLastPairSpec(init, a, b);
      var r := r' + [s[|s| - 1]];
      assert r == AfterLastPair(s, a, b);
      if r' != [] {
        assert r'[|r'| - 1] == s[|s| - 2];
      }
      forall k | 0 <= k < |r| - 1
        ensures !(r[k] == a && r[k + 1] == b)
      {
        if k < |r'| - 1 {
          assert r[k] == r'[k] && r[k + 1] == r'[k + 1];
        }
      }
      if |r'| < |init| {
        assert s[|s| - |r| - 2] == init[|init| - |r'| - 2];
        assert s[|s| - |r| - 1] == init[|init| - |r'| - 1];
      }
    }
  }

  /** The piece before the first `c` ends where `c` first occurs. */
  lemma {:induction false} BeforeFirstCharAt(s: string, c: char, n: nat)
    requires n < |s| && s[n] == c && c !in s[..n]
    ensures BeforeFirstChar(s, c) == s[..n]
  {
    if n > 0 {
      assert s[1..][..n - 1] == s[1..n];
      BeforeFirstCharAt(s[1..], c, n - 1);
      assert [s[0]] + s[1..n] == s[..n];
    }
  }

  /** A text free of `c` is its own piece before the first `c`. */
  lemma {:induction false} BeforeFirstCharFree(x: string, c: char)
    requires c !in x
    ensures BeforeFirstChar(x, c) == x
  {
    if x != [] {
      BeforeFirstCharFree(x[1..], c);
    }
  }

  /** For distinct `a` and `b`, the piece after the last pair of `p + [a, b] + r`,
      when `r` is free of the pair, is `r`. */
  lemma {:induction false} AfterLastPairConcat(p: string, a: char, b: char, r: string)
    requires a != b && FreeOfPair(r, a, b)
    ensures AfterLastPair(p + [a, b] + r, a, b) == r
  {
    var s := p + [a, b] + r;
    if r != [] {
      var r' := r[..|r| - 1];
      assert s[..|s| - 1] == p + [a, b] + r';
      assert FreeOfPair(r', a, b) by {
        forall k | 0 <= k < |r'| - 1
          ensures !(r'[k] == a && r'[k + 1] == b)
        {
          assert r'[k] == r[k] && r'[k + 1] == r[k + 1];
        }
      }
      AfterLastPairConcat(p, a, b, r');
      if |r| >= 2 {
        assert s[|s| - 2] == r[|r| - 2] && s[|s| - 1] == r[|r| - 1];
      } else {
        assert s[|s| - 2] == b;
      }
      assert r' + [r[|r| - 1]] == r;
    }
  }

  /** Python slicing `s[:n]`: a negative `n` counts from the end. */
  function PrefixSlice<T>(s: seq<T>, n: int): (r: seq<T>)
    ensures |r| <= |s| && r == s[..|r|]
    ensures 0 <= n ==> |r| == if n <= |s| then n else |s|
    ensures n < 0 ==> |r| == if -n <= |s| then |s| + n else 0
  {
    if 0 <= n then (if n <= |s| then s[..n] else s)
    else if -n <= |s| then s[..|s| + n]
    else []
  }

  /** Python `s.replace(x, y)` for single characters `x` and `y`: one
      character in, one character out. */
  function ReplaceChar(s: string, x: char, y: char): (r: string)
    ensures |r| == |s|
    ensures forall k :: 0 <= k < |s| ==> r[k] == (if s[k] == x then y else s[k])
  {
    if s == [] then [] else ReplaceChar(s[..|s| - 1], x, y) + [if s[|s| - 1] == x then y else s[|s| - 1]]
  }

  /** Replacing a character commutes with cutting a prefix, so truncating
      before or after the replacement gives the same text. */
  lemma ReplaceCommutesWithPrefix(s: string, x: char, y: char, n: nat)
    requires n <= |s|
    ensures ReplaceChar(s[..n], x, y) == ReplaceChar(s, x, y)[..n]
  {
  }

  function DigitChar(d: nat): (c: char)
    requires d < 10
    ensures '0' <= c <= '9'
  {
    ['0', '1', '2', '3', '4', '5', '6', '7', '8', '9'][d]
  }

  function DigitValue(c: char): nat
    requires '0' <= c <= '9'
  {
    c as int - '0' as int
  }

  predicate IsDigits(s: string) {
    forall k :: 0 <= k < |s| ==> '0' <= s[k] <= '9'
  }

  /** The number a string of decimal digits denotes. */
  function DecimalValue(s: string): nat
    requires IsDigits(s)
  {
    if s == [] then 0 else 10 * DecimalValue(s[..|s| - 1]) + DigitValue(s[|s| - 1])
  }

  /** Python `str(n)` for a non-negative integer: decimal digits without
      leading zeros. */
  function NatToDecimal(n: nat): (r: string)
    ensures |r| > 0 && IsDigits(r)
    ensures r[0] == '0' ==> r == "0"
  {
    if n < 10 then [DigitChar(n)] else NatToDecimal(n / 10) + [DigitChar(n % 10)]
  }

  /** `str(n)` is read back as `n`. */
  lemma {:induction false} NatToDecimalRoundTrip(n: nat)
    ensures DecimalValue(NatToDecimal(n)) == n
  {
    var r := NatToDecimal(n);
    if n < 10 {
      assert r[..|r| - 1] == [];
      assert DecimalValue(r) == DigitValue(DigitChar(n));
    } else {
      NatToDecimalRoundTrip(n / 10);
      assert r[..|r| - 1] == NatToDecimal(n / 10);
    }
  }

  /** Python `str(i)` for any integer: a minus sign before a negative one,
      and digits that read back as the magnitude. */
  function IntToDecimal(i: int): (r: string)
    ensures |r| > 0
    ensures (r[0] == '-') <==> i < 0
    ensures var ds := if i < 0 then r[1..] else r;
      IsDigits(ds) && DecimalValue(ds) == (if i < 0 then -i else i)
  {
    if 0 <= i then
      NatToDecimalRoundTrip(i);
      NatToDecimal(i)
    else
      NatToDecimalRoundTrip(-i);
      assert ("-" + NatToDecimal(-i))[1..] == NatToDecimal(-i);
      "-" + NatToDecimal(-i)
  }
}
