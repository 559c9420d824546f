/** Character classes and the string operations of Python's `str` that the
    invoice parser relies on: `isspace`, `strip`, `in`, `split('\n')` and `<=`. */
module Text {

  /** Python's whitespace test (`str.isspace`), which is also what `\s` in a `str`
      pattern and the argument-less `str.strip()` use. */
  predicate IsSpace(c: char)
  {
    || c == ' ' || '\t' <= c <= '\r' || '\U{1C}' <= c <= '\U{1F}'
    || c == '\U{85}' || c == '\U{A0}' || c == '\U{1680}' || '\U{2000}' <= c <= '\U{200A}'
    || c == '\U{2028}' || c == '\U{2029}' || c == '\U{202F}' || c == '\U{205F}' || c == '\U{3000}'
  }

  /** An ASCII decimal digit: the part of `\d` this model covers. */
  predicate IsDigit(c: char)
  {
    '0' <= c <= '9'
  }

  /** The digit character for `n`. */
  function DigitChar(n: int): (c: char)
    requires 0 <= n <= 9
    ensures IsDigit(c)
  {
    ('0' as int + n) as char
  }

  /** The number a digit character stands for. */
  function DigitValue(c: char): (n: int)
    requires IsDigit(c)
    ensures 0 <= n <= 9 && DigitChar(n) == c
  {
    c as int - '0' as int
  }

  /** Every character of `s[a..b]` satisfies `p`. */
  predicate AllIn(s: string, a: nat, b: nat, p: char -> bool)
    requires a <= b <= |s|
  {
    forall m :: a <= m < b ==> p(s[m])
  }

  /** `10` to the power `n`. */
  function Pow10(n: nat): (r: nat)
    ensures r >= 1
  {
    if n == 0 then 1 else 10 * Pow10(n - 1)
  }

  /** `int(s)` for a string of ASCII digits. */
  function DigitsValue(s: string): nat
    requires AllIn(s, 0, |s|, IsDigit)
  {
    if s == [] then 0 else 10 * DigitsValue(s[..|s| - 1]) + DigitValue(s[|s| - 1])
  }

  /** The last `w` decimal digits of `n`, zero-padded on the left. */
  function ZeroPadded(n: nat, w: nat): string
  {
    if w == 0 then [] else ZeroPadded(n / 10, w - 1) + [DigitChar(n % 10)]
  }

  /** A zero-padded rendering has `w` characters, all of them digits. */
  lemma {:induction false} PaddedDigits(n: nat, w: nat)
    ensures |ZeroPadded(n, w)| == w && AllIn(ZeroPadded(n, w), 0, w, IsDigit)
  {
    if w > 0 {
      PaddedDigits(n / 10, w - 1);
    }
  }

  /** Reading a zero-padded rendering back gives the number, when it fits. */
  lemma {:induction false} ValueOfPadded(n: nat, w: nat)
    requires n < Pow10(w)
    ensures |ZeroPadded(n, w)| == w && AllIn(ZeroPadded(n, w), 0, w, IsDigit)
    ensures DigitsValue(ZeroPadded(n, w)) == n
  {
    if w > 0 {
      var r := ZeroPadded(n, w);
      PaddedDigits(n, w);
      PaddedDigits(n / 10, w - 1);
      assert r[..w - 1] == ZeroPadded(n / 10, w - 1);
      ValueOfPadded(n / 10, w - 1);
    }
  }

  /** Writing the value of a digit string back with as many digits gives the string. */
  lemma {:induction false} PaddedOfValue(s: string)
    requires AllIn(s, 0, |s|, IsDigit)
    ensures ZeroPadded(DigitsValue(s), |s|) == s
  {
    if s != [] {
      var init, c := s[..|s| - 1], s[|s| - 1];
      PaddedOfValue(init);
      PaddedDigits(DigitsValue(init), |init|);
      var v := DigitsValue(s);
      assert v / 10 == DigitsValue(init) && v % 10 == DigitValue(c);
      assert s == init + [c];
    }
  }

  /** The first position at or after `k` whose character fails `p` (`|s|` if none does). */
  function SkipWhile(s: string, k: nat, p: char -> bool): (r: nat)
    requires k <= |s|
    ensures k <= r <= |s|
    ensures forall m :: k <= m < r ==> p(s[m])
    ensures r == |s| || !p(s[r])
    decreases |s| - k
  {
    if k == |s| || !p(s[k]) then k else SkipWhile(s, k + 1, p)
  }

  /** The start of the longest run of characters satisfying `p` that ends just before `e`. */
  function SkipBackWhile(s: string, e: nat, p: char -> bool): (r: nat)
    requires e <= |s|
    ensures r <= e
    ensures forall m :: r <= m < e ==> p(s[m])
    ensures r == 0 || !p(s[r - 1])
  {
    if e == 0 || !p(s[e - 1]) then e else SkipBackWhile(s, e - 1, p)
  }

  /** Python's `str.strip()`: `s` without its maximal whitespace prefix and suffix. */
  function Strip(s: string): (r: string)
    ensures r == [] || (!IsSpace(r[0]) && !IsSpace(r[|r| - 1]))
  {
    var a := SkipWhile(s, 0, IsSpace);
    if a == |s| then []
    else s[a..SkipBackWhile(s, |s|, IsSpace)]
  }

  /** What is removed is whitespace: the strip occurs in `s` with only whitespace
      before and after it. */
  lemma {:induction false} StripSpec(s: string)
    ensures exists a :: StrippedAt(s, a, Strip(s))
  {
    var a := SkipWhile(s, 0, IsSpace);
    if a == |s| {
      assert Strip(s) == [];
      assert StrippedAt(s, a, []);
    } else {
      var b := SkipBackWhile(s, |s|, IsSpace);
      assert a < b;
      assert Strip(s) == s[a..b];
      assert StrippedAt(s, a, s[a..b]);
    }
  }

  /** `r` occurs in `s` at position `a`, and everything outside it is whitespace. */
  ghost predicate StrippedAt(s: string, a: nat, r: string)
  {
    && a + |r| <= |s|
    && r == s[a..a + |r|]
    && (forall m :: 0 <= m < a ==> IsSpace(s[m]))
    && (forall m :: a + |r| <= m < |s| ==> IsSpace(s[m]))
  }

  /** A string that neither starts nor ends with whitespace is its own strip. */
  lemma {:induction false} StripUnchanged(s: string)
    requires s == [] || (!IsSpace(s[0]) && !IsSpace(s[|s| - 1]))
    ensures Strip(s) == s
  {
    if s != [] {
      assert SkipWhile(s, 0, IsSpace) == 0;
      assert SkipBackWhile(s, |s|, IsSpace) == |s|;
      assert s[0..|s|] == s;
    }
  }

  /** Python's `sub in s` for strings: a scan for `sub` over the start positions. */
  predicate Contains(s: string, sub: string)
  {
    ContainsFrom(s, sub, 0)
  }

  /** `sub` starts at `from` or at some later position of `s`. */
  predicate ContainsFrom(s: string, sub: string, from: nat)
    decreases |s| - from
  {
    from + |sub| <= |s| && (s[from..from + |sub|] == sub || ContainsFrom(s, sub, from + 1))
  }

  /** The scan finds `sub` exactly when it occurs in `s` as a contiguous piece. */
  lemma {:induction false} ContainsIff(s: string, sub: string)
    ensures Contains(s, sub) <==> exists i :: OccursAt(s, sub, i)
  {
    ContainsFromIff(s, sub, 0);
  }

  lemma {:induction false} ContainsFromIff(s: string, sub: string, from: nat)
    ensures ContainsFrom(s, sub, from) <==> exists i :: from <= i && OccursAt(s, sub, i)
    decreases |s| - from
  {
    if from + |sub| <= |s| {
      ContainsFromIff(s, sub, from + 1);
      if s[from..from + |sub|] == sub {
        assert OccursAt(s, sub, from);
      }
      if exists i :: from <= i && OccursAt(s, sub, i) {
        var i :| from <= i && OccursAt(s, sub, i);
        if i > from {
          assert from + 1 <= i;
        }
      }
    }
  }

  /** `sub` occurs in `s` starting at position `i`. */
  predicate OccursAt(s: string, sub: string, i: nat)
  {
    i + |sub| <= |s| && s[i..i + |sub|] == sub
  }

  /** Python's `s.split('\n')`: the pieces between line breaks, always at least one. */
  function SplitLines(s: string): (r: seq<string>)
    ensures |r| >= 1
    ensures forall k :: 0 <= k < |r| ==> '\n' !in r[k]
    decreases |s|
  {
    var i := SkipWhile(s, 0, c => c != '\n');
    if i == |s| then [s] else [s[..i]] + SplitLines(s[i + 1..])
  }

  /** Python's `'\n'.join(lines)`. */
  function JoinLines(lines: seq<string>): string
    requires |lines| >= 1
  {
    if |lines| == 1 then lines[0] else lines[0] + "\n" + JoinLines(lines[1..])
  }

  /** Splitting at line breaks loses nothing: joining the pieces gives the text back. */
  lemma {:induction false} SplitJoin(s: string)
    ensures JoinLines(SplitLines(s)) == s
    decreases |s|
  {
    var i := SkipWhile(s, 0, c => c != '\n');
    if i < |s| {
      SplitJoin(s[i + 1..]);
      assert s == s[..i] + "\n" + s[i + 1..];
    }
  }

  /** Python's `a <= b` on strings: lexicographic by code point, a prefix first. */
  predicate StrLe(a: string, b: string)
  {
    if a == [] then true
    else if b == [] then false
    else if a[0] != b[0] then a[0] < b[0]
    else StrLe(a[1..], b[1..])
  }

  /** Python's `a < b` on strings. */
  predicate StrLt(a: string, b: string)
  {
    StrLe(a, b) && a != b
  }

  /** Any two strings are ordered one way or the other. */
  lemma {:induction false} StrLeTotal(a: string, b: string)
    ensures StrLe(a, b) || StrLe(b, a)
  {
    if a != [] && b != [] && a[0] == b[0] {
      StrLeTotal(a[1..], b[1..]);
    }
  }

  /** Every string is ordered before itself. */
  lemma {:induction false} StrLeReflexive(a: string)
    ensures StrLe(a, a)
  {
    if a != [] {
      StrLeReflexive(a[1..]);
    }
  }

  /** The string order is antisymmetric. */
  lemma {:induction false} StrLeAntisymmetric(a: string, b: string)
    requires StrLe(a, b) && StrLe(b, a)
    ensures a == b
  {
    if a != [] && b != [] && a[0] == b[0] {
      StrLeAntisymmetric(a[1..], b[1..]);
      assert a == [a[0]] + a[1..];
      assert b == [b[0]] + b[1..];
    }
  }

  /** The string order is transitive. */
  lemma {:induction false} StrLeTransitive(a: string, b: string, c: string)
    requires StrLe(a, b) && StrLe(b, c)
    ensures StrLe(a, c)
  {
    if a != [] && b != [] && c != [] && a[0] == b[0] && b[0] == c[0] {
      StrLeTransitive(a[1..], b[1..], c[1..]);
    }
  }
}
