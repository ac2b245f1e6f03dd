/** The few Python `str` operations the calendar core relies on:
    `strip()`, ASCII `lower()`, the `in` substring test, `<` on strings and
    `f"{n:0Wd}"` zero-padded decimal formatting together with its inverse. */
module Text {
  import opened Wrappers

  // ---------------------------------------------------------------------
  // Whitespace and strip()
  // ---------------------------------------------------------------------

  /** `c.isspace()`: exactly the characters `str.strip()` removes. */
  predicate IsSpace(c: char) {
    || c == ' '
    || ('\t' <= c <= '\r')
    || ('\U{1c}' <= c <= '\U{1f}')
    || c == '\U{85}' || c == '\U{a0}' || c == '\U{1680}'
    || ('\U{2000}' <= c <= '\U{200a}')
    || c == '\U{2028}' || c == '\U{2029}' || c == '\U{202f}'
    || c == '\U{205f}' || c == '\U{3000}'
  }

  /** Every character of `s` is whitespace. */
  ghost predicate AllSpace(s: string) {
    forall i | 0 <= i < |s| :: IsSpace(s[i])
  }

  /** `s.lstrip()`. */
  function StripLeft(s: string): string {
    if s != [] && IsSpace(s[0]) then StripLeft(s[1..]) else s
  }

  /** `s.rstrip()`. */
  function StripRight(s: string): string {
    if s != [] && IsSpace(s[|s| - 1]) then StripRight(s[..|s| - 1]) else s
  }

  /** `s.strip()`: nothing is left exactly when `s` is all whitespace, and
      what is left neither starts nor ends with whitespace. */
  function Strip(s: string): (r: string)
    ensures r == [] <==> AllSpace(s)
    ensures r != [] ==> !IsSpace(r[0]) && !IsSpace(r[|r| - 1])
  {
    var l := StripLeft(s);
    StripLeftEmpty(s);
    StripLeftKeepsFirst(s);
    if l == [] then []
    else
      StripRightNonEmpty(l);
      StripRightKeepsEnds(l);
      StripRight(l)
  }

  /** Python's `not s.strip()`: the string is empty or all whitespace. */
  predicate IsBlank(s: string) {
    Strip(s) == []
  }

  lemma {:induction false} StripLeftEmpty(s: string)
    ensures StripLeft(s) == [] <==> AllSpace(s)
    decreases |s|
  {
    if s != [] && IsSpace(s[0]) {
      StripLeftEmpty(s[1..]);
      assert AllSpace(s) <==> AllSpace(s[1..]) by {
        if AllSpace(s[1..]) {
          forall i | 0 <= i < |s| ensures IsSpace(s[i]) {
            if i > 0 { assert s[i] == s[1..][i - 1]; }
          }
        }
      }
    }
  }

  lemma {:induction false} StripLeftKeepsFirst(s: string)
    ensures StripLeft(s) != [] ==> !IsSpace(StripLeft(s)[0])
    decreases |s|
  {
    if s != [] && IsSpace(s[0]) { StripLeftKeepsFirst(s[1..]); }
  }

  lemma {:induction false} StripRightNonEmpty(s: string)
    requires s != [] && !IsSpace(s[0])
    ensures StripRight(s) != []
    decreases |s|
  {
    if IsSpace(s[|s| - 1]) {
      assert |s| > 1;
      StripRightNonEmpty(s[..|s| - 1]);
    }
  }

  /** `rstrip` keeps a prefix, and what it keeps does not end in whitespace. */
  lemma {:induction false} StripRightKeepsEnds(s: string)
    ensures StripRight(s) <= s
    ensures StripRight(s) != [] ==> !IsSpace(StripRight(s)[|StripRight(s)| - 1])
    decreases |s|
  {
    if s != [] && IsSpace(s[|s| - 1]) {
      StripRightKeepsEnds(s[..|s| - 1]);
    }
  }

  /** `not s.strip()` holds exactly when every character is whitespace
      (in particular for the empty string). */
  lemma BlankIffAllSpace(s: string)
    ensures IsBlank(s) <==> AllSpace(s)
  {
  }

  // ---------------------------------------------------------------------
  // lower()
  // ---------------------------------------------------------------------

  /** An ASCII capital letter. */
  predicate IsUpper(c: char) {
    'A' <= c <= 'Z'
  }

  /** `c.lower()` for one character: a capital becomes its small letter,
      anything else stays. */
  function LowerChar(c: char): (l: char)
    ensures !IsUpper(l)
    ensures IsUpper(c) ==> 'a' <= l <= 'z' && l as int == c as int + 32
    ensures !IsUpper(c) ==> l == c
  {
    if IsUpper(c) then (c as int + 32) as char else c
  }

  /** Two strings that differ at most in the case of their letters. */
  predicate SameUpToCase(a: string, b: string) {
    |a| == |b| && forall i | 0 <= i < |a| :: LowerChar(a[i]) == LowerChar(b[i])
  }

  /** `s.lower()`, restricted to the ASCII letters: no capital is left,
      only capitals change, and the result differs from `s` only in case. */
  function Lower(s: string): (r: string)
    ensures |r| == |s|
    ensures forall i | 0 <= i < |r| :: !IsUpper(r[i])
    ensures forall i | 0 <= i < |s| :: !IsUpper(s[i]) ==> r[i] == s[i]
    ensures SameUpToCase(r, s)
  {
    seq(|s|, i requires 0 <= i < |s| => LowerChar(s[i]))
  }

  /** Lowering twice is lowering once. */
  lemma LowerIdempotent(s: string)
    ensures Lower(Lower(s)) == Lower(s)
  {
  }

  /** Strings that differ only in case lower to the same string. */
  lemma LowerIgnoresCase(a: string, b: string)
    requires SameUpToCase(a, b)
    ensures Lower(a) == Lower(b)
  {
    var la, lb := Lower(a), Lower(b);
    forall i | 0 <= i < |a|
      ensures la[i] == lb[i]
    {
      assert LowerChar(la[i]) == la[i] && LowerChar(lb[i]) == lb[i];
    }
  }

  // ---------------------------------------------------------------------
  // The `in` substring test
  // ---------------------------------------------------------------------

  /** `p in s` computed the way a scan does it: `p` is a prefix of `s` or
      of one of its suffixes. */
  function Occurs(p: string, s: string): bool
    decreases |s|
  {
    p <= s || (s != [] && Occurs(p, s[1..]))
  }

  /** `p` sits in `s` at offset `i`. */
  predicate OccursAt(p: string, s: string, i: nat) {
    i + |p| <= |s| && s[i..i + |p|] == p
  }

  /** `p` sits in `s` at some offset. */
  ghost predicate SubstringAt(p: string, s: string) {
    exists i: nat :: OccursAt(p, s, i)
  }

  /** An occurrence in the tail is an occurrence one place further on. */
  lemma OccursAtShift(p: string, s: string, i: nat)
    requires s != []
    ensures OccursAt(p, s[1..], i) <==> OccursAt(p, s, i + 1)
  {
    if i + 1 + |p| <= |s| {
      assert s[1..][i..i + |p|] == s[i + 1..i + 1 + |p|];
    }
  }

  /** An occurrence at offset 0 is a prefix. */
  lemma OccursAtZero(p: string, s: string)
    ensures OccursAt(p, s, 0) <==> p <= s
  {
    if |p| <= |s| {
      assert p <= s <==> s[..|p|] == p;
    }
  }

  /** The scan agrees with the definition of a substring, in both directions. */
  lemma {:induction false} OccursIffSubstring(p: string, s: string)
    ensures Occurs(p, s) <==> SubstringAt(p, s)
    decreases |s|
  {
    OccursAtZero(p, s);
    if p <= s {
    } else if s == [] {
      assert forall i: nat :: !OccursAt(p, s, i);
    } else {
      OccursIffSubstring(p, s[1..]);
      if SubstringAt(p, s[1..]) {
        var i: nat :| OccursAt(p, s[1..], i);
        OccursAtShift(p, s, i);
      }
      if SubstringAt(p, s) {
        var i: nat :| OccursAt(p, s, i);
        OccursAtShift(p, s, i - 1);
      }
    }
  }

  // ---------------------------------------------------------------------
  // String comparison
  // ---------------------------------------------------------------------

  /** Python's `a < b` on strings: lexicographic by code point. A proper
      prefix is smaller, and nothing is smaller than its own prefix. */
  predicate StrLt(a: string, b: string)
    ensures a < b ==> StrLt(a, b)
    ensures StrLt(a, b) ==> !(b <= a)
    decreases |a|
  {
    if a == [] then b != []
    else if b == [] then false
    else a[0] < b[0] || (a[0] == b[0] && StrLt(a[1..], b[1..]))
  }

  /** Python's `a <= b` on strings. */
  predicate StrLe(a: string, b: string) {
    a == b || StrLt(a, b)
  }

  lemma {:induction false} StrLtIrreflexive(a: string)
    ensures !StrLt(a, a)
    decreases |a|
  {
    if a != [] { StrLtIrreflexive(a[1..]); }
  }

  lemma {:induction false} StrLtTransitive(a: string, b: string, c: string)
    requires StrLt(a, b) && StrLt(b, c)
    ensures StrLt(a, c)
    decreases |a|
  {
    if a != [] && b != [] && c != [] && a[0] == b[0] == c[0] {
      StrLtTransitive(a[1..], b[1..], c[1..]);
    }
  }

  /** Any two strings are equal or ordered one way or the other. */
  lemma {:induction false} StrLtTrichotomy(a: string, b: string)
    ensures a == b || StrLt(a, b) || StrLt(b, a)
    decreases |a|
  {
    if a != [] && b != [] && a[0] == b[0] {
      StrLtTrichotomy(a[1..], b[1..]);
      if a[1..] == b[1..] { assert a == [a[0]] + a[1..] && b == [b[0]] + b[1..]; }
    }
  }

  lemma StrLtAsymmetric(a: string, b: string)
    requires StrLt(a, b)
    ensures !StrLt(b, a) && a != b
  {
    if StrLt(b, a) { StrLtTransitive(a, b, a); StrLtIrreflexive(a); }
    if a == b { StrLtIrreflexive(a); }
  }

  // ---------------------------------------------------------------------
  // Zero-padded decimals
  // ---------------------------------------------------------------------

  function Pow10(w: nat): (r: nat)
    ensures r >= 1
  {
    if w == 0 then 1 else 10 * Pow10(w - 1)
  }

  predicate IsDigit(c: char) {
    '0' <= c <= '9'
  }

  function DigitChar(d: nat): (c: char)
    requires d < 10
    ensures IsDigit(c)
  {
    ('0' as int + d) as char
  }

  function DigitValue(c: char): (d: nat)
    requires IsDigit(c)
    ensures d < 10
  {
    c as int - '0' as int
  }

  /** `f"{n:0{w}d}"` for a number that fits in `w` digits: exactly `w`
      decimal digits, most significant first. */
  function Pad(n: nat, w: nat): (r: string)
    requires n < Pow10(w)
    ensures |r| == w
    ensures forall i | 0 <= i < w :: IsDigit(r[i])
  {
    if w == 0 then [] else Pad(n / 10, w - 1) + [DigitChar(n % 10)]
  }

  /** The number a string of decimal digits denotes. */
  function Digits(s: string): (v: nat)
    requires forall i | 0 <= i < |s| :: IsDigit(s[i])
    ensures v < Pow10(|s|)
  {
    if s == [] then 0 else Digits(s[..|s| - 1]) * 10 + DigitValue(s[|s| - 1])
  }

  /** The value of a field of decimal digits, `None` when some character is
      not a digit. The empty field reads as 0, where `int("")` would refuse
      it; only fixed-width fields of one or more digits reach it. */
  function ParseDigits(s: string): (r: Option<nat>)
    ensures r.Some? <==> forall i | 0 <= i < |s| :: IsDigit(s[i])
  {
    if forall i | 0 <= i < |s| :: IsDigit(s[i]) then Some(Digits(s)) else None
  }

  /** Reading back a padded number gives the number. */
  lemma {:induction false} DigitsOfPad(n: nat, w: nat)
    requires n < Pow10(w)
    ensures Digits(Pad(n, w)) == n
    decreases w
  {
    if w > 0 {
      var s := Pad(n, w);
      assert s[..w - 1] == Pad(n / 10, w - 1);
      DigitsOfPad(n / 10, w - 1);
    }
  }

  /** Padding a string's value back to its length gives the string. */
  lemma {:induction false} PadOfDigits(s: string)
    requires forall i | 0 <= i < |s| :: IsDigit(s[i])
    ensures Pad(Digits(s), |s|) == s
    decreases |s|
  {
    if s != [] {
      var v := Digits(s);
      assert v / 10 == Digits(s[..|s| - 1]) && v % 10 == DigitValue(s[|s| - 1]);
      PadOfDigits(s[..|s| - 1]);
      assert s == s[..|s| - 1] + [s[|s| - 1]];
    }
  }

  /** Comparing two strings of one length extended by one character each. */
  lemma {:induction false} StrLtSnoc(a: string, b: string, x: char, y: char)
    requires |a| == |b|
    ensures StrLt(a + [x], b + [y]) <==> StrLt(a, b) || (a == b && x < y)
    decreases |a|
  {
    if a != [] {
      assert (a + [x])[1..] == a[1..] + [x] && (b + [y])[1..] == b[1..] + [y];
      StrLtSnoc(a[1..], b[1..], x, y);
      if a[0] == b[0] && a[1..] == b[1..] { assert a == b; }
    }
  }

  /** Zero-padded numbers of one width compare as strings the way they
      compare as numbers. */
  lemma {:induction false} PadOrder(n: nat, m: nat, w: nat)
    requires n < Pow10(w) && m < Pow10(w)
    ensures StrLt(Pad(n, w), Pad(m, w)) <==> n < m
    decreases w
  {
    if w > 0 {
      PadOrder(n / 10, m / 10, w - 1);
      StrLtSnoc(Pad(n / 10, w - 1), Pad(m / 10, w - 1), DigitChar(n % 10), DigitChar(m % 10));
      if Pad(n / 10, w - 1) == Pad(m / 10, w - 1) {
        PadInjective(n / 10, m / 10, w - 1);
      }
    }
  }

  /** Distinct numbers of one width have distinct padded forms. */
  lemma PadInjective(n: nat, m: nat, w: nat)
    requires n < Pow10(w) && m < Pow10(w) && Pad(n, w) == Pad(m, w)
    ensures n == m
  {
    DigitsOfPad(n, w);
    DigitsOfPad(m, w);
  }
}
