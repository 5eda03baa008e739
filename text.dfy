/**
 * The java.lang.String operations the core relies on: trim, toLowerCase,
 * indexOf/contains, split, and the decimal digit conversions behind
 * Integer.parseInt/toString and the zero-padded date fields.
 * Characters are compared as UTF-16 code units; case mapping is ASCII only.
 */
module Text {
  import opened Results

  // ---------------------------------------------------------------- trim

  /** `String.trim` strips every leading and trailing char at or below U+0020. */
  predicate IsWhite(c: char) { c <= ' ' }

  predicate AllWhite(s: string) { forall i :: 0 <= i < |s| ==> IsWhite(s[i]) }

  /** A string `trim` leaves as it is: empty, or no white char at either end. */
  predicate Clean(s: string) { s == [] || (!IsWhite(s[0]) && !IsWhite(s[|s| - 1])) }

  function TrimStart(s: string): (r: string)
    ensures r != [] ==> !IsWhite(r[0])
  {
    if s != [] && IsWhite(s[0]) then TrimStart(s[1..]) else s
  }

  /** `TrimStart` removes a white prefix and keeps the rest. */
  lemma {:induction false} TrimStartCut(s: string)
    ensures |TrimStart(s)| <= |s| && TrimStart(s) == s[|s| - |TrimStart(s)|..]
    ensures AllWhite(s[..|s| - |TrimStart(s)|])
  {
    if s != [] && IsWhite(s[0]) {
      var r := TrimStart(s);
      TrimStartCut(s[1..]);
      assert s[1..][|s| - 1 - |r|..] == s[|s| - |r|..];
      assert s[..|s| - |r|] == [s[0]] + s[1..][..|s| - 1 - |r|];
    }
  }

  function TrimEnd(s: string): (r: string)
    ensures r != [] ==> !IsWhite(r[|r| - 1])
  {
    if s != [] && IsWhite(s[|s| - 1]) then TrimEnd(s[..|s| - 1]) else s
  }

  /** `TrimEnd` removes a white suffix and keeps the rest. */
  lemma {:induction false} TrimEndCut(s: string)
    ensures |TrimEnd(s)| <= |s| && TrimEnd(s) == s[..|TrimEnd(s)|]
    ensures AllWhite(s[|TrimEnd(s)|..])
  {
    if s != [] && IsWhite(s[|s| - 1]) {
      var r := TrimEnd(s);
      var init := s[..|s| - 1];
      TrimEndCut(init);
      assert init[..|r|] == s[..|r|];
      assert s[|r|..] == init[|r|..] + [s[|s| - 1]];
    }
  }

  /** `String.trim()`. */
  function Trim(s: string): (r: string)
    ensures Clean(r)
  {
    TrimEndCut(TrimStart(s));
    TrimEnd(TrimStart(s))
  }

  lemma {:induction false} TrimStartOf(w: string, t: string)
    requires AllWhite(w) && (t == [] || !IsWhite(t[0]))
    ensures TrimStart(w + t) == t
  {
    if w != [] {
      assert (w + t)[1..] == w[1..] + t;
      TrimStartOf(w[1..], t);
    }
  }

  lemma {:induction false} TrimEndOf(t: string, w: string)
    requires AllWhite(w) && (t == [] || !IsWhite(t[|t| - 1]))
    ensures TrimEnd(t + w) == t
  {
    if w != [] {
      assert (t + w)[..|t + w| - 1] == t + w[..|w| - 1];
      TrimEndOf(t, w[..|w| - 1]);
    }
  }

  /** Trimming removes exactly the white margins around a clean core. */
  lemma TrimOf(w1: string, m: string, w2: string)
    requires AllWhite(w1) && AllWhite(w2) && Clean(m)
    ensures Trim(w1 + m + w2) == m
  {
    if m == [] {
      assert w1 + m + w2 == (w1 + w2) + [];
      TrimStartOf(w1 + w2, []);
    } else {
      assert w1 + m + w2 == w1 + (m + w2);
      TrimStartOf(w1, m + w2);
      TrimEndOf(m, w2);
    }
  }

  /** Every string is its trimmed core between two white margins. */
  lemma TrimSplits(s: string) returns (w1: string, w2: string)
    ensures AllWhite(w1) && AllWhite(w2) && s == w1 + Trim(s) + w2
  {
    var t := TrimStart(s);
    TrimStartCut(s);
    TrimEndCut(t);
    w1 := s[..|s| - |t|];
    w2 := t[|Trim(s)|..];
    assert s == w1 + t;
    assert t == Trim(s) + w2;
  }

  // ---------------------------------------------------------------- case

  /** `Character.toLowerCase` restricted to ASCII letters. */
  function LowerChar(c: char): char {
    if 'A' <= c <= 'Z' then (c as int + 32) as char else c
  }

  /** `String.toLowerCase()`, ASCII letters only. */
  function Lower(s: string): string {
    seq(|s|, i requires 0 <= i < |s| => LowerChar(s[i]))
  }

  predicate IsLowerCase(s: string) { forall i :: 0 <= i < |s| ==> !('A' <= s[i] <= 'Z') }

  // ---------------------------------------------------------------- search

  predicate OccursAt(s: string, pat: string, j: int) {
    0 <= j && j + |pat| <= |s| && s[j..j + |pat|] == pat
  }

  /** `s.indexOf(pat)`: the first position at which `pat` occurs, if any. */
  function IndexOf(s: string, pat: string): (r: Option<nat>)
    ensures r.Some? ==> r.value + |pat| <= |s|
  {
    if |s| < |pat| then None
    else if s[..|pat|] == pat then Some(0)
    else
      var rest := IndexOf(s[1..], pat);
      if rest.None? then None else Some(rest.value + 1)
  }

  /** `indexOf` finds an occurrence, and the first one; when it finds none there is none. */
  lemma {:induction false} IndexOfSpec(s: string, pat: string)
    ensures IndexOf(s, pat).Some? ==> OccursAt(s, pat, IndexOf(s, pat).value)
    ensures IndexOf(s, pat).Some? ==> forall j :: 0 <= j < IndexOf(s, pat).value ==> !OccursAt(s, pat, j)
    ensures IndexOf(s, pat).None? ==> forall j :: !OccursAt(s, pat, j)
  {
    if |s| < |pat| {
    } else if s[..|pat|] == pat {
      assert s[0..|pat|] == s[..|pat|];
    } else {
      IndexOfSpec(s[1..], pat);
      assert s[0..|pat|] == s[..|pat|];
      assert !OccursAt(s, pat, 0);
      forall j | 1 <= j
        ensures OccursAt(s, pat, j) <==> OccursAt(s[1..], pat, j - 1)
      {
        OccursShift(s, pat, j - 1);
      }
    }
  }

  /** A string that does not contain `pat` has it at no position. */
  lemma Absent(s: string, pat: string, j: int)
    requires !Contains(s, pat)
    ensures !OccursAt(s, pat, j)
  {
    IndexOfSpec(s, pat);
  }

  /** Where `pat` occurs nowhere, `indexOf` finds nothing. */
  lemma NoOccurrence(s: string, pat: string)
    requires forall j :: !OccursAt(s, pat, j)
    ensures IndexOf(s, pat) == None
  {
    IndexOfSpec(s, pat);
  }

  lemma OccursShift(s: string, pat: string, j: nat)
    requires s != []
    ensures OccursAt(s[1..], pat, j) <==> OccursAt(s, pat, j + 1)
  {
    if j + 1 + |pat| <= |s| {
      assert s[1..][j..j + |pat|] == s[j + 1..j + 1 + |pat|];
    }
  }

  /** The first occurrence is where the pattern occurs and nowhere earlier. */
  lemma IndexOfIs(s: string, pat: string, k: nat)
    requires OccursAt(s, pat, k)
    requires forall j :: 0 <= j < k ==> !OccursAt(s, pat, j)
    ensures IndexOf(s, pat) == Some(k)
  {
    IndexOfSpec(s, pat);
  }

  /** `s.contains(pat)`. */
  predicate Contains(s: string, pat: string) { IndexOf(s, pat).Some? }

  lemma ContainsAt(s: string, pat: string, j: int)
    requires OccursAt(s, pat, j)
    ensures Contains(s, pat)
  {
    IndexOfSpec(s, pat);
  }

  /** `s.split(pat, 2)` for a literal delimiter: cut at the first occurrence only. */
  function SplitOnce(s: string, pat: string): (parts: seq<string>)
    ensures |parts| == if Contains(s, pat) then 2 else 1
  {
    match IndexOf(s, pat)
    case None => [s]
    case Some(k) => [s[..k], s[k + |pat|..]]
  }

  /** The pieces between successive leftmost non-overlapping occurrences of `pat`. */
  function Pieces(s: string, pat: string): (parts: seq<string>)
    requires pat != []
    ensures |parts| >= 1
    decreases |s|
  {
    match IndexOf(s, pat)
    case None => [s]
    case Some(k) => [s[..k]] + Pieces(s[k + |pat|..], pat)
  }

  function DropTrailingEmpty(parts: seq<string>): (r: seq<string>)
    ensures |r| <= |parts| && r == parts[..|r|]
    ensures forall i | |r| <= i < |parts| :: parts[i] == ""
    ensures r != [] ==> r[|r| - 1] != ""
  {
    if parts != [] && parts[|parts| - 1] == "" then DropTrailingEmpty(parts[..|parts| - 1]) else parts
  }

  /**
   * `s.split(pat)` (limit 0) for a literal delimiter: all pieces, then the
   * trailing empty ones dropped; with no occurrence at all, just `[s]`.
   */
  function Split(s: string, pat: string): seq<string>
    requires pat != []
  {
    if Contains(s, pat) then DropTrailingEmpty(Pieces(s, pat)) else [s]
  }

  // ---------------------------------------------------------------- digits

  predicate IsDigit(c: char) { '0' <= c <= '9' }

  predicate AllDigits(s: string) { forall i :: 0 <= i < |s| ==> IsDigit(s[i]) }

  function DigitChar(d: nat): (c: char)
    requires d < 10
    ensures IsDigit(c)
  {
    ('0' as int + d) as char
  }

  /** Decimal value of a string of digits; leading zeros allowed. */
  function ValueOf(s: string): nat
    requires AllDigits(s)
  {
    if s == [] then 0 else ValueOf(s[..|s| - 1]) * 10 + (s[|s| - 1] as int - '0' as int)
  }

  function Pow10(n: nat): nat {
    if n == 0 then 1 else 10 * Pow10(n - 1)
  }

  /** `n` written with exactly `width` digits, zero-padded on the left. */
  function Digits(n: nat, width: nat): (r: string)
    requires n < Pow10(width)
    ensures |r| == width && AllDigits(r) && ValueOf(r) == n
  {
    if width == 0 then []
    else
      var r := Digits(n / 10, width - 1) + [DigitChar(n % 10)];
      assert r[..|r| - 1] == Digits(n / 10, width - 1);
      r
  }

  /** A string of digits is the zero-padded text of its own value. */
  lemma {:induction false} DigitsOfValue(s: string)
    requires AllDigits(s)
    ensures ValueOf(s) < Pow10(|s|) && Digits(ValueOf(s), |s|) == s
  {
    if s != [] {
      var init, c := s[..|s| - 1], s[|s| - 1];
      DigitsOfValue(init);
      var v := c as int - '0' as int;
      assert ValueOf(s) / 10 == ValueOf(init) && ValueOf(s) % 10 == v;
      assert DigitChar(v) == c;
      assert s == init + [c];
    }
  }

  /** Reading digits is positional: the digits of `a` are worth `10^|b|` times more. */
  lemma {:induction false} ValueOfConcat(a: string, b: string)
    requires AllDigits(a) && AllDigits(b)
    ensures AllDigits(a + b) && ValueOf(a + b) == ValueOf(a) * Pow10(|b|) + ValueOf(b)
  {
    if b == [] {
      assert a + b == a;
    } else {
      var init, last := b[..|b| - 1], b[|b| - 1] as int - '0' as int;
      ValueOfConcat(a, init);
      assert (a + b)[..|a + b| - 1] == a + init;
      assert (a + b)[|a + b| - 1] == b[|b| - 1];
      assert ValueOf(a + b) == ValueOf(a + init) * 10 + last;
      assert ValueOf(b) == ValueOf(init) * 10 + last;
      ShiftDigit(ValueOf(a), Pow10(|init|), ValueOf(init), last);
    }
  }

  lemma ShiftDigit(x: nat, p: nat, y: nat, d: int)
    ensures (x * p + y) * 10 + d == x * (10 * p) + (y * 10 + d)
  {
  }

  predicate AllZeros(s: string) { forall i :: 0 <= i < |s| ==> s[i] == '0' }

  /** Leading zeros do not change the value of a digit string. */
  lemma {:induction false} LeadingZeros(zeros: string, s: string)
    requires AllZeros(zeros) && AllDigits(s)
    ensures AllDigits(zeros + s) && ValueOf(zeros + s) == ValueOf(s)
  {
    assert AllDigits(zeros);
    if zeros != [] {
      LeadingZeros(zeros[..|zeros| - 1], []);
      assert zeros[..|zeros| - 1] + [] == zeros[..|zeros| - 1];
      assert ValueOf(zeros) == ValueOf(zeros[..|zeros| - 1]) * 10;
      assert ValueOf(zeros[..|zeros| - 1]) == ValueOf([]);
    }
    ValueOfConcat(zeros, s);
  }

  lemma {:induction false} Pow10Monotone(a: nat, b: nat)
    requires a <= b
    ensures Pow10(a) <= Pow10(b)
    decreases b
  {
    if a < b {
      Pow10Monotone(a, b - 1);
    }
  }

  lemma Pow10Order(a: nat, b: nat)
    requires Pow10(a) < Pow10(b)
    ensures a < b
  {
    if b <= a {
      Pow10Monotone(b, a);
    }
  }

  /** A digit string that does not start with `0` is worth at least `10^(|s| - 1)`. */
  lemma LeadingDigitBound(s: string)
    requires s != [] && AllDigits(s) && s[0] != '0'
    ensures Pow10(|s| - 1) <= ValueOf(s)
  {
    assert s == [s[0]] + s[1..];
    ValueOfConcat([s[0]], s[1..]);
    assert ValueOf([s[0]]) >= 1 by {
      assert [s[0]][..0] == [];
    }
  }

  /**
   * `Integer.toString` inverts the reading of digit text that has no leading
   * zero: such text is the only way it writes its value.
   */
  lemma CanonicalDigits(s: string)
    requires s != [] && AllDigits(s) && (|s| == 1 || s[0] != '0')
    ensures NatToString(ValueOf(s)) == s
  {
    var v := ValueOf(s);
    var r := NatToString(v);
    DigitsOfValue(s);
    DigitsOfValue(r);
    if |s| > 1 {
      LeadingDigitBound(s);
      Pow10Monotone(1, |s| - 1);
      LeadingDigitBound(r);
    }
    assert |r| == |s|;
  }

  /** `Integer.toString(n)` for `n >= 0`: no leading zero. */
  function NatToString(n: nat): (r: string)
    ensures r != [] && AllDigits(r) && ValueOf(r) == n
    ensures |r| > 1 ==> r[0] != '0'
    ensures n < 10 ==> |r| == 1
    ensures 10 <= n < 100 ==> |r| == 2
  {
    if n < 10 then [DigitChar(n)]
    else
      var r := NatToString(n / 10) + [DigitChar(n % 10)];
      assert r[..|r| - 1] == NatToString(n / 10);
      r
  }
}
