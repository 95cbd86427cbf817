/** The few Go string routines the rest of the model relies on: strconv.Itoa/Atoi,
    strings.LastIndex, strings.ReplaceAll, strings.Fields, strings.Join and the
    built-in string order. */
module Text {
  datatype Option<+T> = None | Some(value: T)

  // ----- decimal numbers -----

  function Digit(d: int): (c: char)
    requires 0 <= d < 10
    ensures c == "0123456789"[d]
  {
    '0' + d as char
  }

  predicate IsDigit(c: char) { '0' <= c <= '9' }

  function DigitValue(c: char): nat
    requires IsDigit(c)
  {
    c as int - '0' as int
  }

  function NatString(n: nat): (s: string)
    ensures s != "" && forall c <- s :: IsDigit(c)
  {
    if n < 10 then [Digit(n)] else NatString(n / 10) + [Digit(n % 10)]
  }

  /** fmt's %d and strconv.Itoa. */
  function IntString(n: int): string {
    if n < 0 then "-" + NatString(-n) else NatString(n)
  }

  function DigitsValue(s: string): nat
    requires forall c <- s :: IsDigit(c)
  {
    if s == "" then 0
    else 10 * DigitsValue(s[..|s| - 1]) + DigitValue(s[|s| - 1])
  }

  const MAX_INT64: int := 0x7FFF_FFFF_FFFF_FFFF
  const MIN_INT64: int := -0x8000_0000_0000_0000

  /** strconv.Atoi on a 64-bit platform: an optional sign, then one or more decimal
      digits, and a range error outside int64. */
  function Atoi(s: string): Option<int> {
    if s == "" then None
    else
      var negative := s[0] == '-';
      var digits := if s[0] == '-' || s[0] == '+' then s[1..] else s;
      if digits == "" || exists c <- digits :: !IsDigit(c) then None
      else
        var v: int := if negative then 0 - DigitsValue(digits) else DigitsValue(digits);
        if MIN_INT64 <= v <= MAX_INT64 then Some(v) else None
  }

  lemma {:induction false} DigitsValueOfNatString(n: nat)
    ensures DigitsValue(NatString(n)) == n
  {
    if n < 10 {
      assert [Digit(n)][..0] == "";
    } else {
      var front := NatString(n / 10);
      assert (front + [Digit(n % 10)])[..|front|] == front;
      DigitsValueOfNatString(n / 10);
    }
  }

  /** Printing an int64 and reading it back is the identity. */
  lemma AtoiOfIntString(n: int)
    requires MIN_INT64 <= n <= MAX_INT64
    ensures Atoi(IntString(n)) == Some(n)
  {
    var digits := NatString(if n < 0 then -n else n);
    DigitsValueOfNatString(if n < 0 then -n else n);
    assert IsDigit(digits[0]);
    if n < 0 {
      AtoiOfNegative(digits);
    }
  }

  lemma AtoiOfNegative(digits: string)
    requires digits != "" && forall c <- digits :: IsDigit(c)
    requires MIN_INT64 <= 0 - DigitsValue(digits) <= MAX_INT64
    ensures Atoi("-" + digits) == Some(0 - DigitsValue(digits))
  {
    assert ("-" + digits)[1..] == digits;
  }

  lemma IntStringInjective(m: int, n: int)
    requires IntString(m) == IntString(n)
    ensures m == n
  {
    assert IsDigit(NatString(if m < 0 then -m else m)[0]);
    assert IsDigit(NatString(if n < 0 then -n else n)[0]);
    assert (m < 0) == (IntString(m)[0] == '-') == (n < 0);
    if m < 0 {
      assert IntString(m)[1..] == NatString(-m) && IntString(n)[1..] == NatString(-n);
      DigitsValueOfNatString(-m);
      DigitsValueOfNatString(-n);
    } else {
      DigitsValueOfNatString(m);
      DigitsValueOfNatString(n);
    }
  }

  /** What strconv.Atoi accepts: digits with an optional sign in front. */
  ghost predicate Numeral(s: string) {
    exists sign, digits :: s == sign + digits && (sign == "" || sign == "+" || sign == "-") && digits != ""
                           && forall c <- digits :: '0' <= c <= '9'
  }

  /** Reading succeeds for numerals only, and gives a 64-bit number. */
  lemma AtoiReads(s: string)
    ensures Atoi(s).Some? ==> Numeral(s) && -0x8000_0000_0000_0000 <= Atoi(s).value <= 0x7FFF_FFFF_FFFF_FFFF
  {
    if Atoi(s).Some? {
      var sign := if s[0] == '-' || s[0] == '+' then s[..1] else "";
      var digits := s[|sign|..];
      assert s == sign + digits && forall c <- digits :: IsDigit(c);
    }
  }

  predicate Zeros(s: string) { forall c <- s :: c == '0' }

  lemma {:induction false} LeadingZeros(zeros: string, digits: string)
    requires Zeros(zeros) && forall c <- digits :: IsDigit(c)
    ensures forall c <- zeros + digits :: IsDigit(c)
    ensures DigitsValue(zeros + digits) == DigitsValue(digits)
    decreases |zeros| + |digits|
  {
    var s, n := zeros + digits, |zeros| + |digits|;
    if digits != "" {
      assert s[..n - 1] == zeros + digits[..|digits| - 1] && s[n - 1] == digits[|digits| - 1];
      LeadingZeros(zeros, digits[..|digits| - 1]);
    } else if zeros != "" {
      var fewer := zeros[..n - 1];
      assert s == zeros && s[..n - 1] == fewer + "" && zeros[n - 1] in zeros;
      assert forall c <- fewer :: c in zeros;
      LeadingZeros(fewer, "");
    }
  }

  lemma AtoiOfDigits(digits: string)
    requires digits != "" && forall c <- digits :: IsDigit(c)
    requires DigitsValue(digits) <= MAX_INT64
    ensures Atoi(digits) == Some(DigitsValue(digits)) && Atoi("+" + digits) == Some(DigitsValue(digits))
  {
    assert ("+" + digits)[1..] == digits;
    assert digits[0] in digits;
  }

  /** A plus sign and leading zeros change nothing, a minus sign negates. */
  lemma AtoiOfNumeral(zeros: string, n: nat)
    requires Zeros(zeros)
    ensures n <= MAX_INT64 ==>
              Atoi(zeros + NatString(n)) == Some(n) && Atoi("+" + (zeros + NatString(n))) == Some(n)
    ensures n <= MAX_INT64 + 1 ==> Atoi("-" + (zeros + NatString(n))) == Some(0 - n as int)
  {
    LeadingZeros(zeros, NatString(n));
    DigitsValueOfNatString(n);
    if n <= MAX_INT64 {
      AtoiOfDigits(zeros + NatString(n));
    }
    if n <= MAX_INT64 + 1 {
      AtoiOfNegative(zeros + NatString(n));
    }
  }

  lemma IntStringChars(n: int)
    ensures IntString(n) != ""
    ensures forall c <- IntString(n) :: IsDigit(c) || c == '-'
  {
  }

  // ----- searching -----

  /** strings.LastIndex for a one-byte separator: the last position, or -1. */
  function LastIndex(s: string, c: char): (i: int)
    ensures -1 <= i < |s| && (i >= 0 ==> s[i] == c)
    ensures forall j :: i < j < |s| ==> s[j] != c
  {
    if s == "" then -1
    else if s[|s| - 1] == c then |s| - 1
    else LastIndex(s[..|s| - 1], c)
  }

  lemma {:induction false} LastIndexFinds(before: string, c: char, after: string)
    requires c !in after
    ensures LastIndex(before + [c] + after, c) == |before|
  {
    var s := before + [c] + after;
    if after != "" {
      assert s[..|s| - 1] == before + [c] + after[..|after| - 1];
      assert s[|s| - 1] == after[|after| - 1];
      LastIndexFinds(before, c, after[..|after| - 1]);
    }
  }

  /** strings.Contains. */
  predicate Contains(s: string, sub: string) {
    exists i :: 0 <= i <= |s| && sub <= s[i..]
  }

  /** A text contains another one exactly when it is that one between two others. */
  lemma ContainsExactly(s: string, sub: string)
    ensures Contains(s, sub) <==> exists a, b :: s == a + sub + b
  {
    if i :| 0 <= i <= |s| && sub <= s[i..] {
      assert s == s[..i] + sub + s[i + |sub|..];
    }
    if a, b :| s == a + sub + b {
      assert s[|a|..] == sub + b;
    }
  }

  /** Cutting at the first separator is unambiguous when the left parts are free of it. */
  lemma SplitAtFirst(a: string, x: string, b: string, y: string, c: char)
    requires c !in a && c !in b
    requires a + [c] + x == b + [c] + y
    ensures a == b && x == y
  {
    var s := a + [c] + x;
    assert s[|a|] == c && s[|b|] == c;
    assert forall i :: 0 <= i < |a| ==> s[i] == a[i];
    assert forall i :: 0 <= i < |b| ==> s[i] == b[i];
    assert s[..|a|] == a && s[..|b|] == b;
    assert s[|a| + 1..] == x && s[|b| + 1..] == y;
  }

  /** Cutting at the last separator is unambiguous when the right parts are free of it. */
  lemma SplitAtLast(a: string, x: string, b: string, y: string, c: char)
    requires c !in x && c !in y
    requires a + [c] + x == b + [c] + y
    ensures a == b && x == y
  {
    LastIndexFinds(a, c, x);
    LastIndexFinds(b, c, y);
    var s := a + [c] + x;
    assert s[..|a|] == a && s[..|b|] == b;
    assert s[|a| + 1..] == x && s[|b| + 1..] == y;
  }

  // ----- replacing -----

  /** strings.ReplaceAll for a non-empty pattern: leftmost, non-overlapping. */
  function ReplaceAll(s: string, pattern: string, value: string): string
    requires pattern != ""
    decreases |s|
  {
    if |s| < |pattern| then s
    else if pattern <= s then value + ReplaceAll(s[|pattern|..], pattern, value)
    else [s[0]] + ReplaceAll(s[1..], pattern, value)
  }

  // ----- fields -----

  /** unicode.IsSpace restricted to the Latin-1 range. */
  predicate IsSpace(c: char) {
    c == ' ' || '\t' <= c <= '\r' || c == '\U{0085}' || c == '\U{00A0}'
  }

  predicate NoSpace(s: string) { forall c <- s :: !IsSpace(c) }

  function WordLength(s: string): (n: nat)
    ensures n <= |s|
  {
    if s == "" || IsSpace(s[0]) then 0 else 1 + WordLength(s[1..])
  }

  /** strings.Fields: the maximal runs of non-space characters. */
  function Fields(s: string): seq<string>
    decreases |s|
  {
    if s == "" then []
    else if IsSpace(s[0]) then Fields(s[1..])
    else
      var n := 1 + WordLength(s[1..]);
      [s[..n]] + Fields(s[n..])
  }

  /** strings.Join. */
  function Join(parts: seq<string>, sep: string): string {
    if parts == [] then ""
    else if |parts| == 1 then parts[0]
    else parts[0] + sep + Join(parts[1..], sep)
  }

  lemma {:induction false} WordLengthBeforeSpace(a: string, sp: char, b: string)
    requires IsSpace(sp)
    ensures WordLength(a + [sp] + b) == WordLength(a)
  {
    if a != "" {
      assert (a + [sp] + b)[1..] == a[1..] + [sp] + b;
      WordLengthBeforeSpace(a[1..], sp, b);
    }
  }

  lemma {:induction false} FieldsAcrossSpace(a: string, sp: char, b: string)
    requires IsSpace(sp)
    ensures Fields(a + [sp] + b) == Fields(a) + Fields(b)
    decreases |a|
  {
    var s := a + [sp] + b;
    if a == "" {
      assert s[1..] == b;
    } else if IsSpace(a[0]) {
      assert s[1..] == a[1..] + [sp] + b;
      FieldsAcrossSpace(a[1..], sp, b);
    } else {
      assert s[1..] == a[1..] + [sp] + b;
      WordLengthBeforeSpace(a[1..], sp, b);
      var n := 1 + WordLength(a[1..]);
      assert s[..n] == a[..n] && s[n..] == a[n..] + [sp] + b;
      FieldsAcrossSpace(a[n..], sp, b);
    }
  }

  lemma {:induction false} WordLengthOfWord(w: string)
    requires NoSpace(w)
    ensures WordLength(w) == |w|
  {
    if w != "" {
      WordLengthOfWord(w[1..]);
    }
  }

  lemma FieldsOfWord(w: string)
    requires w != "" && NoSpace(w)
    ensures Fields(w) == [w]
  {
    WordLengthOfWord(w[1..]);
    assert w[..|w|] == w && w[|w|..] == "";
  }

  /** White space separates fields, and printed ASCII characters do not. */
  lemma FieldsBySpace(a: string, sp: char, b: string)
    requires sp in " \t\n\r" && a != "" && forall c <- a :: '!' <= c <= '~'
    ensures Fields(a + [sp] + b) == [a] + Fields(b)
  {
    FieldsAcrossSpace(a, sp, b);
    FieldsOfWord(a);
  }

  // ----- order -----

  /** Go's < on strings. */
  predicate Less(a: string, b: string) {
    b != "" && (a == "" || a[0] < b[0] || (a[0] == b[0] && Less(a[1..], b[1..])))
  }

  lemma {:induction false} LessTrichotomy(a: string, b: string)
    ensures Less(a, b) || a == b || Less(b, a)
    ensures !(Less(a, b) && Less(b, a))
  {
    if a != "" && b != "" {
      LessTrichotomy(a[1..], b[1..]);
      assert a == [a[0]] + a[1..] && b == [b[0]] + b[1..];
    }
  }

  lemma {:induction false} LessTransitive(a: string, b: string, c: string)
    requires Less(a, b) && Less(b, c)
    ensures Less(a, c)
  {
    if a != "" && a[0] == b[0] == c[0] {
      LessTransitive(a[1..], b[1..], c[1..]);
    }
  }
}
