/** The string operations the viewer uses: the regular-expression substitution that keeps only the
    letters `A`-`Z`, and decimal formatting of integers. */
module Text {

  predicate IsUpper(c: char) {
    'A' <= c <= 'Z'
  }

  /** `re.sub('[^A-Z]', '', s)`: drop every character outside `A`-`Z`, keep the rest in order. */
  function UpperLetters(s: string): (r: string)
    ensures |r| <= |s|
    ensures forall i :: 0 <= i < |r| ==> IsUpper(r[i])
    ensures forall i :: 0 <= i < |r| ==> r[i] in s
  {
    if |s| == 0 then ""
    else (if IsUpper(s[0]) then [s[0]] else "") + UpperLetters(s[1..])
  }

  /** The substitution distributes over concatenation: it works character by character. */
  lemma {:induction false} UpperLettersAppend(a: string, b: string)
    ensures UpperLetters(a + b) == UpperLetters(a) + UpperLetters(b)
  {
    if |a| > 0 {
      assert (a + b)[1..] == a[1..] + b;
      UpperLettersAppend(a[1..], b);
    } else {
      assert a + b == b;
    }
  }

  /** A name leaves the substitution unchanged exactly when it is made of the letters `A`-`Z` only. */
  lemma {:induction false} UpperLettersFixpoint(s: string)
    ensures UpperLetters(s) == s <==> forall i :: 0 <= i < |s| ==> IsUpper(s[i])
  {
    if |s| > 0 {
      UpperLettersFixpoint(s[1..]);
      if !IsUpper(s[0]) {
        assert |UpperLetters(s)| <= |s[1..]| < |s|;
      }
      if forall i :: 0 <= i < |s| ==> IsUpper(s[i]) {
        assert forall i :: 0 <= i < |s[1..]| ==> IsUpper(s[1..][i]) by {
          forall i | 0 <= i < |s[1..]| ensures IsUpper(s[1..][i]) {
            assert s[1..][i] == s[i + 1];
          }
        }
      }
      if UpperLetters(s) == s {
        assert IsUpper(s[0]);
        assert UpperLetters(s[1..]) == s[1..];
      }
    }
  }

  /** Applying the substitution twice is applying it once. */
  lemma UpperLettersIdempotent(s: string)
    ensures UpperLetters(UpperLetters(s)) == UpperLetters(s)
  {
    UpperLettersFixpoint(UpperLetters(s));
  }

  // ---------------------------------------------------------------------------------------------
  // Decimal formatting

  predicate IsDigit(c: char) {
    '0' <= c <= '9'
  }

  function DigitChar(d: nat): (c: char)
    requires d < 10
    ensures IsDigit(c)
  {
    (48 + d) as char
  }

  function DigitValue(c: char): (d: nat)
    requires IsDigit(c)
    ensures d < 10
  {
    (c as int - 48) as nat
  }

  /** Python's `f'{n}'` / `'%d' % n` for a non-negative integer: its digits, most significant first,
      with no leading zero. */
  function Decimal(n: nat): (r: string)
    ensures |r| > 0
    ensures forall i :: 0 <= i < |r| ==> IsDigit(r[i])
    ensures r[0] == '0' ==> n == 0
    decreases n
  {
    if n < 10 then [DigitChar(n)] else Decimal(n / 10) + [DigitChar(n % 10)]
  }

  /** The number a string of digits denotes, `int(s)`. */
  function DigitsValue(s: string): nat
    requires forall i :: 0 <= i < |s| ==> IsDigit(s[i])
  {
    if |s| == 0 then 0 else DigitsValue(s[..|s| - 1]) * 10 + DigitValue(s[|s| - 1])
  }

  /** Reading back the formatted digits gives the number: `int(f'{n}') == n`. */
  lemma {:induction false} DecimalRoundTrip(n: nat)
    ensures DigitsValue(Decimal(n)) == n
    decreases n
  {
    var r := Decimal(n);
    if n >= 10 {
      DecimalRoundTrip(n / 10);
      assert r[..|r| - 1] == Decimal(n / 10);
    }
  }

  /** Distinct numbers format to distinct strings. */
  lemma DecimalInjective(m: nat, n: nat)
    requires Decimal(m) == Decimal(n)
    ensures m == n
  {
    DecimalRoundTrip(m);
    DecimalRoundTrip(n);
  }

  /** `'%d' % k` for any integer. */
  function IntText(k: int): string {
    if k < 0 then "-" + Decimal(-k) else Decimal(k)
  }
}
