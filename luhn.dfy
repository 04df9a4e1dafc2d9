/**
 * The Luhn mod-10 check used to sanity-check card numbers (`luhn_check` in
 * main.py). The reference behaviour is the textbook formulation of
 * ISO/IEC 7812-1 Annex B: counting from the rightmost (check) digit, every
 * second digit is doubled, doubled values above 9 lose 9, and the number is
 * valid when the total is a multiple of 10. The implementation walks the
 * digits left to right instead, choosing the doubled positions by the parity
 * of the digit count; `LuhnCheck` is proved to agree with the reference.
 */
module Luhn {

  /** A decimal digit value. */
  type Digit = d: nat | d < 10

  /** The fewest digits a card number may have. */
  const MIN_DIGITS := 12

  /** The characters kept by the digit filter (ASCII decimal digits). */
  predicate IsDigit(c: char) {
    '0' <= c <= '9'
  }

  function DigitValue(c: char): (d: Digit)
    requires IsDigit(c)
    ensures d as int == c as int - '0' as int
  {
    (c as int - '0' as int) as nat
  }

  /** The digit values of `s` in order, every other character dropped. */
  function Digits(s: string): (ds: seq<Digit>)
    ensures |ds| <= |s|
  {
    if s == [] then []
    else if IsDigit(s[0]) then [DigitValue(s[0])] + Digits(s[1..])
    else Digits(s[1..])
  }

  /** The characters of `s` that are digits, in order. */
  function StripNonDigits(s: string): (t: string)
    ensures |t| <= |s|
    ensures forall i :: 0 <= i < |t| ==> IsDigit(t[i])
  {
    if s == [] then []
    else if IsDigit(s[0]) then [s[0]] + StripNonDigits(s[1..])
    else StripNonDigits(s[1..])
  }

  /**
   * The value a digit contributes to the sum: itself, or, when doubled, the
   * sum of the decimal digits of its double.
   */
  function Transform(d: Digit, doubled: bool): (r: nat)
    ensures r <= 9
    ensures !doubled ==> r == d
    ensures doubled && 2 * d > 9 ==> 1 <= r
  {
    if doubled then
      if 2 * d > 9 then 2 * d - 9 else 2 * d
    else d
  }

  /**
   * Whether the left-to-right loop doubles index `i` of `n` digits. It does
   * exactly when the digit's offset from the check digit is odd.
   */
  function Doubled(n: nat, i: nat): (b: bool)
    requires i < n
    ensures b <==> (n - 1 - i) % 2 == 1
  {
    i % 2 == n % 2
  }

  /**
   * Textbook right-to-left Luhn sum: the last digit is doubled iff
   * `doubleLast`, and the doubling alternates from there leftwards.
   */
  function RightSum(ds: seq<Digit>, doubleLast: bool): nat
    decreases |ds|
  {
    if ds == [] then 0
    else RightSum(ds[..|ds| - 1], !doubleLast) + Transform(ds[|ds| - 1], doubleLast)
  }

  /** The standard Luhn sum: the check digit itself is not doubled. */
  function LuhnSum(ds: seq<Digit>): nat {
    RightSum(ds, false)
  }

  /** Reference validity: enough digits, and the standard sum is 0 mod 10. */
  predicate IsValid(s: string) {
    |Digits(s)| >= MIN_DIGITS && LuhnSum(Digits(s)) % 10 == 0
  }

  /** The checksum the loop has accumulated after visiting `ds[..i]`. */
  function LoopSum(ds: seq<Digit>, i: nat): nat
    requires i <= |ds|
  {
    if i == 0 then 0
    else LoopSum(ds, i - 1) + Transform(ds[i - 1], Doubled(|ds|, i - 1))
  }

  /**
   * The left-to-right loop over a prefix computes the right-to-left sum of
   * that prefix, with the prefix's last digit doubled iff the loop doubles it.
   */
  lemma {:induction false} LoopSumIsRightSum(ds: seq<Digit>, i: nat)
    requires i <= |ds|
    ensures LoopSum(ds, i) == RightSum(ds[..i], i % 2 != |ds| % 2)
  {
    if i > 0 {
      LoopSumIsRightSum(ds, i - 1);
      assert ds[..i][..i - 1] == ds[..i - 1];
    }
  }

  /** Over all the digits, the loop's checksum equals the standard Luhn sum. */
  lemma LoopMatchesTextbook(ds: seq<Digit>)
    ensures LoopSum(ds, |ds|) == LuhnSum(ds)
  {
    LoopSumIsRightSum(ds, |ds|);
    assert ds[..|ds|] == ds;
  }

  /** `luhn_check`: filter the digits, reject short input, run the checksum loop. */
  method LuhnCheck(cardNumber: string) returns (ok: bool)
    ensures ok == IsValid(cardNumber)
    ensures |Digits(cardNumber)| < MIN_DIGITS ==> !ok
    ensures |Digits(cardNumber)| >= MIN_DIGITS ==>
              (ok <==> LoopSum(Digits(cardNumber), |Digits(cardNumber)|) % 10 == 0)
  {
    var digits := Digits(cardNumber);
    if |digits| < MIN_DIGITS {
      return false;
    }
    var checksum := 0;
    var parity := |digits| % 2;
    for i := 0 to |digits|
      invariant checksum == LoopSum(digits, i)
    {
      var d: int := digits[i];
      if i % 2 == parity {
        d := d * 2;
        if d > 9 {
          d := d - 9;
        }
      }
      checksum := checksum + d;
    }
    LoopMatchesTextbook(digits);
    ok := checksum % 10 == 0;
  }

  // ---------------------------------------------------------------------
  // Non-digit characters are ignored

  lemma {:induction false} DigitsConcat(a: string, b: string)
    ensures Digits(a + b) == Digits(a) + Digits(b)
  {
    if a == [] {
      assert a + b == b;
    } else {
      assert (a + b)[0] == a[0];
      assert (a + b)[1..] == a[1..] + b;
      DigitsConcat(a[1..], b);
    }
  }

  /** A string made of digits only is mapped character by character. */
  lemma {:induction false} DigitsOfDigitString(s: string)
    requires forall i :: 0 <= i < |s| ==> IsDigit(s[i])
    ensures |Digits(s)| == |s|
    ensures forall i :: 0 <= i < |s| ==> Digits(s)[i] == DigitValue(s[i])
  {
    if s != [] {
      DigitsOfDigitString(s[1..]);
    }
  }

  /** Only the digit characters of a string matter to the digit filter. */
  lemma {:induction false} DigitsOfStripped(s: string)
    ensures StripNonDigits(s) == s ==> forall i :: 0 <= i < |s| ==> IsDigit(s[i])
    ensures Digits(StripNonDigits(s)) == Digits(s)
  {
    if s != [] {
      DigitsOfStripped(s[1..]);
      if IsDigit(s[0]) {
        assert ([s[0]] + StripNonDigits(s[1..]))[1..] == StripNonDigits(s[1..]);
      }
    }
  }

  /** The verdict depends only on the subsequence of digit characters. */
  lemma StrippedVerdict(s: string)
    ensures IsValid(StripNonDigits(s)) == IsValid(s)
  {
    DigitsOfStripped(s);
  }

  /** Inserting (or, read backwards, removing) a non-digit leaves the digits alone. */
  lemma DigitsInsertNonDigit(s: string, k: nat, c: char)
    requires k <= |s| && !IsDigit(c)
    ensures Digits(s[..k] + [c] + s[k..]) == Digits(s)
  {
    var p, q := s[..k], s[k..];
    var pc := p + [c];
    assert Digits([c]) == [] by {
      assert [c][1..] == [];
    }
    DigitsConcat(p, [c]);
    assert Digits(pc) == Digits(p);
    DigitsConcat(pc, q);
    DigitsConcat(p, q);
    assert p + q == s;
  }

  /** Inserting or removing a non-digit never changes the verdict. */
  lemma InsertNonDigit(s: string, k: nat, c: char)
    requires k <= |s| && !IsDigit(c)
    ensures IsValid(s[..k] + [c] + s[k..]) == IsValid(s)
  {
    DigitsInsertNonDigit(s, k, c);
  }

  // ---------------------------------------------------------------------
  // Boundary: twelve or more zeros pass

  function Zeros(n: nat): (s: string)
    ensures |s| == n && forall i :: 0 <= i < n ==> s[i] == '0'
  {
    if n == 0 then [] else Zeros(n - 1) + ['0']
  }

  lemma {:induction false} DigitsOfZeros(n: nat)
    ensures Digits(Zeros(n)) == seq(n, _ => 0)
  {
    if n > 0 {
      DigitsOfZeros(n - 1);
      DigitsConcat(Zeros(n - 1), ['0']);
      assert seq(n - 1, _ => 0) + [0] == seq(n, _ => 0);
    }
  }

  lemma {:induction false} RightSumOfZeros(n: nat, b: bool)
    ensures RightSum(seq(n, _ => 0), b) == 0
  {
    if n > 0 {
      assert seq(n, _ => 0)[..n - 1] == seq(n - 1, _ => 0);
      RightSumOfZeros(n - 1, !b);
    }
  }

  /** Any string of twelve or more zeros is accepted: the minimum is weak. */
  lemma ZerosAccepted(n: nat)
    requires n >= MIN_DIGITS
    ensures IsValid(Zeros(n))
  {
    DigitsOfZeros(n);
    RightSumOfZeros(n, false);
  }

  // ---------------------------------------------------------------------
  // Any single-digit error is detected

  /** A doubled digit contributes the sum of the decimal digits of its double. */
  lemma TransformIsDigitSum(d: Digit)
    ensures Transform(d, true) == (2 * d) / 10 + (2 * d) % 10
  {
  }

  /** The contribution map is one-to-one on digits, doubled or not. */
  lemma TransformInjective(x: Digit, y: Digit, doubled: bool)
    requires Transform(x, doubled) == Transform(y, doubled)
    ensures x == y
  {
  }

  /**
   * Replacing the digit at index `k` changes the sum by exactly the change of
   * that digit's contribution; `f` says whether index `k` is doubled.
   */
  lemma {:induction false} RightSumUpdate(ds: seq<Digit>, k: nat, x: Digit, b: bool)
    requires k < |ds|
    ensures var f := if (|ds| - 1 - k) % 2 == 0 then b else !b;
            RightSum(ds[k := x], b) - RightSum(ds, b) == Transform(x, f) - Transform(ds[k], f)
    decreases |ds|
  {
    var n := |ds|;
    var es := ds[k := x];
    if k == n - 1 {
      assert es[..n - 1] == ds[..n - 1];
    } else {
      assert es[..n - 1] == ds[..n - 1][k := x];
      RightSumUpdate(ds[..n - 1], k, x, !b);
    }
  }

  lemma ShiftChangesResidue(a: int, diff: int)
    requires -9 <= diff <= 9 && diff != 0
    ensures a % 10 != (a + diff) % 10
  {
  }

  /** Changing one digit always changes the Luhn sum modulo 10. */
  lemma SingleDigitChangeDetected(ds: seq<Digit>, k: nat, x: Digit)
    requires k < |ds| && x != ds[k]
    ensures LuhnSum(ds) % 10 != LuhnSum(ds[k := x]) % 10
  {
    var f := (|ds| - 1 - k) % 2 != 0;
    RightSumUpdate(ds, k, x, false);
    if Transform(x, f) == Transform(ds[k], f) {
      TransformInjective(x, ds[k], f);
    }
    var diff := Transform(x, f) - Transform(ds[k], f);
    assert LuhnSum(ds[k := x]) == LuhnSum(ds) + diff;
    ShiftChangesResidue(LuhnSum(ds), diff);
  }

  /** Replacing one digit of an accepted number by another digit makes it rejected. */
  lemma SingleDigitAlteration(s: string, k: nat, c: char)
    requires k < |s| && IsDigit(s[k]) && IsDigit(c) && c != s[k]
    requires IsValid(s)
    ensures !IsValid(s[k := c])
  {
    var t := s[k := c];
    assert s == s[..k] + [s[k]] + s[k + 1..];
    assert t == s[..k] + [c] + s[k + 1..];
    DigitsConcat(s[..k] + [s[k]], s[k + 1..]);
    DigitsConcat(s[..k], [s[k]]);
    DigitsConcat(s[..k] + [c], s[k + 1..]);
    DigitsConcat(s[..k], [c]);
    var j := |Digits(s[..k])|;
    assert Digits(t) == Digits(s)[j := DigitValue(c)];
    SingleDigitChangeDetected(Digits(s), j, DigitValue(c));
  }

  // ---------------------------------------------------------------------
  // Worked examples

  lemma RightSumAppend(ds: seq<Digit>, x: Digit, b: bool)
    ensures RightSum(ds + [x], b) == RightSum(ds, !b) + Transform(x, b)
  {
    assert (ds + [x])[..|ds|] == ds;
  }

  /** `k` repetitions of the digit pair 4, 2. */
  function Repeat42(k: nat): (ds: seq<Digit>)
    ensures |ds| == 2 * k
  {
    if k == 0 then [] else Repeat42(k - 1) + [4, 2]
  }

  lemma {:induction false} LuhnSumOfRepeat42(k: nat)
    ensures LuhnSum(Repeat42(k)) == 10 * k
  {
    if k > 0 {
      var p := Repeat42(k - 1);
      LuhnSumOfRepeat42(k - 1);
      assert p + [4, 2] == (p + [4]) + [2];
      RightSumAppend(p + [4], 2, false);
      RightSumAppend(p, 4, true);
    }
  }

  /** `k` repetitions of the characters 4, 2. */
  function Repeat42Text(k: nat): (s: string)
    ensures |s| == 2 * k
  {
    if k == 0 then [] else Repeat42Text(k - 1) + "42"
  }

  lemma {:induction false} DigitsOfRepeat42Text(k: nat)
    ensures Digits(Repeat42Text(k)) == Repeat42(k)
  {
    if k > 0 {
      DigitsOfRepeat42Text(k - 1);
      DigitsConcat(Repeat42Text(k - 1), "42");
    }
  }

  /**
   * Any number made of six or more blocks 4, 2 passes; with eight blocks this
   * is the common test card number 4242424242424242.
   */
  lemma Repeat42Accepted(k: nat)
    requires 2 * k >= MIN_DIGITS
    ensures IsValid(Repeat42Text(k))
  {
    DigitsOfRepeat42Text(k);
    LuhnSumOfRepeat42(k);
  }

  lemma TestCardIsRepeat42()
    ensures Repeat42Text(8) == "4242424242424242"
  {
  }

  /** The common test card number 4242424242424242 passes. */
  lemma TestCardAccepted()
    ensures IsValid("4242424242424242")
  {
    Repeat42Accepted(8);
    TestCardIsRepeat42();
  }

  /** A sixteen-character number written in four dash-separated groups. */
  function Dashed(t: string): (f: string)
    requires |t| == 16
    ensures |f| == 19
  {
    t[..4] + "-" + t[4..8] + "-" + t[8..12] + "-" + t[12..]
  }

  /** Writing a sixteen-digit number in dashed groups does not change the verdict. */
  lemma DashedVerdict(t: string)
    requires |t| == 16
    ensures IsValid(Dashed(t)) == IsValid(t)
  {
    var s1 := t[..4] + "-" + t[4..];
    InsertNonDigit(t, 4, '-');
    assert s1[..9] == t[..4] + "-" + t[4..8];
    assert s1[9..] == t[8..];
    var s2 := s1[..9] + "-" + s1[9..];
    InsertNonDigit(s1, 9, '-');
    assert s2[..14] == t[..4] + "-" + t[4..8] + "-" + t[8..12];
    assert s2[14..] == t[12..];
    InsertNonDigit(s2, 14, '-');
    assert s2[..14] + "-" + s2[14..] == Dashed(t);
  }

  /** Altering the check digit of such a number makes it fail. */
  lemma AlteredRepeat42Rejected(k: nat)
    requires 2 * k >= MIN_DIGITS
    ensures !IsValid(Repeat42Text(k)[2 * k - 1 := '1'])
  {
    Repeat42Accepted(k);
    var s := Repeat42Text(k);
    assert s[2 * k - 1] == '2' by {
      assert s == Repeat42Text(k - 1) + "42";
    }
    SingleDigitAlteration(s, 2 * k - 1, '1');
  }

  /** Twelve zeros are accepted; eleven are too few. */
  lemma ZerosBoundary()
    ensures IsValid("000000000000")
    ensures !IsValid("00000000000")
  {
    ZerosAccepted(12);
    assert Zeros(12) == "000000000000";
    DigitsOfZeros(11);
    assert Zeros(11) == "00000000000";
  }
}
