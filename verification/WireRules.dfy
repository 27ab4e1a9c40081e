/**
 The limits of the integer decoders as numbers: where an exponent is replaced, where an integer is
 no longer written out, when Python raises, and how markers compare.
 */
module WireRules {
  import opened Wrappers
  import opened Decimals
  import opened WireNumbers

  // ---- exponents ----------------------------------------------------------------------

  /** An exponent of magnitude 10^18 or more is replaced by 2^62 in Go, by 10^19 in Python, and in Rust
      cut to the nearest 64-bit integer. */
  lemma ExponentRule(l: Lexeme)
    ensures var e := l.ExponentValue();
            && GoExponent(l) == (if e <= -1_000_000_000_000_000_000 then -4_611_686_018_427_387_904
                                 else if e >= 1_000_000_000_000_000_000 then 4_611_686_018_427_387_904 else e)
            && PythonExponent(l) == (if e <= -1_000_000_000_000_000_000 then -10_000_000_000_000_000_000
                                     else if e >= 1_000_000_000_000_000_000 then 10_000_000_000_000_000_000 else e)
            && RustExponent(l) == (if e <= -9_223_372_036_854_775_808 then -9_223_372_036_854_775_808
                                   else if e >= 9_223_372_036_854_775_807 then 9_223_372_036_854_775_807 else e)
  {
    hide Pow10, Value;
    PowEighteen();
    if Saturates(l) {
      SaturatedMagnitude(l);
    } else {
      UnsaturatedMagnitude(l);
    }
  }

  /** The decimal form has lost the lexeme: only the exponent of its last digit is left, and it is replaced
      by 10^19 from magnitude 10^18 on. */
  lemma PlacesRule(l: Lexeme)
    ensures var e := l.ExponentValue() - |l.fraction|;
            PythonPlaces(l, DecimalForm) ==
              if e <= -1_000_000_000_000_000_000 then 10_000_000_000_000_000_000
              else if e >= 1_000_000_000_000_000_000 then -10_000_000_000_000_000_000 else -e
  {
    hide Pow10;
    PowEighteen();
  }

  lemma AddressableRule(l: Lexeme)
    ensures Addressable(l) <==> |l.whole + l.fraction| < 2_305_843_009_213_693_952
  {
  }

  // ---- integers that are not written out ------------------------------------------------

  /** In Go and Python a number is answered by a marker of its sign exactly when nothing of it lies behind the
      point and it has more than 1024 digits; in Rust, when more than 1024 zeros would be appended. */
  lemma MarkerRule(l: Lexeme)
    requires -1_000_000_000_000_000_000 < l.ExponentValue() < 1_000_000_000_000_000_000
    ensures forall positive ::
              GoDecode(l) == Some(Overflow(positive)) <==>
              && positive == !l.negative && l.Significant() != []
              && Shift(l) >= 0 && |l.Significant()| + Shift(l) > 1024
    ensures forall positive ::
              RustDecode(l) == Some(Overflow(positive)) <==>
              positive == !l.negative && l.Significant() != [] && Shift(l) > 1024
  {
    hide Value;
    ExponentRule(l);
  }

  /** So the least magnitude a Go or Python marker stands for is 10^1024. */
  lemma MarkerMagnitude(l: Lexeme)
    requires l.Significant() != [] && Shift(l) >= 0
    ensures |l.Significant()| + Shift(l) > 1024 <==>
            l.Denotes() >= Pow10(1024) as real || l.Denotes() <= -(Pow10(1024) as real)
  {
    hide Scaled, Value, TrailingZeros, Pow10;
    HugeByLength(l, 1024);
    HugeIsScaled();
    DenotesSignificant(l);
    ScaledNegated(Value(l.Significant()), Shift(l));
    ScaledSign(Value(l.Significant()), Shift(l));
  }

  lemma ScaledSign(m: nat, k: int)
    ensures Scaled(m, k) >= 0.0
  {
    ScaledZero(k);
    ScaledMonotone(0, m, k);
  }

  // ---- Python's limit on texts ------------------------------------------------------------

  /** Python raises exactly with a limit on texts and a number that is not zero: when its exponent, under 10^18,
      is written with more digits than the limit, leading zeros included, and read as written; or when it is
      an integer of more digits than the limit that is written out, having places behind the point or at
      most 1024 digits. */
  lemma RaisesRule(l: Lexeme, form: PythonForm, limit: Option<nat>)
    requires Small(l)
    ensures PythonDecode(l, form, limit).Raises? <==>
            && limit.Some? && l.Significant() != []
            && (|| (&& form == LexemeForm && l.exponent.Exponent? && |l.exponent.digits| > limit.value
                    && -1_000_000_000_000_000_000 < l.ExponentValue() < 1_000_000_000_000_000_000)
                || (&& IsInteger(l.Denotes()) && |l.Significant()| + Shift(l) > limit.value
                    && (Shift(l) < 0 || |l.Significant()| + Shift(l) <= 1024)))
  {
    hide PythonDecode, IsInteger, Value;
    PythonDecodeIff(l, form, limit);
    if Saturates(l) {
      SaturatedMagnitude(l);
    } else {
      UnsaturatedMagnitude(l);
    }
  }

  // ---- comparison ---------------------------------------------------------------------------

  /** Markers stand beyond every written integer on their side, and compare as equal to themselves. */
  ghost predicate Before(x: ExactInteger, y: ExactInteger) {
    match (x, y)
    case (Exactly(m), Exactly(n)) => m < n
    case (Overflow(p), Overflow(q)) => !p && q
    case (Overflow(p), Exactly(_)) => !p
    case (Exactly(_), Overflow(q)) => q
  }

  lemma CompareRule(x: ExactInteger, y: ExactInteger)
    ensures Compare(x, y) == RustCompare(x, y) == (if Before(x, y) then -1 else if Before(y, x) then 1 else 0)
    ensures Compare(x, y) == 0 <==> x == y
  {
  }
}
