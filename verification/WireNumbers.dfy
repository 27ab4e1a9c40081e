/**
 JSON number lexemes (section 6 of RFC 8259) and the two arithmetics the SDK runs on
 them without expanding exponents: exact integers with overflow markers, in the three
 languages the wire generator emits, and the canonical key used for numeric equality.
 */
module WireNumbers {
  import opened Wrappers
  import opened Decimals

  // ---- lexemes ----------------------------------------------------------------------

  datatype Sign = Unsigned | Plus | Minus

  /** `upper` tells `E` from `e`. */
  datatype Exponent = NoExponent | Exponent(upper: bool, sign: Sign, digits: Digits)

  /** The four groups the number pattern captures. */
  datatype Lexeme = Lexeme(negative: bool, whole: Digits, fraction: Digits, exponent: Exponent) {

    predicate WellFormed() {
      && |whole| > 0
      && (|whole| > 1 ==> whole[0] != '0')
      && (exponent.Exponent? ==> |exponent.digits| > 0)
    }

    function AllDigits(): Digits {
      whole + fraction
    }

    function Significant(): Digits {
      TrimLeft(AllDigits())
    }

    function ExponentValue(): int {
      match exponent
      case NoExponent => 0
      case Exponent(_, Minus, ds) => 0 - Value(ds)
      case Exponent(_, _, ds) => Value(ds)
    }

    function Signed(n: nat): int {
      if negative then 0 - n else n
    }

    /** The rational number the lexeme denotes. */
    function Denotes(): real {
      Scaled(Signed(Value(AllDigits())), ExponentValue() - |fraction|)
    }
  }

  ghost predicate IsInteger(x: real) {
    x == x.Floor as real
  }

  const MAX_MATERIALISED_DIGITS: nat := 1024

  /** The least magnitude an overflow marker may stand for. */
  function Huge(): nat {
    Pow10(MAX_MATERIALISED_DIGITS)
  }

  // ---- exact integers ---------------------------------------------------------------

  /** A materialised integer, or only the sign of one too long to write out. */
  datatype ExactInteger = Exactly(value: int) | Overflow(positive: bool)

  function Marker(l: Lexeme): ExactInteger {
    Overflow(!l.negative)
  }

  const TWO_60: int := 0x1000_0000_0000_0000
  const TWO_61: int := 0x2000_0000_0000_0000
  const TWO_62: int := 0x4000_0000_0000_0000
  const TWO_63: int := 0x8000_0000_0000_0000
  const TWO_64: int := 0x1_0000_0000_0000_0000

  function Int64(x: int): int {
    (x + TWO_63) % TWO_64 - TWO_63
  }

  lemma NoWrap(x: int)
    requires -TWO_63 <= x < TWO_63
    ensures Int64(x) == x
  {
  }

  /** Lexemes under 2^61 characters, so that lengths and their sums stay in 64 bits. */
  predicate Addressable(l: Lexeme) {
    |l.whole| + |l.fraction| < TWO_61
  }

  /** An exponent of more than 18 significant digits is replaced by a fixed one. */
  predicate Saturates(l: Lexeme) {
    l.exponent.Exponent? && |TrimLeft(l.exponent.digits)| > 18
  }

  predicate NegativeExponent(l: Lexeme) {
    l.exponent.Exponent? && l.exponent.sign == Minus
  }

  function GoExponent(l: Lexeme): int {
    if Saturates(l) then if NegativeExponent(l) then -TWO_62 else TWO_62 else l.ExponentValue()
  }

  function PythonExponent(l: Lexeme): int {
    if Saturates(l) then if NegativeExponent(l) then 0 - Pow10(19) else Pow10(19) else l.ExponentValue()
  }

  function RustExponent(l: Lexeme): int {
    var e := l.ExponentValue();
    if e < -TWO_63 then -TWO_63 else if e >= TWO_63 then TWO_63 - 1 else e
  }

  /** Integer part of significant digits once `places` of them lie behind the point. */
  function DropPlaces(l: Lexeme, places: nat): Option<ExactInteger> {
    var digits := l.Significant();
    if places > |digits| || !AllZero(digits[|digits| - places..]) then None
    else Some(Exactly(l.Signed(Value(digits[..|digits| - places]))))
  }

  function AppendZeros(l: Lexeme, zeros: nat): ExactInteger {
    Exactly(l.Signed(Value(l.Significant() + Zeros(zeros))))
  }

  function GoDecode(l: Lexeme): Option<ExactInteger> {
    DecodeWith(l, |l.fraction| - GoExponent(l), true)
  }

  /** How Python holds the number: as a decimal, whose exponent it knows, or as the text itself. */
  datatype PythonForm = DecimalForm | LexemeForm

  datatype PythonOutcome = Answer(result: Option<ExactInteger>) | Raises

  function PythonPlaces(l: Lexeme, form: PythonForm): int {
    match form
    case LexemeForm => |l.fraction| - PythonExponent(l)
    case DecimalForm =>
      if Shift(l) <= -TEN_18 then Pow10(19) else if Shift(l) >= TEN_18 then 0 - Pow10(19) else -Shift(l)
  }

  /** The interpreter converts no text of more than `limit` digits to an integer, if it has a limit. */
  predicate OverLimit(limit: Option<nat>, digits: int) {
    limit.Some? && digits > limit.value
  }

  /** The written exponent is converted whole, leading zeros included. */
  predicate ExponentOverLimit(l: Lexeme, form: PythonForm, limit: Option<nat>) {
    form.LexemeForm? && l.exponent.Exponent? && !Saturates(l) && OverLimit(limit, |l.exponent.digits|)
  }

  /** Digits handed to the integer constructor when this many places lie behind the point. */
  function ConvertedDigits(l: Lexeme, places: int): nat {
    var digits := l.Significant();
    if places <= 0 then if |digits| - places > MAX_MATERIALISED_DIGITS then 0 else |digits| - places
    else if places > |digits| || !AllZero(digits[|digits| - places..]) then 0
    else |digits| - places
  }

  function PythonDecode(l: Lexeme, form: PythonForm, limit: Option<nat>): PythonOutcome {
    if l.Significant() == [] then Answer(Some(Exactly(0)))
    else if ExponentOverLimit(l, form, limit) then Raises
    else if OverLimit(limit, ConvertedDigits(l, PythonPlaces(l, form))) then Raises
    else Answer(DecodeWith(l, PythonPlaces(l, form), true))
  }

  function RustDecode(l: Lexeme): Option<ExactInteger> {
    DecodeWith(l, |l.fraction| - RustExponent(l), false)
  }

  /** Only Go and Python count the digits already present against the limit. */
  function DecodeWith(l: Lexeme, decimalPlaces: int, countDigits: bool): Option<ExactInteger> {
    var digits := l.Significant();
    if digits == [] then Some(Exactly(0))
    else if decimalPlaces > 0 then DropPlaces(l, decimalPlaces)
    else
      var zeros := -decimalPlaces;
      if zeros > MAX_MATERIALISED_DIGITS || (countDigits && |digits| + zeros > MAX_MATERIALISED_DIGITS)
      then Some(Marker(l))
      else Some(AppendZeros(l, zeros))
  }

  /** The decoder's answer says exactly what the lexeme denotes. */
  ghost predicate Faithful(l: Lexeme, r: Option<ExactInteger>) {
    match r
    case None => !IsInteger(l.Denotes())
    case Some(Exactly(n)) => l.Denotes() == n as real
    case Some(Overflow(positive)) =>
      && IsInteger(l.Denotes())
      && (if positive then l.Denotes() >= Huge() as real else l.Denotes() <= -(Huge() as real))
  }

  // ---- what a lexeme denotes, read off its digits --------------------------------------

  function Shift(l: Lexeme): int {
    l.ExponentValue() - |l.fraction|
  }

  lemma DenotesSignificant(l: Lexeme)
    ensures l.Denotes() == Scaled(l.Signed(Value(l.Significant())), Shift(l))
  {
    ValueTrimmed(l.AllDigits());
  }

  lemma ScaledZero(k: int)
    ensures Scaled(0, k) == 0.0
  {
    ScaledShift(0, if k < 0 then k else 0, if k < 0 then -k else k);
  }

  lemma SignedProduct(l: Lexeme, a: nat, p: nat)
    ensures l.Signed(a * p) == l.Signed(a) * p
  {
  }

  /** With k places behind the point all zero, the value is the integer before them. */
  lemma PlacesDropped(l: Lexeme, places: nat)
    requires Shift(l) == 0 - places && places <= TrailingZeros(l.Significant())
    ensures var digits := l.Significant();
            l.Denotes() == l.Signed(Value(digits[..|digits| - places])) as real
  {
    var digits := l.Significant();
    var n := Value(digits[..|digits| - places]);
    DenotesSignificant(l);
    SplitTrailingZeros(digits, places);
    SignedProduct(l, n, Pow10(places));
    ScaledShift(l.Signed(n), 0 - places, places);
  }

  lemma ZerosAppended(l: Lexeme)
    requires Shift(l) >= 0
    ensures l.Denotes() == l.Signed(Value(l.Significant() + Zeros(Shift(l)))) as real
  {
    var digits, zeros := l.Significant(), Shift(l);
    DenotesSignificant(l);
    ValuePadded(digits, zeros);
    SignedProduct(l, Value(digits), Pow10(zeros));
    ScaledShift(l.Signed(Value(digits)), 0, zeros);
  }

  /** Integral exactly when every place behind the point is one of the trailing zeros. */
  lemma IntegralByTrailingZeros(l: Lexeme)
    requires l.Significant() != []
    ensures IsInteger(l.Denotes()) <==> -Shift(l) <= TrailingZeros(l.Significant())
  {
    if Shift(l) >= 0 {
      ZerosAppended(l);
    } else if -Shift(l) <= TrailingZeros(l.Significant()) {
      PlacesDropped(l, -Shift(l));
    } else if IsInteger(l.Denotes()) {
      IntegerHasTrailingZeros(l, l.Denotes().Floor);
    }
  }

  lemma IntegerHasTrailingZeros(l: Lexeme, n: int)
    requires l.Significant() != [] && Shift(l) < 0 && l.Denotes() == n as real
    ensures -Shift(l) <= TrailingZeros(l.Significant())
  {
    var digits, places := l.Significant(), -Shift(l);
    DenotesSignificant(l);
    ScaledCompare(l.Signed(Value(digits)), -places, n, 0);
    var q := NaturalQuotient(l, n, Value(digits), Pow10(places));
    DivisibleByPower(digits, places, q);
  }

  lemma NaturalQuotient(l: Lexeme, n: int, v: nat, p: nat) returns (q: nat)
    requires p >= 1 && l.Signed(v) == n * p
    ensures v == q * p
  {
    var signed := if l.negative then 0 - n else n;
    assert v == signed * p;
    assert signed >= 0 by {
      if signed < 0 {
        FactorSign(signed, p);
      }
    }
    q := signed;
  }

  lemma FactorSign(n: int, p: nat)
    requires n < 0 && p >= 1
    ensures n * p < 0
  {
  }

  /** Magnitude in powers of ten: digits plus shift. */
  lemma HugeByLength(l: Lexeme, limit: nat)
    requires l.Significant() != []
    ensures |l.Significant()| + Shift(l) > limit <==>
            Scaled(Value(l.Significant()), Shift(l)) >= Scaled(1, limit)
  {
    var digits, k := l.Significant(), Shift(l);
    ValueAtLeast(digits);
    ValueBelow(digits);
    if |digits| + k > limit {
      ScaledMonotone(Pow10(|digits| - 1), Value(digits), k);
      ScaledShift(1, k, |digits| - 1);
      ScaledPowers(limit, k + |digits| - 1);
    } else {
      ScaledMonotone(Value(digits) + 1, Pow10(|digits|), k);
      ScaledOrder(Value(digits), Value(digits) + 1, k);
      ScaledShift(1, k, |digits|);
      ScaledPowers(|digits| + k, limit);
    }
  }

  lemma ScaledMonotone(a: int, b: int, k: int)
    requires a <= b
    ensures Scaled(a, k) <= Scaled(b, k)
  {
    ScaledOrder(a, b, k);
  }

  lemma ScaledPowers(j: int, k: int)
    requires j <= k
    ensures Scaled(1, j) <= Scaled(1, k)
  {
    ScaledShift(1, j, k - j);
    ScaledMonotone(1, Pow10(k - j), j);
  }

  lemma {:induction false} ScaledNegated(m: int, k: int)
    ensures Scaled(-m, k) == -Scaled(m, k)
    decreases if k < 0 then -k else k
  {
    if k > 0 {
      ScaledNegated(m, k - 1);
    } else if k < 0 {
      ScaledNegated(m, k + 1);
    }
  }

  lemma HugeIsScaled()
    ensures Scaled(1, MAX_MATERIALISED_DIGITS) == Huge() as real
  {
    ScaledShift(1, 0, MAX_MATERIALISED_DIGITS);
  }

  lemma OverflowFaithful(l: Lexeme)
    requires l.Significant() != []
    ensures Faithful(l, Some(Marker(l))) <==>
            && -Shift(l) <= TrailingZeros(l.Significant())
            && |l.Significant()| + Shift(l) > MAX_MATERIALISED_DIGITS
  {
    hide Scaled, Value, TrailingZeros, Pow10;
    IntegralByTrailingZeros(l);
    HugeByLength(l, MAX_MATERIALISED_DIGITS);
    HugeIsScaled();
    DenotesSignificant(l);
    ScaledNegated(Value(l.Significant()), Shift(l));
  }

  // ---- decoding with the true exponent, or one at least as extreme ----------------------

  lemma DropPlacesFaithful(l: Lexeme)
    requires l.Significant() != [] && Shift(l) < 0
    ensures Faithful(l, DropPlaces(l, -Shift(l)))
  {
    IntegralByTrailingZeros(l);
    TrailingZerosMaximal(l.Significant(), -Shift(l));
    if -Shift(l) <= TrailingZeros(l.Significant()) {
      PlacesDropped(l, -Shift(l));
    }
  }

  lemma TrueExponentFaithful(l: Lexeme, countDigits: bool)
    ensures Faithful(l, DecodeWith(l, -Shift(l), countDigits))
  {
    if l.Significant() == [] {
      ZeroFaithful(l);
    } else if Shift(l) < 0 {
      DropPlacesFaithful(l);
    } else {
      ZerosAppended(l);
      OverflowFaithful(l);
    }
  }

  lemma SaturatedMagnitude(l: Lexeme)
    requires Saturates(l)
    ensures if NegativeExponent(l) then l.ExponentValue() <= -TEN_18 else l.ExponentValue() >= TEN_18
  {
    var ds := TrimLeft(l.exponent.digits);
    ValueTrimmed(l.exponent.digits);
    ValueAtLeast(ds);
    PowMonotone(18, |ds| - 1);
    PowEighteen();
  }

  lemma UnsaturatedMagnitude(l: Lexeme)
    requires !Saturates(l)
    ensures -TEN_18 < l.ExponentValue() < TEN_18
  {
    if l.exponent.Exponent? {
      var ds := TrimLeft(l.exponent.digits);
      ValueTrimmed(l.exponent.digits);
      ValueBelow(ds);
      PowMonotone(|ds|, 18);
    }
    PowEighteen();
  }

  const TEN_18: int := 1_000_000_000_000_000_000

  lemma PowEighteen()
    ensures Pow10(18) == TEN_18 && Pow10(19) == 10 * TEN_18
  {
    assert Pow10(6) == 1_000_000;
    PowSum(6, 6);
    PowSum(12, 6);
  }

  /** The saturated exponent still leads to the right answer. */
  predicate SaturationHarmless(l: Lexeme) {
    var digits := l.Significant();
    if NegativeExponent(l) then TrailingZeros(digits) < -Shift(l)
    else TrailingZeros(digits) >= -Shift(l) && |digits| + Shift(l) > MAX_MATERIALISED_DIGITS
  }

  predicate GoExact(l: Lexeme) {
    l.Significant() == [] || !Saturates(l) || SaturationHarmless(l)
  }

  /** When the Go decoder is exact, over every lexeme a 64-bit length can describe. */
  lemma GoDecodeExactIff(l: Lexeme)
    requires l.WellFormed() && Addressable(l)
    ensures Faithful(l, GoDecode(l)) <==> GoExact(l)
  {
    if l.Significant() == [] {
      ZeroFaithful(l);
    } else if !Saturates(l) {
      TrueExponentFaithful(l, true);
    } else if NegativeExponent(l) {
      SaturatedNegative(l);
    } else {
      SaturatedPositive(l);
    }
  }

  lemma ZeroFaithful(l: Lexeme)
    requires l.Significant() == []
    ensures Faithful(l, Some(Exactly(0)))
  {
    DenotesSignificant(l);
    ScaledZero(Shift(l));
  }

  lemma SaturatedNegative(l: Lexeme)
    requires Addressable(l) && l.Significant() != [] && Saturates(l) && NegativeExponent(l)
    ensures GoDecode(l) == None
    ensures Faithful(l, None) <==> SaturationHarmless(l)
  {
    IntegralByTrailingZeros(l);
  }

  lemma SaturatedPositive(l: Lexeme)
    requires Addressable(l) && l.Significant() != [] && Saturates(l) && !NegativeExponent(l)
    ensures GoDecode(l) == Some(Marker(l))
    ensures Faithful(l, Some(Marker(l))) <==> SaturationHarmless(l)
  {
    OverflowFaithful(l);
  }

  /** Under 10^18 digits saturation is always harmless. */
  lemma ShortSaturationHarmless(l: Lexeme)
    requires Saturates(l) && l.Significant() != [] && |l.AllDigits()| < TEN_18 - MAX_MATERIALISED_DIGITS
    ensures SaturationHarmless(l)
  {
    SaturatedMagnitude(l);
  }

  lemma GoDecodeExact(l: Lexeme)
    requires l.WellFormed() && |l.AllDigits()| < TEN_18 - MAX_MATERIALISED_DIGITS
    ensures Faithful(l, GoDecode(l))
  {
    GoDecodeExactIff(l);
    if Saturates(l) && l.Significant() != [] {
      ShortSaturationHarmless(l);
    }
  }

  /** The two saturation constants differ but never the answer, whenever Python gives one. */
  lemma GoAndPythonAgree(l: Lexeme, limit: Option<nat>)
    requires Addressable(l)
    ensures PythonDecode(l, LexemeForm, limit).Answer? ==>
              PythonDecode(l, LexemeForm, limit).result == GoDecode(l)
  {
    PowEighteen();
  }

  /** The Python decoder raises instead of answering on a number not zero whose written exponent is over
      the limit, or which is an integer of more digits than the limit that it writes out, because places
      lie behind the point or there are at most 1024 digits. */
  ghost predicate PythonRaises(l: Lexeme, form: PythonForm, limit: Option<nat>) {
    l.Significant() != [] &&
    (|| ExponentOverLimit(l, form, limit)
     || (&& IsInteger(l.Denotes()) && OverLimit(limit, |l.Significant()| + Shift(l))
         && (Shift(l) < 0 || |l.Significant()| + Shift(l) <= MAX_MATERIALISED_DIGITS)))
  }

  /** In either form it raises exactly then, and otherwise answers as Go does. */
  lemma PythonDecodeIff(l: Lexeme, form: PythonForm, limit: Option<nat>)
    requires Small(l)
    ensures PythonDecode(l, form, limit) == if PythonRaises(l, form, limit) then Raises else Answer(GoDecode(l))
  {
    hide DecodeWith, ConvertedDigits, IsInteger;
    if l.Significant() != [] {
      PlacesAlike(l, form);
      SamePlacesSameAnswer(l, PythonPlaces(l, form), -Shift(l));
      SamePlacesSameAnswer(l, |l.fraction| - GoExponent(l), -Shift(l));
      ConvertedAtShift(l);
    } else {
      ZeroDecodes(l);
    }
  }

  lemma ZeroDecodes(l: Lexeme)
    requires l.Significant() == []
    ensures GoDecode(l) == Some(Exactly(0))
  {
  }

  /** Equal, or both past the first digit, or both too many zeros to write out. */
  predicate AlikePlaces(l: Lexeme, p: int, q: int) {
    || p == q
    || (p > |l.Significant()| && q > |l.Significant()|)
    || (p + MAX_MATERIALISED_DIGITS < 0 && q + MAX_MATERIALISED_DIGITS < 0)
  }

  lemma SamePlacesSameAnswer(l: Lexeme, p: int, q: int)
    requires l.Significant() != [] && AlikePlaces(l, p, q)
    ensures DecodeWith(l, p, true) == DecodeWith(l, q, true) && ConvertedDigits(l, p) == ConvertedDigits(l, q)
  {
  }

  lemma PlacesAlike(l: Lexeme, form: PythonForm)
    requires Small(l) && l.Significant() != []
    ensures AlikePlaces(l, PythonPlaces(l, form), -Shift(l))
    ensures AlikePlaces(l, |l.fraction| - GoExponent(l), -Shift(l))
  {
    PowEighteen();
    if Saturates(l) {
      SaturatedMagnitude(l);
    }
  }

  /** At its true places a number is written out exactly when it is an integer, and not too long a one. */
  lemma ConvertedAtShift(l: Lexeme)
    requires l.Significant() != []
    ensures var length := |l.Significant()| + Shift(l);
            ConvertedDigits(l, -Shift(l)) ==
              if IsInteger(l.Denotes()) && (Shift(l) < 0 || length <= MAX_MATERIALISED_DIGITS) then length else 0
  {
    hide IsInteger;
    IntegralByTrailingZeros(l);
    if Shift(l) < 0 {
      TrailingZerosMaximal(l.Significant(), -Shift(l));
      if -Shift(l) <= TrailingZeros(l.Significant()) {
        SplitTrailingZeros(l.Significant(), -Shift(l));
      }
    }
  }

  /** Whatever Python answers is what the lexeme denotes. */
  lemma PythonDecodeExact(l: Lexeme, form: PythonForm, limit: Option<nat>)
    requires Small(l)
    ensures PythonDecode(l, form, limit).Answer? ==> Faithful(l, PythonDecode(l, form, limit).result)
  {
    PythonDecodeIff(l, form, limit);
    GoDecodeExact(l);
  }

  /** Rust saturates only beyond 64 bits, so it is exact at every addressable length. */
  lemma RustDecodeExact(l: Lexeme)
    requires l.WellFormed() && Addressable(l)
    ensures Faithful(l, RustDecode(l))
  {
    if l.Significant() == [] {
      ZeroFaithful(l);
    } else if RustExponent(l) == l.ExponentValue() {
      TrueExponentFaithful(l, false);
    } else if l.ExponentValue() < 0 {
      RustSaturatedNegative(l);
    } else {
      RustSaturatedPositive(l);
    }
  }

  lemma RustSaturatedNegative(l: Lexeme)
    requires Addressable(l) && l.Significant() != [] && l.ExponentValue() < -TWO_63
    ensures RustDecode(l) == None && Faithful(l, None)
  {
    IntegralByTrailingZeros(l);
  }

  lemma RustSaturatedPositive(l: Lexeme)
    requires Addressable(l) && l.Significant() != [] && l.ExponentValue() >= TWO_63
    ensures RustDecode(l) == Some(Marker(l)) && Faithful(l, Some(Marker(l)))
  {
    OverflowFaithful(l);
  }

  /** A one followed by 10^18 zeros, divided back by 10^(10^18): the integer one. */
  function LongOne(): Lexeme {
    Lexeme(false, PowerText(TEN_18), [], Exponent(false, Minus, PowerText(18)))
  }

  function PowerText(n: nat): (ds: Digits) {
    ['1'] + Zeros(n)
  }

  lemma ValueOfOne()
    ensures Value(['1']) == 1
  {
    assert ['1'][..0] == [];
  }

  lemma PowerTextValue(n: nat)
    ensures Value(PowerText(n)) == Pow10(n)
  {
    ValuePadded(['1'], n);
    ValueOfOne();
  }

  lemma PowerTextZeros(n: nat)
    ensures n <= TrailingZeros(PowerText(n))
  {
    var ds := PowerText(n);
    assert ds[|ds| - n..] == Zeros(n);
    TrailingZerosMaximal(ds, n);
  }

  lemma LongOneExponent()
    ensures LongOne().ExponentValue() == -TEN_18 && Saturates(LongOne())
  {
    PowerTextValue(18);
    PowEighteen();
    assert TrimLeft(PowerText(18)) == PowerText(18);
  }

  lemma LongOneDenotes()
    ensures LongOne().Significant() == PowerText(TEN_18)
    ensures LongOne().Denotes() == 1.0
  {
    var l := LongOne();
    assert l.AllDigits() == PowerText(TEN_18);
    LongOneExponent();
    PowerTextZeros(TEN_18);
    PlacesDropped(l, TEN_18);
    assert PowerText(TEN_18)[..1] == ['1'];
    ValueOfOne();
  }

  /** The Go decoder refuses an integer once the lexeme is long enough to saturate. */
  lemma GoRefusesALongInteger()
    ensures LongOne().WellFormed() && Addressable(LongOne())
    ensures LongOne().Denotes() == 1.0
    ensures GoDecode(LongOne()) == None
    ensures !Faithful(LongOne(), GoDecode(LongOne()))
  {
    LongOneDenotes();
    LongOneExponent();
    SaturatedNegative(LongOne());
  }

  // ---- comparison -------------------------------------------------------------------

  function Rank(x: ExactInteger): int {
    match x
    case Exactly(_) => 0
    case Overflow(positive) => if positive then 1 else -1
  }

  function Order(a: real, b: real): int {
    if a < b then -1 else if a == b then 0 else 1
  }

  function Compare(left: ExactInteger, right: ExactInteger): int {
    if Rank(left) != Rank(right) then if Rank(left) < Rank(right) then -1 else 1
    else if Rank(left) != 0 then 0
    else if left.value < right.value then -1
    else if left.value == right.value then 0
    else 1
  }

  function RustCompare(left: ExactInteger, right: ExactInteger): int {
    if left.Overflow? && left == right then 0
    else if left == Overflow(false) || right == Overflow(true) then -1
    else if left == Overflow(true) || right == Overflow(false) then 1
    else if left.value < right.value then -1
    else if left.value == right.value then 0
    else 1
  }

  ghost predicate Bounded(l: Lexeme) {
    -(Huge() as real) < l.Denotes() < Huge() as real
  }

  /** Comparing decoded lexemes is comparing the numbers, once one of them is below 10^1024. */
  lemma CompareFaithful(a: Lexeme, x: ExactInteger, b: Lexeme, y: ExactInteger)
    requires Faithful(a, Some(x)) && Faithful(b, Some(y)) && Bounded(b)
    ensures Compare(x, y) == RustCompare(x, y) == Order(a.Denotes(), b.Denotes())
    ensures Compare(y, x) == RustCompare(y, x) == Order(b.Denotes(), a.Denotes())
  {
    assert y.Exactly?;
  }

  const PLAIN := Lexeme(false, PowerText(MAX_MATERIALISED_DIGITS), [], NoExponent)
  const POINTED := Pointed(MAX_MATERIALISED_DIGITS)

  /** 10^n written with a point. */
  function Pointed(n: nat): Lexeme {
    Lexeme(false, PowerText(n), ['0'], NoExponent)
  }

  /** 10^1024 with and without a point: one number, two different decodings. */
  lemma HugeSpellingsDiffer()
    ensures PLAIN.WellFormed() && POINTED.WellFormed() && PLAIN.Denotes() == POINTED.Denotes()
    ensures GoDecode(PLAIN) == Some(Overflow(true)) && GoDecode(POINTED) == Some(Exactly(Huge()))
  {
    hide Scaled;
    PlainDenotes(MAX_MATERIALISED_DIGITS);
    PlainDecodes();
    hide GoDecode;
    PointedDecodes(MAX_MATERIALISED_DIGITS);
  }

  lemma PlainDecodes()
    ensures PLAIN.WellFormed() && GoDecode(PLAIN) == Some(Overflow(true))
  {
    assert PLAIN.AllDigits() == PowerText(MAX_MATERIALISED_DIGITS);
  }

  lemma PlainDenotes(n: nat)
    ensures Lexeme(false, PowerText(n), [], NoExponent).Denotes() == Scaled(Pow10(n), 0)
    ensures Lexeme(false, PowerText(n), ['0'], NoExponent).Denotes() == Scaled(Pow10(n), 0)
  {
    assert PowerText(n) + [] == PowerText(n);
    assert PowerText(n) + ['0'] == PowerText(n + 1);
    PowerTextValue(n);
    PowerTextValue(n + 1);
    ScaledStep(Pow10(n), -1);
  }

  lemma PointedDecodes(n: nat)
    ensures GoDecode(Pointed(n)) == Some(Exactly(Pow10(n)))
    ensures Pointed(n).Significant() == PowerText(n + 1)
  {
    var digits := PowerText(n + 1);
    assert Pointed(n).AllDigits() == digits;
    assert digits[|digits| - 1..] == ['0'];
    assert digits[..|digits| - 1] == PowerText(n);
    PowerTextValue(n);
  }

  // ---- bounds of an integer schema -----------------------------------------------------

  datatype Verdict = InRange | BelowMinimum | AboveMaximum

  /** What a 64-bit machine can be handed. */
  predicate Readable(l: Lexeme) {
    l.WellFormed() && Addressable(l)
  }

  function BoundsVerdict(value: Lexeme, minimum: Option<Lexeme>, maximum: Option<Lexeme>): Verdict {
    match GoDecode(value)
    case None => InRange
    case Some(number) =>
      if minimum.Some? && GoDecode(minimum.value).Some? && Compare(number, GoDecode(minimum.value).value) < 0
      then BelowMinimum
      else if maximum.Some? && GoDecode(maximum.value).Some? && Compare(number, GoDecode(maximum.value).value) > 0
      then AboveMaximum
      else InRange
  }

  /** The minimum / maximum part of schema validation; a non-integer value is not bounded, and a
      non-integer bound bounds nothing. */
  method CheckBounds(value: Lexeme, minimum: Option<Lexeme>, maximum: Option<Lexeme>) returns (v: Verdict)
    requires Readable(value)
    requires minimum.Some? ==> Readable(minimum.value)
    requires maximum.Some? ==> Readable(maximum.value)
    ensures v == BoundsVerdict(value, minimum, maximum)
  {
    var number := WireExactInteger(value);
    if number.None? {
      return InRange;
    }
    if minimum.Some? {
      var least := WireExactInteger(minimum.value);
      if least.Some? && Compare(number.value, least.value) < 0 {
        return BelowMinimum;
      }
    }
    if maximum.Some? {
      var most := WireExactInteger(maximum.value);
      if most.Some? && Compare(number.value, most.value) > 0 {
        return AboveMaximum;
      }
    }
    return InRange;
  }

  /** A bound the verdict speaks the truth about: decoded exactly, and it or the value below 10^1024. */
  ghost predicate Comparable(value: Lexeme, bound: Lexeme) {
    Readable(bound) && GoExact(bound) && (Bounded(value) || Bounded(bound))
  }

  /** The verdict is the mathematical order between integers. */
  lemma BoundsMeaning(value: Lexeme, minimum: Option<Lexeme>, maximum: Option<Lexeme>)
    requires Readable(value) && GoExact(value)
    requires minimum.Some? ==> Comparable(value, minimum.value)
    requires maximum.Some? ==> Comparable(value, maximum.value)
    ensures var v := BoundsVerdict(value, minimum, maximum);
            && (v == BelowMinimum <==>
                  && IsInteger(value.Denotes()) && minimum.Some? && IsInteger(minimum.value.Denotes())
                  && value.Denotes() < minimum.value.Denotes())
            && (v == AboveMaximum <==>
                  && IsInteger(value.Denotes()) && v != BelowMinimum && maximum.Some?
                  && IsInteger(maximum.value.Denotes()) && value.Denotes() > maximum.value.Denotes())
  {
    hide GoExact, Bounded, GoDecode;
    GoDecodeExactIff(value);
    if minimum.Some? {
      BoundMeaning(value, minimum.value);
    }
    if maximum.Some? {
      BoundMeaning(value, maximum.value);
    }
  }

  lemma BoundMeaning(value: Lexeme, bound: Lexeme)
    requires Readable(value) && GoExact(value) && Comparable(value, bound)
    ensures GoDecode(bound).Some? <==> IsInteger(bound.Denotes())
    ensures GoDecode(value).Some? && GoDecode(bound).Some? ==>
              Compare(GoDecode(value).value, GoDecode(bound).value) == Order(value.Denotes(), bound.Denotes())
  {
    hide GoExact, GoDecode;
    GoDecodeExactIff(value);
    GoDecodeExactIff(bound);
    if GoDecode(value).Some? && GoDecode(bound).Some? {
      if Bounded(bound) {
        CompareFaithful(value, GoDecode(value).value, bound, GoDecode(bound).value);
      } else {
        CompareFaithful(bound, GoDecode(bound).value, value, GoDecode(value).value);
      }
    }
  }

  /** Short enough for saturation never to matter; every 16 MiB frame is. */
  predicate Small(l: Lexeme) {
    l.WellFormed() && |l.AllDigits()| < TEN_18 - MAX_MATERIALISED_DIGITS
  }

  ghost predicate SmallBound(l: Lexeme) {
    Small(l) && IsInteger(l.Denotes()) && Bounded(l)
  }

  /** The clamped exponent; the inner clamps at 2^60 are never reached. */
  method WireExponent(l: Lexeme) returns (exponent: int)
    ensures exponent == GoExponent(l) && -TWO_62 <= exponent <= TWO_62
  {
    exponent := 0;
    if l.exponent.Exponent? {
      if |TrimLeft(l.exponent.digits)| > 18 {
        exponent := if l.exponent.sign == Minus then -TWO_62 else TWO_62;
      } else {
        UnsaturatedMagnitude(l);
        var parsed := l.ExponentValue();
        if parsed > TWO_60 {
          parsed := TWO_60;
        }
        if parsed < -TWO_60 {
          parsed := -TWO_60;
        }
        exponent := parsed;
      }
    }
  }

  /** The Go decoder, subtracting in 64 bits and rewriting its digit string in place. */
  method WireExactInteger(l: Lexeme) returns (r: Option<ExactInteger>)
    requires l.WellFormed() && Addressable(l)
    ensures r == GoDecode(l)
  {
    hide DecodeWith, TrimLeft, Value;
    var digits := TrimLeft(l.whole + l.fraction);
    if digits == [] {
      DecodeZero(l, |l.fraction| - GoExponent(l));
      return Some(Exactly(0));
    }
    var exponent := WireExponent(l);
    var decimalPlaces := Int64(|l.fraction| - exponent);
    NoWrap(|l.fraction| - exponent);
    if decimalPlaces <= 0 {
      r := Widen(l, digits, -decimalPlaces);
    } else {
      r := Narrow(l, digits, decimalPlaces);
    }
  }

  lemma DecodeZero(l: Lexeme, decimalPlaces: int)
    requires l.Significant() == []
    ensures DecodeWith(l, decimalPlaces, true) == Some(Exactly(0))
  {
  }

  method Widen(l: Lexeme, significant: Digits, zeros: nat) returns (r: Option<ExactInteger>)
    requires significant == l.Significant() != [] && zeros < TWO_63 - TWO_61 && |significant| < TWO_61
    ensures r == DecodeWith(l, 0 - zeros, true)
  {
    if zeros > MAX_MATERIALISED_DIGITS || Int64(|significant| + zeros) > MAX_MATERIALISED_DIGITS {
      return Some(Overflow(!l.negative));
    }
    var digits := significant;
    digits := digits + Zeros(zeros);
    r := ParseDigits(l, digits);
  }

  method Narrow(l: Lexeme, significant: Digits, decimalPlaces: nat) returns (r: Option<ExactInteger>)
    requires significant == l.Significant() != [] && decimalPlaces > 0
    ensures r == DecodeWith(l, decimalPlaces, true)
  {
    if decimalPlaces > |significant| {
      return None;
    }
    var tail := significant[|significant| - decimalPlaces..];
    if !AllZero(tail) {
      return None;
    }
    var digits := significant;
    digits := digits[..|digits| - decimalPlaces];
    r := ParseDigits(l, digits);
  }

  method ParseDigits(l: Lexeme, digits: Digits) returns (r: Option<ExactInteger>)
    ensures r == Some(Exactly(l.Signed(Value(digits))))
  {
    var integer: int := Value(digits);
    if l.negative {
      integer := -integer;
    }
    return Some(Exactly(integer));
  }

  /** The emitted decoders agree on integrality and on every comparison with a bound, Python wherever it
      answers. */
  lemma DecodersAgree(l: Lexeme, bound: Lexeme, form: PythonForm, boundForm: PythonForm, limit: Option<nat>)
    requires Small(l) && SmallBound(bound)
    ensures GoDecode(l).None? == RustDecode(l).None? == !IsInteger(l.Denotes())
    ensures GoDecode(bound).Some? && RustDecode(bound).Some?
    ensures IsInteger(l.Denotes()) ==>
            && Compare(GoDecode(l).value, GoDecode(bound).value) == Order(l.Denotes(), bound.Denotes())
            && RustCompare(RustDecode(l).value, RustDecode(bound).value) == Order(l.Denotes(), bound.Denotes())
    ensures PythonDecode(l, form, limit) == if PythonRaises(l, form, limit) then Raises else Answer(GoDecode(l))
    ensures PythonDecode(bound, boundForm, limit)
            == if PythonRaises(bound, boundForm, limit) then Raises else Answer(GoDecode(bound))
  {
    hide GoDecode, RustDecode, PythonDecode, PythonRaises;
    GoDecodeExact(l);
    GoDecodeExact(bound);
    RustDecodeExact(l);
    RustDecodeExact(bound);
    PythonDecodeIff(l, form, limit);
    PythonDecodeIff(bound, boundForm, limit);
    if IsInteger(l.Denotes()) {
      CompareFaithful(l, GoDecode(l).value, bound, GoDecode(bound).value);
      CompareFaithful(l, RustDecode(l).value, bound, RustDecode(bound).value);
    }
  }

  /** With a limit of at least 1024 Python never raises on a number under 10^1024 held as a decimal, and
      on one held as its text only for the length of the exponent. */
  lemma BoundedAnswers(l: Lexeme, form: PythonForm, limit: Option<nat>)
    requires Small(l) && Bounded(l) && (limit.Some? ==> limit.value >= MAX_MATERIALISED_DIGITS)
    ensures PythonDecode(l, form, limit).Raises? <==>
            l.Significant() != [] && ExponentOverLimit(l, form, limit)
  {
    hide PythonDecode, ExponentOverLimit;
    PythonDecodeIff(l, form, limit);
    if l.Significant() != [] && IsInteger(l.Denotes()) {
      BoundedIsShort(l);
    }
  }

  lemma BoundedIsShort(l: Lexeme)
    requires l.Significant() != [] && Bounded(l)
    ensures |l.Significant()| + Shift(l) <= MAX_MATERIALISED_DIGITS
  {
    hide Scaled, Value, TrailingZeros, Pow10;
    HugeByLength(l, MAX_MATERIALISED_DIGITS);
    DenotesSignificant(l);
    HugeIsScaled();
    ScaledNegated(Value(l.Significant()), Shift(l));
  }

  /** 10^n with a point, for a limit of n digits: Go gives the integer, and Python raises however it
      holds the number. */
  lemma PythonRaisesOnALongInteger(n: nat, form: PythonForm)
    requires n < TEN_18 - 2 * MAX_MATERIALISED_DIGITS
    ensures var l := Pointed(n);
            && Small(l) && l.Denotes() == Pow10(n) as real
            && GoDecode(l) == Some(Exactly(Pow10(n)))
            && PythonDecode(l, form, Some(n)) == Raises
  {
    hide PythonDecode, GoDecode, PowerText;
    PointedDecodes(n);
    PointedSize(n);
    PythonDecodeIff(Pointed(n), form, Some(n));
  }

  lemma PointedSize(n: nat)
    requires n < TEN_18 - 2 * MAX_MATERIALISED_DIGITS
    ensures Small(Pointed(n)) && |PowerText(n + 1)| == n + 2 && Shift(Pointed(n)) == -1
    ensures Pointed(n).Denotes() == Pow10(n) as real
  {
    PlainDenotes(n);
  }

  // ---- the equality key -------------------------------------------------------------

  datatype Key = ZeroKey | ScaledKey(negative: bool, digits: Digits, exponent: int)

  /** Digits with their trailing zeros moved into the exponent. */
  function Normalise(l: Lexeme): Key {
    var digits := l.Significant();
    if digits == [] then ZeroKey
    else
      var t := TrailingZeros(digits);
      ScaledKey(l.negative, digits[..|digits| - t], Shift(l) + t)
  }

  function KeyText(k: Key): string {
    match k
    case ZeroKey => "0"
    case ScaledKey(negative, digits, exponent) =>
      (if negative then "-" else "") + digits + "e" + IntegerText(exponent)
  }

  /** The key as the runtime computes it. */
  method NumberKey(l: Lexeme) returns (key: string)
    requires l.WellFormed()
    ensures key == KeyText(Normalise(l))
  {
    hide TrailingZeros, Value, IntegerText, TrimLeft;
    var digits := TrimLeft(l.whole + l.fraction);
    if digits == [] {
      return "0";
    }
    var exponent := l.ExponentValue();
    exponent := exponent - |l.fraction|;
    digits, exponent := StripZeros(digits, exponent);
    var sign := if l.negative then "-" else "";
    return sign + digits + "e" + IntegerText(exponent);
  }

  /** Moves trailing zeros into the exponent, one at a time. */
  method StripZeros(significant: Digits, shift: int) returns (digits: Digits, exponent: int)
    ensures digits == significant[..|significant| - TrailingZeros(significant)]
    ensures exponent == shift + TrailingZeros(significant)
  {
    digits, exponent := significant, shift;
    while |digits| > 0 && digits[|digits| - 1] == '0'
      invariant |digits| <= |significant| && digits == significant[..|digits|]
      invariant exponent == shift + |significant| - |digits|
      invariant TrailingZeros(significant) == |significant| - |digits| + TrailingZeros(digits)
      decreases |digits|
    {
      digits := digits[..|digits| - 1];
      exponent := exponent + 1;
    }
  }

  ghost predicate Normal(k: Key) {
    k.ScaledKey? ==> |k.digits| > 0 && k.digits[0] != '0' && k.digits[|k.digits| - 1] != '0'
  }

  function KeyDenotes(k: Key): real {
    match k
    case ZeroKey => 0.0
    case ScaledKey(negative, digits, exponent) =>
      Scaled(if negative then 0 - Value(digits) else Value(digits), exponent)
  }

  lemma NormaliseKeepsValue(l: Lexeme)
    ensures Normal(Normalise(l)) && KeyDenotes(Normalise(l)) == l.Denotes()
  {
    var digits := l.Significant();
    DenotesSignificant(l);
    if digits == [] {
      ScaledZero(Shift(l));
    } else {
      var t := TrailingZeros(digits);
      TrailingZerosProper(digits);
      LastKeptDigit(digits);
      SplitTrailingZeros(digits, t);
      SignedProduct(l, Value(digits[..|digits| - t]), Pow10(t));
      ScaledShift(l.Signed(Value(digits[..|digits| - t])), Shift(l), t);
    }
  }

  /** Two normal keys of the same number are the same key. */
  lemma NormalKeysUnique(a: Key, b: Key)
    requires Normal(a) && Normal(b) && KeyDenotes(a) == KeyDenotes(b)
    ensures a == b
  {
    KeySign(a);
    KeySign(b);
    if a.ScaledKey? && b.ScaledKey? {
      if a.exponent <= b.exponent {
        SmallerExponentImpossible(a, b);
      } else {
        SmallerExponentImpossible(b, a);
      }
    }
  }

  lemma KeySign(k: Key)
    requires Normal(k)
    ensures Order(KeyDenotes(k), 0.0) == if k.ZeroKey? then 0 else if k.negative then -1 else 1
  {
    if k.ScaledKey? {
      ValueAtLeast(k.digits);
      ScaledZero(k.exponent);
      ScaledOrder(if k.negative then 0 - Value(k.digits) else Value(k.digits), 0, k.exponent);
    }
  }

  lemma SmallerExponentImpossible(a: Key, b: Key)
    requires a.ScaledKey? && b.ScaledKey? && Normal(a) && Normal(b)
    requires a.negative == b.negative && a.exponent <= b.exponent && KeyDenotes(a) == KeyDenotes(b)
    ensures a == b
  {
    hide Scaled, Value;
    var gap := b.exponent - a.exponent;
    var v: int, w: int := Value(a.digits), Value(b.digits);
    ScaledCompare(if a.negative then 0 - v else v, a.exponent, if b.negative then 0 - w else w, b.exponent);
    assert v == w * Pow10(gap);
    DivisibleByPower(a.digits, gap, w);
    assert TrailingZeros(a.digits) == 0 && gap == 0;
    CanonicalDigitsUnique(a.digits, b.digits);
  }

  lemma KeyTextInjective(a: Key, b: Key)
    requires Normal(a) && Normal(b) && KeyText(a) == KeyText(b)
    ensures a == b
  {
    if a.ScaledKey? && b.ScaledKey? {
      var ta, tb := KeyText(a), KeyText(b);
      assert (ta[0] == '-') == a.negative && (tb[0] == '-') == b.negative;
      var ua, ub := a.digits + "e" + IntegerText(a.exponent), b.digits + "e" + IntegerText(b.exponent);
      assert ua == ub by {
        if a.negative {
          assert ta[1..] == ua && tb[1..] == ub;
        } else {
          assert ta == ua && tb == ub;
        }
      }
      SplitAtE(a.digits, IntegerText(a.exponent), b.digits, IntegerText(b.exponent));
      IntegerTextInjective(a.exponent, b.exponent);
    } else if a.ScaledKey? {
      ScaledTextNotZero(a);
    } else if b.ScaledKey? {
      ScaledTextNotZero(b);
    }
  }

  lemma ScaledTextNotZero(k: Key)
    requires k.ScaledKey? && Normal(k)
    ensures KeyText(k) != "0"
  {
    assert KeyText(k)[0] == if k.negative then '-' else k.digits[0];
  }

  function DigitPrefix(u: string): nat {
    if u == [] || !('0' <= u[0] <= '9') then 0 else 1 + DigitPrefix(u[1..])
  }

  lemma {:induction false} DigitPrefixStopsAtE(a: Digits, s: string)
    ensures DigitPrefix(a + "e" + s) == |a|
  {
    if a != [] {
      assert (a + "e" + s)[1..] == a[1..] + "e" + s;
      DigitPrefixStopsAtE(a[1..], s);
    }
  }

  lemma SplitAtE(a: Digits, s: string, b: Digits, t: string)
    requires a + "e" + s == b + "e" + t
    ensures a == b && s == t
  {
    DigitPrefixStopsAtE(a, s);
    DigitPrefixStopsAtE(b, t);
    var u, w := a + "e" + s, b + "e" + t;
    assert u[..|a|] == a && w[..|b|] == b;
    assert u[|a| + 1..] == s && w[|b| + 1..] == t;
  }

  /** Numeric equality by key: no bound on digits or exponents. */
  lemma SameKeyIffSameNumber(a: Lexeme, b: Lexeme)
    ensures KeyText(Normalise(a)) == KeyText(Normalise(b)) <==> a.Denotes() == b.Denotes()
  {
    NormaliseKeepsValue(a);
    NormaliseKeepsValue(b);
    if KeyText(Normalise(a)) == KeyText(Normalise(b)) {
      KeyTextInjective(Normalise(a), Normalise(b));
    }
    if a.Denotes() == b.Denotes() {
      NormalKeysUnique(Normalise(a), Normalise(b));
    }
  }
}
