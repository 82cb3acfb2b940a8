/** Exact decimal amounts (core/money/src/amount.rs). */
module Money {
  import opened Base
  import opened Digits

  const MAX_DIGITS: nat := 128
  const MAX_SCALE: nat := 38
  const MAX_INPUT_LEN: nat := 192

  datatype MoneyError =
    | Empty
    | InputTooLong(len: nat)
    | InvalidByte(at: nat)
    | LeadingZero(at: nat)
    | SignOnZero
    | MissingIntegerPart
    | MissingFractionDigits
    | ExponentNotation(at: nat)
    | TooManyDigits(digits: nat)
    | ScaleTooLarge(scale: nat)
    | CoefficientOverflow
    | AssetMismatch

  /** `units * 10^-scale` of `asset`. */
  datatype Amount = Amount(asset: string, units: int, scale: nat)

  function Abs(n: int): nat { if n < 0 then -n else n }

  function DigitCount(n: int): nat { |Decimal(Abs(n))| }

  /** What `checked` guarantees of every amount that exists. */
  predicate Valid(a: Amount) { DigitCount(a.units) <= MAX_DIGITS && a.scale <= MAX_SCALE }

  function Checked(asset: string, units: int, scale: nat): (r: Result<Amount, MoneyError>)
    ensures r.Ok? <==> Valid(Amount(asset, units, scale))
    ensures r.Ok? ==> r.value == Amount(asset, units, scale)
  {
    if DigitCount(units) > MAX_DIGITS then Err(TooManyDigits(DigitCount(units)))
    else if scale > MAX_SCALE then Err(ScaleTooLarge(scale))
    else Ok(Amount(asset, units, scale))
  }

  // ----- parsing -------------------------------------------------------------------------

  /** How many leading bytes are digits. */
  function LeadingDigits(s: string): (n: nat)
    ensures n <= |s| && AllDigits(s[..n]) && (n < |s| ==> !IsDigit(s[n]))
  {
    if s == "" || !IsDigit(s[0]) then 0
    else
      var n := LeadingDigits(s[1..]);
      assert s[..n + 1] == [s[0]] + s[1..][..n];
      n + 1
  }

  predicate IsExponent(c: char) { c == 'e' || c == 'E' }

  /** A byte that ends the number early: reported where it sits. */
  function BadByte(c: char, at: nat): MoneyError { if IsExponent(c) then ExponentNotation(at) else InvalidByte(at) }

  /** The integer digits of `rest`, which starts at byte `start`. */
  function IntegerPart(rest: string, start: nat): (r: Result<string, MoneyError>)
    ensures r.Ok? ==> r.value <= rest && Canonical(r.value)
  {
    if rest == "" || rest[0] == '.' then Err(MissingIntegerPart)
    else if rest[0] == '0' then
      if |rest| > 1 && IsDigit(rest[1]) then Err(LeadingZero(start)) else Ok(rest[..1])
    else if IsDigit(rest[0]) then Ok(rest[..LeadingDigits(rest)])
    else Err(InvalidByte(start))
  }

  function Tail(fp: string): string { if fp == "" then "" else "." + fp }

  /** The fraction digits of what follows the integer part, which must hold nothing else. */
  function FractionPart(after: string, start: nat): (r: Result<string, MoneyError>)
    ensures r.Ok? ==> AllDigits(r.value) && after == Tail(r.value)
  {
    if after == "" then Ok("")
    else if after[0] != '.' then Err(BadByte(after[0], start))
    else
      var frac := after[1..];
      var count := LeadingDigits(frac);
      if count == 0 then
        Err(if frac == "" then MissingFractionDigits else BadByte(frac[0], start + 1))
      else if count < |frac| then Err(BadByte(frac[count], start + 1 + count))
      else assert frac[..count] == frac; Ok(frac)
  }

  function Signed(neg: bool, magnitude: nat): int { if neg then 0 - magnitude else magnitude }

  /** `-?(0|[1-9][0-9]*)(\.[0-9]+)?`, as its three pieces. */
  datatype Pieces = Pieces(neg: bool, ip: string, fp: string)
  {
    predicate InGrammar() { Canonical(ip) && AllDigits(fp) }

    function Text(): string { (if neg then "-" else "") + (ip + Tail(fp)) }

    /** The worth of the digits, in units of the last place. */
    function Coefficient(): nat
      requires InGrammar()
    {
      Value(ip + fp)
    }

    function Units(): int
      requires InGrammar()
    {
      Signed(neg, Coefficient())
    }
  }

  function Read(s: string): (r: Result<Pieces, MoneyError>)
    requires s != ""
    ensures r.Ok? ==> r.value.InGrammar()
  {
    var neg := s[0] == '-';
    var start := if neg then 1 else 0;
    var rest := s[start..];
    var ip := IntegerPart(rest, start);
    if ip.Err? then Err(ip.error)
    else
      var fp := FractionPart(rest[|ip.value|..], start + |ip.value|);
      if fp.Err? then Err(fp.error) else Ok(Pieces(neg, ip.value, fp.value))
  }

  function Parse(asset: string, s: string): Result<Amount, MoneyError> {
    if |s| > MAX_INPUT_LEN then Err(InputTooLong(|s|))
    else if s == "" then Err(Empty)
    else
      var p := Read(s);
      if p.Err? then Err(p.error)
      else if p.value.neg && p.value.ip == "0" && (forall i :: 0 <= i < |p.value.fp| ==> p.value.fp[i] == '0')
      then Err(SignOnZero)
      else Checked(asset, p.value.Units(), |p.value.fp|)
  }

  // ----- printing ------------------------------------------------------------------------

  function Format(units: int, scale: nat): string {
    var magnitude := Decimal(Abs(units));
    (if units < 0 then "-" else "") +
    if scale == 0 then magnitude
    else if |magnitude| > scale then magnitude[..|magnitude| - scale] + ("." + magnitude[|magnitude| - scale..])
    else "0" + ("." + (Zeros(scale - |magnitude|) + magnitude))
  }

  // ----- the grammar ---------------------------------------------------------------------

  lemma {:induction false} LeadingDigitsAre(a: string, b: string)
    requires AllDigits(a) && (b != "" ==> !IsDigit(b[0]))
    ensures LeadingDigits(a + b) == |a|
  {
    if a != "" {
      LeadingDigitsAre(a[1..], b);
      assert (a + b)[1..] == a[1..] + b;
    }
  }

  lemma {:induction false} IntegerPartReads(ip: string, after: string, start: nat)
    requires Canonical(ip) && (after != "" ==> !IsDigit(after[0]))
    ensures IntegerPart(ip + after, start) == Ok(ip)
  {
    LeadingDigitsAre(ip, after);
    assert (ip + after)[..|ip|] == ip;
    assert (ip + after)[0] == ip[0];
  }

  lemma {:induction false} FractionPartReads(fp: string, start: nat)
    requires AllDigits(fp)
    ensures FractionPart(Tail(fp), start) == Ok(fp)
  {
    if fp != "" {
      LeadingDigitsAre(fp, "");
      assert ("." + fp)[1..] == fp == fp + "";
    }
  }

  lemma {:induction false} ZeroCoefficient(p: Pieces)
    requires p.InGrammar()
    ensures p.Coefficient() == 0 <==> p.ip == "0" && forall i :: 0 <= i < |p.fp| ==> p.fp[i] == '0'
  {
    ZeroValue(p.fp);
    if p.ip == "0" {
      LeadingZeroWorthless(p.fp);
    } else {
      ValueConcat(p.ip, p.fp);
      ValuePositive(p.ip);
      ProductPositive(Value(p.ip), Pow10(|p.fp|));
    }
  }

  lemma {:induction false} ProductPositive(x: int, y: int)
    requires x >= 1 && y >= 1
    ensures x * y >= 1
  {
  }

  lemma {:induction false} ZeroValue(s: string)
    requires AllDigits(s)
    ensures Value(s) == 0 <==> forall i :: 0 <= i < |s| ==> s[i] == '0'
  {
    if s != "" {
      ZeroValue(s[..|s| - 1]);
      assert forall i :: 0 <= i < |s| - 1 ==> s[..|s| - 1][i] == s[i];
      assert DigitValue(s[|s| - 1]) == 0 <==> s[|s| - 1] == '0';
    }
  }

  /** The reader recovers the pieces of any string of the grammar. */
  lemma {:induction false} ReadText(p: Pieces)
    requires p.InGrammar()
    ensures p.Text() != "" && Read(p.Text()) == Ok(p)
  {
    var start := if p.neg then 1 else 0;
    var rest := p.ip + Tail(p.fp);
    assert p.Text()[start..] == rest;
    IntegerPartReads(p.ip, Tail(p.fp), start);
    assert rest[|p.ip|..] == Tail(p.fp);
    FractionPartReads(p.fp, start + |p.ip|);
  }

  /** And whatever it accepts is a string of the grammar, spelled by the pieces it returns. */
  lemma {:induction false} ReadIsText(s: string)
    requires s != "" && Read(s).Ok?
    ensures Read(s).value.Text() == s
  {
    var p := Read(s).value;
    var start := if p.neg then 1 else 0;
    var rest := s[start..];
    assert rest == p.ip + rest[|p.ip|..];
    assert s == (if p.neg then "-" else "") + rest;
  }

  lemma {:induction false} ParseText(asset: string, p: Pieces)
    requires p.InGrammar() && |p.Text()| <= MAX_INPUT_LEN
    ensures Parse(asset, p.Text()) ==
              if p.neg && p.Coefficient() == 0 then Err(SignOnZero) else Checked(asset, p.Units(), |p.fp|)
  {
    ReadText(p);
    ZeroCoefficient(p);
  }

  ghost predicate Accepted(s: string, p: Pieces, units: int, scale: nat) {
    && p.InGrammar() && s == p.Text() && |s| <= MAX_INPUT_LEN
    && !(p.neg && p.Coefficient() == 0)
    && units == p.Units() && DigitCount(units) <= MAX_DIGITS
    && scale == |p.fp| <= MAX_SCALE
  }

  /** Parsing accepts exactly the grammar without signed zero, within the length, digit and scale
      bounds, and reads it as the coefficient and scale it spells. */
  lemma {:induction false} ParseAccepts(asset: string, s: string, a: Amount)
    ensures Parse(asset, s) == Ok(a) <==> a.asset == asset && exists p :: Accepted(s, p, a.units, a.scale)
  {
    if Parse(asset, s) == Ok(a) {
      ReadIsText(s);
      ParseText(asset, Read(s).value);
      assert Accepted(s, Read(s).value, a.units, a.scale);
    }
    if a.asset == asset && exists p :: Accepted(s, p, a.units, a.scale) {
      var p :| Accepted(s, p, a.units, a.scale);
      ParseText(asset, p);
    }
  }

  // ----- round trips ---------------------------------------------------------------------

  lemma {:induction false} LastDigit(x: nat, d: nat, y: nat, e: nat)
    requires x * 10 + d == y * 10 + e && d <= 9 && e <= 9
    ensures x == y && d == e
  {
  }

  lemma {:induction false} DigitsUnique(a: string, b: string)
    requires AllDigits(a) && AllDigits(b) && |a| == |b| && Value(a) == Value(b)
    ensures a == b
  {
    if a != "" {
      var a', b', d, e := a[..|a| - 1], b[..|b| - 1], a[|a| - 1], b[|b| - 1];
      assert Value(a) == Value(a') * 10 + DigitValue(d) && Value(b) == Value(b') * 10 + DigitValue(e);
      LastDigit(Value(a'), DigitValue(d), Value(b'), DigitValue(e));
      DigitsUnique(a', b');
      assert DigitChar(DigitValue(d)) == d && DigitChar(DigitValue(e)) == e;
      assert a == a' + [d] && b == b' + [e];
    }
  }

  /** Where printing puts the point among the digits. */
  function Split(neg: bool, m: string, scale: nat): Pieces {
    if |m| > scale then Pieces(neg, m[..|m| - scale], m[|m| - scale..])
    else Pieces(neg, "0", Zeros(scale - |m|) + m)
  }

  lemma {:induction false} FormatIsSplit(units: int, scale: nat)
    ensures Format(units, scale) == Split(units < 0, Decimal(Abs(units)), scale).Text()
  {
    var m := Decimal(Abs(units));
    if scale == 0 { assert m[..|m|] == m; }
  }

  lemma {:induction false} SplitHolds(neg: bool, m: string, scale: nat)
    requires Canonical(m)
    ensures var p := Split(neg, m, scale);
            p.InGrammar() && |p.fp| == scale && p.Coefficient() == Value(m) && |p.ip| <= |m|
  {
    var p := Split(neg, m, scale);
    if |m| > scale {
      assert p.ip[0] == m[0];
      assert p.ip + p.fp == m;
    } else {
      PaddedValue(scale - |m|, m);
      assert AllDigits(p.fp) && Value(p.fp) == Value(m);
      LeadingZeroWorthless(p.fp);
      assert p.ip + p.fp == "0" + p.fp;
    }
  }

  lemma {:induction false} LeadingZeroWorthless(s: string)
    requires AllDigits(s)
    ensures AllDigits("0" + s) && Value("0" + s) == Value(s)
  {
    assert "0" == Zeros(1) by { assert Zeros(0) == ""; }
    PaddedValue(1, s);
  }

  /** Parsing what an amount prints gives back its coefficient and scale, for every amount that can
      exist. */
  lemma {:induction false} ParseFormat(a: Amount)
    requires Valid(a)
    ensures Parse(a.asset, Format(a.units, a.scale)) == Ok(a)
  {
    var m := Decimal(Abs(a.units));
    DecimalCanonical(Abs(a.units));
    DecimalValue(Abs(a.units));
    SplitHolds(a.units < 0, m, a.scale);
    FormatIsSplit(a.units, a.scale);
    var p := Split(a.units < 0, m, a.scale);
    assert |p.Text()| <= |p.ip| + |p.fp| + 2;
    assert p.Units() == a.units;
    ParseText(a.asset, p);
  }

  lemma {:induction false} PaddedPrints(fp: string)
    requires AllDigits(fp) && fp != ""
    ensures |Decimal(Value(fp))| <= |fp|
    ensures Zeros(|fp| - |Decimal(Value(fp))|) + Decimal(Value(fp)) == fp
  {
    ValueBounded(fp);
    DecimalLength(Value(fp), |fp|);
    var m := Decimal(Value(fp));
    DecimalValue(Value(fp));
    PaddedValue(|fp| - |m|, m);
    DigitsUnique(Zeros(|fp| - |m|) + m, fp);
  }

  /** Splitting the digits of a coefficient recovers the pieces they came from. */
  lemma {:induction false} SplitRecovers(p: Pieces)
    requires p.InGrammar()
    ensures Split(p.neg, Decimal(p.Coefficient()), |p.fp|) == p
  {
    if p.ip != "0" {
      assert Canonical(p.ip + p.fp) by { assert (p.ip + p.fp)[0] == p.ip[0]; }
      CanonicalPrints(p.ip + p.fp);
      assert (p.ip + p.fp)[..|p.ip|] == p.ip && (p.ip + p.fp)[|p.ip|..] == p.fp;
    } else if p.fp == "" {
      assert p.ip + p.fp == p.ip;
      CanonicalPrints(p.ip);
    } else {
      LeadingZeroWorthless(p.fp);
      PaddedPrints(p.fp);
    }
  }

  /** Printing a parsed amount gives back the very bytes. */
  lemma {:induction false} FormatParse(asset: string, s: string)
    requires Parse(asset, s).Ok?
    ensures Format(Parse(asset, s).value.units, Parse(asset, s).value.scale) == s
  {
    var p := Read(s).value;
    ReadIsText(s);
    ZeroCoefficient(p);
    SplitRecovers(p);
    FormatIsSplit(p.Units(), |p.fp|);
  }

  // ----- arithmetic ----------------------------------------------------------------------

  function RescaleUnits(units: int, from: nat, to: nat): int {
    if from == to then units else units * Pow10(if to < from then 0 else to - from)
  }

  function Add(a: Amount, b: Amount): Result<Amount, MoneyError> {
    if a.asset != b.asset then Err(AssetMismatch)
    else
      var scale := Max(a.scale, b.scale);
      var sum := Checked(a.asset, RescaleUnits(a.units, a.scale, scale) + RescaleUnits(b.units, b.scale, scale), scale);
      if sum.Err? && sum.error.TooManyDigits? then Err(CoefficientOverflow) else sum
  }

  function Neg(a: Amount): Amount { a.(units := -a.units) }

  function Sub(a: Amount, b: Amount): Result<Amount, MoneyError> { Add(a, Neg(b)) }

  /** The rational number an amount stands for. */
  ghost function Worth(a: Amount): real { (a.units as real) / (Pow10(a.scale) as real) }

  lemma {:induction false} ScaleRatio(x: real, p: real, k: real)
    requires p > 0.0 && k > 0.0
    ensures (x * k) / (p * k) == x / p
  {
    var q := x / p;
    assert q * p == x;
    assert q * (p * k) == x * k;
  }

  lemma {:induction false} RealProduct(x: int, k: int)
    ensures (x * k) as real == (x as real) * (k as real)
  {
  }

  lemma {:induction false} RescaleKeepsWorth(units: int, from: nat, to: nat)
    requires from <= to
    ensures (RescaleUnits(units, from, to) as real) / (Pow10(to) as real) == (units as real) / (Pow10(from) as real)
  {
    if from < to {
      Pow10Sum(from, to - from);
      var p, k := Pow10(from), Pow10(to - from);
      RealProduct(units, k);
      RealProduct(p, k);
      ScaleRatio(units as real, p as real, k as real);
    }
  }

  lemma {:induction false} RatioSum(x: real, y: real, p: real)
    requires p > 0.0
    ensures (x + y) / p == x / p + y / p
  {
  }

  /** The exact sum, in units of the finer of the two scales. */
  function ExactUnits(a: Amount, b: Amount): int {
    RescaleUnits(a.units, a.scale, Max(a.scale, b.scale)) + RescaleUnits(b.units, b.scale, Max(a.scale, b.scale))
  }

  lemma {:induction false} SumWorth(a: Amount, b: Amount)
    ensures Worth(Amount(a.asset, ExactUnits(a, b), Max(a.scale, b.scale))) == Worth(a) + Worth(b)
  {
    var scale := Max(a.scale, b.scale);
    var x, y := RescaleUnits(a.units, a.scale, scale), RescaleUnits(b.units, b.scale, scale);
    RescaleKeepsWorth(a.units, a.scale, scale);
    RescaleKeepsWorth(b.units, b.scale, scale);
    RealSum(x, y);
    RatioSum(x as real, y as real, Pow10(scale) as real);
  }

  lemma {:induction false} RealSum(x: int, y: int)
    ensures (x + y) as real == (x as real) + (y as real)
  {
  }

  lemma {:induction false} AddGives(a: Amount, b: Amount)
    requires a.asset == b.asset && Valid(a) && Valid(b)
    ensures Add(a, b) == if Abs(ExactUnits(a, b)) < Pow10(MAX_DIGITS)
                         then Ok(Amount(a.asset, ExactUnits(a, b), Max(a.scale, b.scale))) else Err(CoefficientOverflow)
  {
    DecimalLength(Abs(ExactUnits(a, b)), MAX_DIGITS);
  }

  /** Addition is exact rational addition at the larger scale. On one asset it fails exactly when the
      exact sum needs more than 128 digits. */
  lemma {:induction false} AddIsExact(a: Amount, b: Amount)
    requires Valid(a) && Valid(b)
    ensures a.asset != b.asset ==> Add(a, b) == Err(AssetMismatch)
    ensures a.asset == b.asset ==> (Add(a, b).Ok? <==> Abs(ExactUnits(a, b)) < Pow10(MAX_DIGITS))
    ensures a.asset == b.asset && Add(a, b).Err? ==> Add(a, b).error == CoefficientOverflow
    ensures Add(a, b).Ok? ==> Valid(Add(a, b).value) && Add(a, b).value.asset == a.asset == b.asset
                              && Add(a, b).value.scale == Max(a.scale, b.scale)
                              && Worth(Add(a, b).value) == Worth(a) + Worth(b)
  {
    if a.asset == b.asset {
      AddGives(a, b);
      SumWorth(a, b);
      DecimalLength(Abs(ExactUnits(a, b)), MAX_DIGITS);
    }
  }

  lemma {:induction false} NegIsExact(a: Amount)
    requires Valid(a)
    ensures Valid(Neg(a)) && Worth(Neg(a)) == -Worth(a) && Neg(Neg(a)) == a
  {
    assert (-a.units) as real == -(a.units as real);
    RatioSum(a.units as real, -(a.units as real), Pow10(a.scale) as real);
  }

  lemma {:induction false} SubIsExact(a: Amount, b: Amount)
    requires Valid(a) && Valid(b)
    ensures a.asset != b.asset ==> Sub(a, b) == Err(AssetMismatch)
    ensures a.asset == b.asset ==> (Sub(a, b).Ok? <==> Abs(ExactUnits(a, Neg(b))) < Pow10(MAX_DIGITS))
    ensures a.asset == b.asset && Sub(a, b).Err? ==> Sub(a, b).error == CoefficientOverflow
    ensures Sub(a, b).Ok? ==> Valid(Sub(a, b).value) && Sub(a, b).value.asset == a.asset == b.asset
                              && Sub(a, b).value.scale == Max(a.scale, b.scale)
                              && Worth(Sub(a, b).value) == Worth(a) - Worth(b)
  {
    NegIsExact(b);
    AddIsExact(a, Neg(b));
  }

  // ----- comparison ----------------------------------------------------------------------

  datatype Ordering = Less | Equal | Greater

  function Cmp(a: Amount, b: Amount): Result<Ordering, MoneyError> {
    if a.asset != b.asset then Err(AssetMismatch)
    else
      var scale := Max(a.scale, b.scale);
      var x, y := RescaleUnits(a.units, a.scale, scale), RescaleUnits(b.units, b.scale, scale);
      Ok(if x < y then Less else if x == y then Equal else Greater)
  }

  lemma {:induction false} RatioOrder(x: real, y: real, p: real)
    requires p > 0.0
    ensures x < y <==> x / p < y / p
    ensures x == y <==> x / p == y / p
  {
    var a, b := x / p, y / p;
    assert a * p == x && b * p == y;
    assert a < b ==> a * p < b * p;
    assert b < a ==> b * p < a * p;
  }

  /** `cmp_same_asset` is the order of the rational numbers. */
  lemma {:induction false} CmpIsRationalOrder(a: Amount, b: Amount)
    ensures Cmp(a, b).Err? <==> a.asset != b.asset
    ensures a.asset == b.asset ==>
              Cmp(a, b).value == if Worth(a) < Worth(b) then Less else if Worth(a) == Worth(b) then Equal else Greater
  {
    var scale := Max(a.scale, b.scale);
    RescaleKeepsWorth(a.units, a.scale, scale);
    RescaleKeepsWorth(b.units, b.scale, scale);
    var x, y := RescaleUnits(a.units, a.scale, scale), RescaleUnits(b.units, b.scale, scale);
    RatioOrder(x as real, y as real, Pow10(scale) as real);
  }

  /** `PartialEq`. */
  predicate Eq(a: Amount, b: Amount) { Cmp(a, b) == Ok(Equal) }

  // ----- the normal form -----------------------------------------------------------------

  lemma {:induction false} TruncExact(n: int)
    ensures TruncRem(n, 10) == 0 ==> TruncDiv(n, 10) * 10 == n
    ensures TruncRem(n, 10) == 0 <==> n % 10 == 0
  {
  }

  function Normalized(units: int, scale: nat): (int, nat)
    decreases scale
  {
    if scale > 0 && TruncRem(units, 10) == 0 then Normalized(TruncDiv(units, 10), scale - 1) else (units, scale)
  }

  /** `normalized`: the loop strips trailing zeros. */
  method Normalize(a: Amount) returns (n: (int, nat))
    ensures n == Normalized(a.units, a.scale)
  {
    var units, scale := a.units, a.scale;
    while scale > 0
      invariant Normalized(units, scale) == Normalized(a.units, a.scale)
      decreases scale
    {
      if TruncRem(units, 10) != 0 { return (units, scale); }
      units, scale := TruncDiv(units, 10), scale - 1;
    }
    n := (units, scale);
  }

  /** The normal form is the same number with no trailing zero left to strip. */
  lemma {:induction false} NormalizedIs(units: int, scale: nat)
    ensures var (u, k) := Normalized(units, scale);
      k <= scale && units == u * Pow10(scale - k) && (k == 0 || u % 10 != 0)
    decreases scale
  {
    TruncExact(units);
    if scale > 0 && TruncRem(units, 10) == 0 {
      NormalizedIs(TruncDiv(units, 10), scale - 1);
      var (u, k) := Normalized(units, scale);
      assert u * Pow10(scale - 1 - k) * 10 == u * Pow10(scale - k);
    }
  }

  lemma {:induction false} TenDivides(u: int, n: nat)
    requires n > 0
    ensures (u * Pow10(n)) % 10 == 0
  {
    assert u * Pow10(n) == 10 * (u * Pow10(n - 1));
  }

  lemma {:induction false} Assoc(u: int, p: int, q: int)
    ensures (u * p) * q == u * (p * q)
  {
  }

  lemma {:induction false} Cancel(x: int, y: int, p: int)
    requires p >= 1 && x * p == y * p
    ensures x == y
  {
    assert x < y ==> (y - x) * p >= 1;
    assert y < x ==> (x - y) * p >= 1;
  }

  lemma {:induction false} NormalFormUnique(u: int, j: nat, v: int, k: nat, scale: nat)
    requires j <= k <= scale && u * Pow10(scale - j) == v * Pow10(scale - k)
    requires k == 0 || v % 10 != 0
    ensures u == v && j == k
  {
    var p, q := Pow10(scale - k), Pow10(k - j);
    Pow10Sum(k - j, scale - k);
    Assoc(u, q, p);
    Cancel(u * q, v, p);
    if j < k { TenDivides(u, k - j); }
  }

  lemma {:induction false} RescaleNormal(units: int, scale: nat, to: nat)
    requires scale <= to
    ensures var (u, k) := Normalized(units, scale); k <= to && RescaleUnits(units, scale, to) == u * Pow10(to - k)
  {
    NormalizedIs(units, scale);
    var (u, k) := Normalized(units, scale);
    Pow10Sum(scale - k, to - scale);
    Assoc(u, Pow10(scale - k), Pow10(to - scale));
  }

  /** Two amounts of one asset are equal exactly when their normal forms coincide, so hashing the normal
      form agrees with equality. */
  lemma {:induction false} EqIffNormalFormsAgree(a: Amount, b: Amount)
    requires a.asset == b.asset
    ensures Eq(a, b) <==> Normalized(a.units, a.scale) == Normalized(b.units, b.scale)
  {
    var scale := Max(a.scale, b.scale);
    NormalizedIs(a.units, a.scale);
    NormalizedIs(b.units, b.scale);
    RescaleNormal(a.units, a.scale, scale);
    RescaleNormal(b.units, b.scale, scale);
    var (u, j) := Normalized(a.units, a.scale);
    var (v, k) := Normalized(b.units, b.scale);
    if Eq(a, b) {
      if j <= k { NormalFormUnique(u, j, v, k, scale); } else { NormalFormUnique(v, k, u, j, scale); }
    }
  }

  // ----- the remaining loops -------------------------------------------------------------

  /** `digits_to_bigint`. */
  method DigitsToInt(digits: string) returns (acc: nat)
    requires AllDigits(digits)
    ensures acc == Value(digits)
  {
    acc := 0;
    for i := 0 to |digits|
      invariant acc == Value(digits[..i])
    {
      assert digits[..i + 1][..i] == digits[..i];
      acc := acc * 10 + DigitValue(digits[i]);
    }
    assert digits[..|digits|] == digits;
  }

  /** `format_decimal`, zeros pushed one by one. */
  method FormatDecimal(units: int, scale: nat) returns (out: string)
    ensures out == Format(units, scale)
  {
    var magnitude := Decimal(Abs(units));
    var sign := if units < 0 then "-" else "";
    if scale == 0 {
      out := sign + magnitude;
    } else if |magnitude| > scale {
      var split := |magnitude| - scale;
      out := sign + (magnitude[..split] + ("." + magnitude[split..]));
    } else {
      var pad := "";
      for i := 0 to scale - |magnitude|
        invariant pad == Zeros(i)
      {
        pad := pad + "0";
      }
      out := sign + ("0" + ("." + (pad + magnitude)));
    }
  }

  // ----- where a rejected string goes wrong ----------------------------------------------

  /** The text can still be continued to a string of the grammar. */
  ghost predicate Viable(t: string) { exists p: Pieces :: p.InGrammar() && t <= p.Text() }

  function SignText(neg: bool): string { if neg then "-" else "" }

  /** After the sign, a string of the grammar is digits but for one point. */
  lemma {:induction false} BodyChars(p: Pieces, body: string)
    requires p.InGrammar() && body == p.ip + Tail(p.fp)
    ensures forall i :: 0 <= i < |body| && !IsDigit(body[i]) ==> body[i] == '.' && i == |p.ip|
  {
  }

  lemma {:induction false} BodyPrefix(p: Pieces, r: string)
    requires p.InGrammar() && r <= p.ip + Tail(p.fp) && r != "" && !IsDigit(r[|r| - 1])
    ensures r[|r| - 1] == '.' && forall j :: 0 <= j < |r| - 1 ==> r[j] != '.'
  {
    var body := p.ip + Tail(p.fp);
    BodyChars(p, body);
    assert forall j :: 0 <= j < |r| ==> r[j] == body[j];
  }

  lemma {:induction false} SignOfText(p: Pieces, neg: bool, r: string)
    requires p.InGrammar() && r != "" && (neg || r[0] != '-') && SignText(neg) + r <= p.Text()
    ensures r <= p.ip + Tail(p.fp)
  {
    assert (SignText(neg) + r)[0] == p.Text()[0];
    assert p.neg == neg;
    StripSign(neg, r, p.ip + Tail(p.fp));
  }

  /** A second point, or any other byte that is no digit. */
  predicate BadEnd(r: string) {
    r != "" && !IsDigit(r[|r| - 1]) && (r[|r| - 1] != '.' || exists j :: 0 <= j < |r| - 1 && r[j] == '.')
  }

  lemma {:induction false} NoSuchNumber(p: Pieces, neg: bool, r: string)
    requires p.InGrammar() && BadEnd(r) && (neg || r[0] != '-')
    ensures !(SignText(neg) + r <= p.Text())
  {
    if SignText(neg) + r <= p.Text() {
      SignOfText(p, neg, r);
      BodyPrefix(p, r);
    }
  }

  /** A non-digit that is not the first point of the number ends its viability. */
  lemma {:induction false} DeadEnd(neg: bool, r: string)
    requires BadEnd(r) && (neg || r[0] != '-')
    ensures !Viable(SignText(neg) + r)
  {
    forall p: Pieces | p.InGrammar() ensures !(SignText(neg) + r <= p.Text()) { NoSuchNumber(p, neg, r); }
  }

  lemma {:induction false} StripSign(neg: bool, a: string, b: string)
    requires SignText(neg) + a <= SignText(neg) + b
    ensures a <= b
  {
    var s := SignText(neg);
    forall i | 0 <= i < |a| ensures a[i] == b[i] {
      assert (s + a)[|s| + i] == a[i] && (s + b)[|s| + i] == b[i];
    }
  }

  lemma {:induction false} IntegerPartStops(rest: string, start: nat)
    requires IntegerPart(rest, start).Ok?
    ensures var n := |IntegerPart(rest, start).value|; n < |rest| ==> !IsDigit(rest[n])
  {
  }

  /** Where the digits of a number could have gone on, and did not. */
  ghost predicate StopsAt(neg: bool, rest: string, k: nat) {
    k < |rest| && BadEnd(rest[..k + 1]) && Viable(SignText(neg) + rest[..k])
  }

  lemma {:induction false} EndsBadly(rest: string, k: nat, j: nat)
    requires k < |rest| && !IsDigit(rest[k]) && (rest[k] != '.' || (j < k && rest[j] == '.'))
    ensures BadEnd(rest[..k + 1])
  {
    var r := rest[..k + 1];
    assert r[k] == rest[k] && (j < k ==> r[j] == rest[j]);
  }

  lemma {:induction false} IntegerStops(neg: bool, rest: string, start: nat)
    requires IntegerPart(rest, start) == Err(InvalidByte(start))
    ensures StopsAt(neg, rest, 0)
  {
    var p := Pieces(neg, "1", "");
    EndsBadly(rest, 0, 0);
    assert p.InGrammar() && SignText(neg) + rest[..0] <= p.Text();
  }

  lemma {:induction false} AfterIntegerStops(neg: bool, rest: string, ip: string)
    requires Canonical(ip) && |ip| < |rest| && rest[..|ip|] == ip && !IsDigit(rest[|ip|]) && rest[|ip|] != '.'
    ensures StopsAt(neg, rest, |ip|)
  {
    var p := Pieces(neg, ip, "");
    EndsBadly(rest, |ip|, 0);
    assert p.InGrammar() && p.Text() == SignText(neg) + rest[..|ip|];
  }

  lemma {:induction false} InFractionStops(neg: bool, rest: string, ip: string, count: nat)
    requires Canonical(ip) && |ip| < |rest| && rest[..|ip|] == ip && rest[|ip|] == '.'
    requires count == LeadingDigits(rest[|ip| + 1..]) && |ip| + 1 + count < |rest|
    ensures StopsAt(neg, rest, |ip| + 1 + count)
  {
    var k, after := |ip| + 1 + count, rest[|ip|..];
    assert after[1..] == rest[|ip| + 1..];
    assert rest[k] == rest[|ip| + 1..][count];
    EndsBadly(rest, k, |ip|);
    FractionPrefix(neg, ip, after, count);
    assert rest[..k] == ip + after[..count + 1];
  }

  /** Where a byte error after the integer part sits. */
  function StopOf(after: string): nat {
    if after != "" && after[0] == '.' then 1 + LeadingDigits(after[1..]) else 0
  }

  lemma {:induction false} FractionFails(after: string, start: nat, at: nat)
    requires var f := FractionPart(after, start); f == Err(InvalidByte(at)) || f == Err(ExponentNotation(at))
    ensures StopOf(after) < |after| && at == start + StopOf(after)
  {
  }

  lemma {:induction false} Rejoined(a: string, b: string, s: string)
    requires b != "" && s == a + b
    ensures s[..|a|] == a && s[|a|] == b[0] && s[|a| + 1..] == b[1..]
  {
  }

  lemma {:induction false} FractionStops(neg: bool, rest: string, ip: string, after: string)
    requires Canonical(ip) && rest == ip + after && StopOf(after) < |after| && !IsDigit(after[0])
    ensures StopsAt(neg, rest, |ip| + StopOf(after))
  {
    Rejoined(ip, after, rest);
    if after[0] == '.' {
      InFractionStops(neg, rest, ip, LeadingDigits(after[1..]));
    } else {
      AfterIntegerStops(neg, rest, ip);
    }
  }

  /** The same for the whole of what follows the sign. */
  lemma {:induction false} DigitsStop(neg: bool, rest: string, start: nat, at: nat) returns (k: nat)
    requires var ip := IntegerPart(rest, start);
             if ip.Err? then ip.error == InvalidByte(at)
             else
               var f := FractionPart(rest[|ip.value|..], start + |ip.value|);
               f == Err(InvalidByte(at)) || f == Err(ExponentNotation(at))
    ensures StopsAt(neg, rest, k) && at == start + k
  {
    var ip := IntegerPart(rest, start);
    if ip.Err? {
      k := 0;
      IntegerStops(neg, rest, start);
    } else {
      k := FractionStop(neg, rest, start, at, ip.value);
    }
  }

  lemma {:induction false} FractionStop(neg: bool, rest: string, start: nat, at: nat, ip: string) returns (k: nat)
    requires IntegerPart(rest, start) == Ok(ip)
    requires var f := FractionPart(rest[|ip|..], start + |ip|);
             f == Err(InvalidByte(at)) || f == Err(ExponentNotation(at))
    ensures StopsAt(neg, rest, k) && at == start + k
  {
    var after := rest[|ip|..];
    IntegerPartStops(rest, start);
    FractionFails(after, start + |ip|, at);
    k := |ip| + StopOf(after);
    assert rest == ip + after && after[0] == rest[|ip|];
    FractionStops(neg, rest, ip, after);
  }

  lemma {:induction false} FractionPrefix(neg: bool, ip: string, after: string, count: nat)
    requires Canonical(ip) && after != "" && after[0] == '.' && count == LeadingDigits(after[1..])
    ensures Viable(SignText(neg) + (ip + after[..count + 1]))
  {
    var fp := after[1..][..count] + "0";
    var p := Pieces(neg, ip, fp);
    assert after[..count + 1] + "0" == "." + fp;
    assert p.Text() == SignText(neg) + (ip + after[..count + 1]) + "0";
    assert p.InGrammar();
  }

  lemma {:induction false} SignedSlice(neg: bool, rest: string, k: nat)
    requires k <= |rest|
    ensures (SignText(neg) + rest)[..|SignText(neg)| + k] == SignText(neg) + rest[..k]
  {
  }

  lemma {:induction false} SignedStop(s: string, neg: bool, rest: string, k: nat)
    requires s == SignText(neg) + rest && StopsAt(neg, rest, k) && (neg || rest[0] != '-')
    ensures var at := |SignText(neg)| + k; at < |s| && Viable(s[..at]) && !Viable(s[..at + 1])
  {
    assert neg || rest[..k + 1][0] != '-';
    DeadEnd(neg, rest[..k + 1]);
    SignedSlice(neg, rest, k);
    SignedSlice(neg, rest, k + 1);
  }

  lemma {:induction false} ReadStops(s: string, at: nat) returns (neg: bool, rest: string, k: nat)
    requires s != "" && (Read(s) == Err(InvalidByte(at)) || Read(s) == Err(ExponentNotation(at)))
    ensures s == SignText(neg) + rest && StopsAt(neg, rest, k) && at == |SignText(neg)| + k
    ensures neg || rest[0] != '-'
  {
    neg := s[0] == '-';
    rest := s[|SignText(neg)|..];
    SignSplits(s, neg, rest);
    k := DigitsStop(neg, rest, |SignText(neg)|, at);
  }

  lemma {:induction false} SignSplits(s: string, neg: bool, rest: string)
    requires s != "" && neg == (s[0] == '-') && rest == s[|SignText(neg)|..]
    ensures s == SignText(neg) + rest && (neg || rest[0] != '-')
  {
  }

  lemma {:induction false} ReadOffset(s: string, at: nat)
    requires s != "" && (Read(s) == Err(InvalidByte(at)) || Read(s) == Err(ExponentNotation(at)))
    ensures at < |s| && Viable(s[..at]) && !Viable(s[..at + 1])
  {
    var neg, rest, k := ReadStops(s, at);
    SignedStop(s, neg, rest, k);
  }

  /** The offset of a byte error is where the string stops being the beginning of any number. */
  lemma {:induction false} OffsetIsFirstBadByte(asset: string, s: string, at: nat)
    requires Parse(asset, s) == Err(InvalidByte(at)) || Parse(asset, s) == Err(ExponentNotation(at))
    ensures at < |s| && Viable(s[..at]) && !Viable(s[..at + 1])
  {
    ReadOffset(s, at);
  }
}
