/** RFC 3339 timestamps as instants: the validator of core/wire/src/observation.rs, the parser of
    core/host/src/time.rs and the printer of adapters/bitcoin/src/map.rs. */
module Instants {
  import opened Base
  import opened Digits
  import opened Calendar

  datatype Moment = Moment(secs: int, nanos: nat)

  predicate AtOrAfter(a: Moment, b: Moment) {
    a.secs > b.secs || (a.secs == b.secs && a.nanos >= b.nanos)
  }

  function Number(s: string): Option<nat> {
    if s == "" || !AllDigits(s) then None else Some(Value(s))
  }

  /** `number(b.get(from..to)?)?` */
  function Field(b: string, from: nat, to: nat): Option<nat>
    requires from <= to
  {
    if to <= |b| then Number(b[from..to]) else None
  }

  /** End of the digit run that starts at `i`. */
  function RunEnd(b: string, i: nat): (end: nat)
    requires i <= |b|
    ensures i <= end <= |b| && AllDigits(b[i..end]) && (end < |b| ==> !IsDigit(b[end]))
    decreases |b| - i
  {
    if i < |b| && IsDigit(b[i]) then
      var end := RunEnd(b, i + 1);
      assert b[i..end] == [b[i]] + b[i + 1..end];
      end
    else i
  }

  predicate AllZero(s: string) { forall i :: 0 <= i < |s| ==> s[i] == '0' }

  /** Nanoseconds of a fraction: nine digits, zero-padded on the right. */
  function Nanos(frac: string): nat
    requires AllDigits(frac)
  {
    if |frac| >= 9 then Value(frac[..9]) else Value(frac + Zeros(9 - |frac|))
  }

  /** End of the fraction and its nanoseconds, or `None` for an empty or sub-nanosecond one. */
  function Fraction(b: string): Option<(nat, nat)> {
    if |b| > 19 && b[19] == '.' then
      var end := RunEnd(b, 20);
      if end == 20 || (end > 29 && !AllZero(b[29..end])) then None
      else Some((end, Nanos(b[20..end])))
    else Some((19, 0))
  }

  function Offset(b: string, i: nat): Option<int> {
    if i < |b| && (b[i] == 'Z' || b[i] == 'z') then Some(0)
    else if i < |b| && (b[i] == '+' || b[i] == '-') then
      var h, m := Field(b, i + 1, i + 3), Field(b, i + 4, i + 6);
      if h.None? || m.None? then None
      else
        var magnitude := h.value * 3600 + m.value * 60;
        Some(if b[i] == '+' then magnitude else -magnitude)
    else None
  }

  datatype Parsed = Parsed(date: Date, hour: nat, minute: nat, second: nat, nanos: nat, offset: int)

  /** Every field of the text, or `None` if one of them is not there. */
  function Parse(b: string): Option<Parsed> {
    var year, month, day := Field(b, 0, 4), Field(b, 5, 7), Field(b, 8, 10);
    var hour, minute, second := Field(b, 11, 13), Field(b, 14, 16), Field(b, 17, 19);
    if year.None? || month.None? || day.None? || hour.None? || minute.None? || second.None? then None
    else
      var fraction := Fraction(b);
      if fraction.None? then None
      else
        var offset := Offset(b, fraction.value.0);
        if offset.None? then None
        else Some(Parsed(Date(year.value, month.value, day.value), hour.value, minute.value, second.value,
                         fraction.value.1, offset.value))
  }

  /** Refuses a leap second, and a date that does not survive the round trip. */
  function Locate(p: Parsed): Option<Moment> {
    var days := DaysFromCivil(p.date);
    if p.second == 60 || CivilFromDays(days) != p.date then None
    else Some(Moment(days * 86400 + p.hour * 3600 + p.minute * 60 + p.second - p.offset, p.nanos))
  }

  /** The instant a timestamp names, or `None` when this clock has no slot for it. */
  function Instant(b: string): Option<Moment> {
    var p := Parse(b);
    if p.None? then None else Locate(p.value)
  }

  // ----- the scanning loops --------------------------------------------------------------

  method ParseNumber(bytes: string) returns (n: Option<nat>)
    ensures n == Number(bytes)
  {
    if bytes == "" || !AllDigits(bytes) {
      return None;
    }
    var acc := 0;
    for i := 0 to |bytes|
      invariant acc == Value(bytes[..i])
    {
      assert bytes[..i + 1][..i] == bytes[..i];
      acc := acc * 10 + DigitValue(bytes[i]);
    }
    assert bytes[..|bytes|] == bytes;
    n := Some(acc);
  }

  /** The fraction scan: finds the run, rejects digits past the ninth, accumulates nine slots. */
  method ParseFraction(b: string) returns (r: Option<(nat, nat)>)
    ensures r == Fraction(b)
  {
    var i := 19;
    if !(i < |b| && b[i] == '.') {
      return Some((i, 0));
    }
    i := 20;
    var start := i;
    while i < |b| && IsDigit(b[i])
      invariant 20 <= i <= |b|
      invariant RunEnd(b, 20) == RunEnd(b, i)
      invariant AllDigits(b[20..i])
    {
      assert b[20..i + 1] == b[20..i] + [b[i]];
      i := i + 1;
    }
    if i == start {
      return None;
    }
    if start + 9 < i && !AllZero(b[start + 9..i]) {
      return None;
    }
    var nanos := NineSlots(b[start..i]);
    r := Some((i, nanos));
  }

  /** Nine digits of resolution, zero-padded on the right. */
  method NineSlots(frac: string) returns (nanos: nat)
    requires AllDigits(frac)
    ensures nanos == Nanos(frac)
  {
    ghost var padded := frac + Zeros(if |frac| < 9 then 9 - |frac| else 0);
    nanos := 0;
    for slot := 0 to 9
      invariant nanos == Value(padded[..slot])
    {
      assert padded[..slot + 1][..slot] == padded[..slot];
      nanos := nanos * 10 + if slot < |frac| then DigitValue(frac[slot]) else 0;
    }
    assert padded[..9] == if |frac| >= 9 then frac[..9] else frac + Zeros(9 - |frac|);
  }

  // ----- the validator -------------------------------------------------------------------

  function TwoDigits(b: string, at: nat): Option<nat> {
    if at + 1 < |b| && IsDigit(b[at]) && IsDigit(b[at + 1])
    then Some(DigitValue(b[at]) * 10 + DigitValue(b[at + 1])) else None
  }

  predicate InRange(n: Option<nat>, lo: nat, hi: nat) { n.Some? && lo <= n.value <= hi }

  /** `validate_rfc3339`: shape and plausible ranges, not calendar correctness. */
  predicate Validate(b: string) {
    && |b| >= 20
    && AllDigits(b[0..4]) && b[4] == '-'
    && InRange(TwoDigits(b, 5), 1, 12) && b[7] == '-'
    && InRange(TwoDigits(b, 8), 1, 31) && (b[10] == 'T' || b[10] == 't')
    && InRange(TwoDigits(b, 11), 0, 23) && b[13] == ':'
    && InRange(TwoDigits(b, 14), 0, 59) && b[16] == ':'
    && InRange(TwoDigits(b, 17), 0, 60)
    && (b[19] == '.' ==> RunEnd(b, 20) > 20)
    && ValidTail(b, if b[19] == '.' then RunEnd(b, 20) else 19)
  }

  predicate ValidTail(b: string, i: nat) {
    && i < |b|
    && (if b[i] == 'Z' || b[i] == 'z' then i + 1 == |b|
        else
          && (b[i] == '+' || b[i] == '-')
          && InRange(TwoDigits(b, i + 1), 0, 23)
          && i + 6 == |b| && b[i + 3] == ':'
          && InRange(TwoDigits(b, i + 4), 0, 59))
  }

  lemma {:induction false} TwoDigitField(b: string, at: nat)
    ensures at + 1 < |b| ==> Field(b, at, at + 2) == TwoDigits(b, at)
  {
    if at + 1 < |b| {
      var s := b[at..at + 2];
      assert s[0] == b[at] && s[1] == b[at + 1];
      if AllDigits(s) {
        assert s[..1] == [b[at]] && [b[at]][..0] == "";
        assert Value([b[at]]) == DigitValue(b[at]);
        assert IsDigit(s[0]) && IsDigit(s[1]);
      }
    }
  }

  /** The calendar date a validated timestamp spells. */
  function SpelledDate(b: string): Date
    requires Validate(b)
  {
    Date(Value(b[0..4]), TwoDigits(b, 5).value, TwoDigits(b, 8).value)
  }

  /** Where the offset begins: after the fraction, if there is one. */
  function TailAt(b: string): nat
    requires |b| > 19
  {
    if b[19] == '.' then RunEnd(b, 20) else 19
  }

  /** The digits after the point. */
  function FractionText(b: string): (s: string)
    requires |b| > 19
    ensures AllDigits(s)
  {
    if b[19] == '.' then b[20..TailAt(b)] else ""
  }

  predicate FractionFits(b: string)
    requires |b| > 19
  {
    |FractionText(b)| <= 9 || AllZero(FractionText(b)[9..])
  }

  /** How far local time runs ahead of UTC, in seconds. */
  function SpelledOffset(b: string): int
    requires Validate(b)
  {
    var i := TailAt(b);
    if b[i] == 'Z' || b[i] == 'z' then 0
    else
      var ahead := TwoDigits(b, i + 1).value * 3600 + TwoDigits(b, i + 4).value * 60;
      if b[i] == '+' then ahead else -ahead
  }

  /** Whole seconds since the epoch, in UTC. */
  function SpelledSeconds(b: string): int
    requires Validate(b)
  {
    DaysFromCivil(SpelledDate(b)) * 86400 + TwoDigits(b, 11).value * 3600 + TwoDigits(b, 14).value * 60
    + TwoDigits(b, 17).value - SpelledOffset(b)
  }

  lemma {:induction false} FractionRead(b: string)
    requires Validate(b)
    ensures Fraction(b).Some? <==> FractionFits(b)
    ensures Fraction(b).Some? ==> Fraction(b) == Some((TailAt(b), Nanos(FractionText(b))))
  {
    if b[19] == '.' {
      var end := RunEnd(b, 20);
      assert end > 29 ==> b[20..end][9..] == b[29..end];
    } else {
      ZerosWorthNothing(9);
      assert "" + Zeros(9) == Zeros(9);
    }
  }

  lemma {:induction false} OffsetRead(b: string)
    requires Validate(b)
    ensures Offset(b, TailAt(b)) == Some(SpelledOffset(b))
  {
    TwoDigitField(b, TailAt(b) + 1);
    TwoDigitField(b, TailAt(b) + 4);
  }

  /** Every field of a validated timestamp is read as it is spelled. */
  lemma {:induction false} ParseValid(b: string)
    requires Validate(b)
    ensures Parse(b) == if FractionFits(b)
                        then Some(Parsed(SpelledDate(b), TwoDigits(b, 11).value, TwoDigits(b, 14).value,
                                         TwoDigits(b, 17).value, Nanos(FractionText(b)), SpelledOffset(b)))
                        else None
  {
    TwoDigitField(b, 5);
    TwoDigitField(b, 8);
    TwoDigitField(b, 11);
    TwoDigitField(b, 14);
    TwoDigitField(b, 17);
    FractionRead(b);
    OffsetRead(b);
  }

  lemma {:induction false} LocateIs(p: Parsed)
    requires 1 <= p.date.month <= 12
    ensures Locate(p) ==
              if p.second != 60 && Real(p.date)
              then
                var seconds := DaysFromCivil(p.date) * 86400 + p.hour * 3600 + p.minute * 60 + p.second;
                Some(Moment(seconds - p.offset, p.nanos))
              else None
  {
    RoundTripIffReal(p.date);
  }

  /** This clock has a slot for the time: no leap second, a day its month has, no finer than a
      nanosecond. */
  predicate Orderable(b: string)
    requires Validate(b)
  {
    TwoDigits(b, 17).value != 60 && Real(SpelledDate(b)) && FractionFits(b)
  }

  /** A validated timestamp has an instant exactly when it is orderable, and then it is the one its date,
      time of day, fraction and offset spell. */
  lemma {:induction false} InstantDefinedIff(b: string)
    requires Validate(b)
    ensures Instant(b) == if Orderable(b) then Some(Moment(SpelledSeconds(b), Nanos(FractionText(b)))) else None
  {
    ParseValid(b);
    if FractionFits(b) {
      LocateIs(Parse(b).value);
    }
  }

  /** The fraction is carried exactly: `nanos / 10^9` is the worth of the digits after the point. */
  lemma {:induction false} NanosExact(frac: string)
    requires AllDigits(frac)
    requires |frac| <= 9 || AllZero(frac[9..])
    ensures Nanos(frac) * Pow10(|frac|) == Value(frac) * Pow10(9)
  {
    if |frac| < 9 {
      ScaleUp(frac, 9 - |frac|);
    } else {
      var tail := frac[9..];
      assert frac == frac[..9] + tail;
      assert tail == Zeros(|tail|);
      ScaleUp(frac[..9], |tail|);
    }
  }

  lemma {:induction false} ScaleUp(s: string, k: nat)
    requires AllDigits(s)
    ensures AllDigits(s + Zeros(k))
    ensures Value(s + Zeros(k)) * Pow10(|s|) == Value(s) * Pow10(|s| + k)
  {
    ZeroExtends(s, k);
    Pow10Sum(k, |s|);
    Rescale(Value(s + Zeros(k)), Value(s), Pow10(k), Pow10(|s|), Pow10(|s| + k));
  }

  lemma {:induction false} Rescale(x: int, v: int, p: int, q: int, r: int)
    requires x == v * p && r == p * q
    ensures x * q == v * r
  {
    assert (v * p) * q == v * (p * q);
  }

  // ----- time as a number ----------------------------------------------------------------

  const BILLION: int := 1000000000

  /** Seconds since the epoch, exactly. */
  ghost function Time(b: string): real
    requires Validate(b)
  {
    SpelledSeconds(b) as real + Value(FractionText(b)) as real / Pow10(|FractionText(b)|) as real
  }

  ghost function MomentTime(m: Moment): real { m.secs as real + m.nanos as real / BILLION as real }

  lemma {:induction false} NineZeros()
    ensures Pow10(9) == BILLION
  {
    Pow10Sum(4, 5);
    assert Pow10(4) == 10000 && Pow10(5) == 100000;
  }

  lemma {:induction false} CrossRatio(n: nat, q: int, v: nat, p: int)
    requires q > 0 && p > 0 && n * p == v * q
    ensures n as real / q as real == v as real / p as real
  {
    assert (n * p) as real == n as real * p as real && (v * q) as real == v as real * q as real;
    assert (n as real / q as real) * q as real == n as real;
    assert (v as real / p as real) * p as real == v as real;
  }

  lemma {:induction false} NanosBelowBillion(frac: string)
    requires AllDigits(frac)
    ensures Nanos(frac) < BILLION
  {
    NineZeros();
    ValueBounded(if |frac| >= 9 then frac[..9] else frac + Zeros(9 - |frac|));
  }

  /** The instant of an orderable timestamp is its time, to the last digit. */
  lemma {:induction false} InstantIsTime(b: string, m: Moment)
    requires Validate(b) && Instant(b) == Some(m)
    ensures MomentTime(m) == Time(b) && m.nanos < BILLION
  {
    InstantDefinedIff(b);
    var frac := FractionText(b);
    NanosExact(frac);
    NanosBelowBillion(frac);
    NineZeros();
    CrossRatio(Nanos(frac), BILLION, Value(frac), Pow10(|frac|));
  }

  /** The pairs are compared as the numbers they stand for. */
  lemma {:induction false} MomentsInOrder(a: Moment, b: Moment)
    requires a.nanos < BILLION && b.nanos < BILLION
    ensures AtOrAfter(a, b) <==> MomentTime(a) >= MomentTime(b)
  {
    var x, y := a.nanos as real / BILLION as real, b.nanos as real / BILLION as real;
    assert 0.0 <= x < 1.0 && 0.0 <= y < 1.0;
    assert a.nanos >= b.nanos <==> x >= y;
  }

  // ----- printing ------------------------------------------------------------------------

  /** `{n:0w}`: zero-padded to a width that includes the sign. */
  function Padded(n: int, w: nat): string {
    var digits := Decimal(if n < 0 then -n else n);
    var width := if n < 0 && w > 0 then w - 1 else w;
    (if n < 0 then "-" else "") + PadLeft(digits, width)
  }

  function Stamp(c: Date, secs: nat): string {
    Padded(c.year, 4) + "-" + Padded(c.month, 2) + "-" + Padded(c.day, 2) + "T"
    + Padded(secs / 3600, 2) + ":" + Padded((secs % 3600) / 60, 2) + ":" + Padded(secs % 60, 2) + "Z"
  }

  /** `rfc3339_utc`: the formatted text if the validator accepts it. */
  function Rfc3339Utc(unixSecs: int): Option<string> {
    var text := Stamp(CivilFromDaysAdapter(unixSecs / 86400), unixSecs % 86400);
    if Validate(text) then Some(text) else None
  }

  lemma {:induction false} PaddedFits(n: nat, w: nat)
    requires w >= 1 && n < Pow10(w)
    ensures |Padded(n, w)| == w && AllDigits(Padded(n, w)) && Value(Padded(n, w)) == n
  {
    DecimalLength(n, w);
    DecimalValue(n);
    PadLeftFits(Decimal(n), w);
    assert Padded(n, w) == PadLeft(Decimal(n), w);
  }

  lemma {:induction false} TwoWide(n: nat)
    requires n < 100
    ensures |Padded(n, 2)| == 2 && AllDigits(Padded(n, 2))
    ensures TwoDigits(Padded(n, 2), 0) == Some(n)
  {
    assert Pow10(2) == 10 * Pow10(1) && Pow10(1) == 10 * Pow10(0);
    PaddedFits(n, 2);
    TwoDigitField(Padded(n, 2), 0);
    assert Padded(n, 2)[0..2] == Padded(n, 2);
  }

  /** Where each field of a stamp with a four-digit year ends up. */
  lemma {:induction false} Layout(y: string, mo: string, d: string, h: string, mi: string, s: string)
    requires |y| == 4 && |mo| == |d| == |h| == |mi| == |s| == 2
    ensures var b := y + "-" + mo + "-" + d + "T" + h + ":" + mi + ":" + s + "Z";
            && |b| == 20 && b[0..4] == y && b[4] == '-' && b[7] == '-' && b[10] == 'T'
            && b[13] == ':' && b[16] == ':' && b[19] == 'Z'
            && b[5] == mo[0] && b[6] == mo[1] && b[8] == d[0] && b[9] == d[1]
            && b[11] == h[0] && b[12] == h[1] && b[14] == mi[0] && b[15] == mi[1]
            && b[17] == s[0] && b[18] == s[1]
  {
  }

  lemma {:induction false} Spells(b: string, at: nat, two: string, n: nat)
    requires |two| == 2 && TwoDigits(two, 0) == Some(n) && at + 1 < |b| && b[at] == two[0] && b[at + 1] == two[1]
    ensures TwoDigits(b, at) == Some(n)
  {
  }

  lemma {:induction false} SpellsAll(b: string, y: string, c: Date, h: nat, m: nat, s: nat)
    requires |b| == 20 && b[0..4] == y && |y| == 4 && AllDigits(y) && Value(y) == c.year
    requires b[4] == '-' && b[7] == '-' && b[10] == 'T' && b[13] == ':' && b[16] == ':' && b[19] == 'Z'
    requires TwoDigits(b, 5) == Some(c.month) && TwoDigits(b, 8) == Some(c.day) && Real(c)
    requires TwoDigits(b, 11) == Some(h) && TwoDigits(b, 14) == Some(m) && TwoDigits(b, 17) == Some(s)
    requires h <= 23 && m <= 59 && s <= 59
    ensures Validate(b) && SpelledDate(b) == c
  {
  }

  /** The six pieces of a stamp, laid out. */
  lemma {:induction false} PiecesLaidOut(b: string, y: string, c: Date, h: nat, m: nat, s: nat)
    requires |y| == 4 && AllDigits(y) && Value(y) == c.year && Real(c) && h <= 23 && m <= 59 && s <= 59
    requires b == y + "-" + Padded(c.month, 2) + "-" + Padded(c.day, 2) + "T"
                  + Padded(h, 2) + ":" + Padded(m, 2) + ":" + Padded(s, 2) + "Z"
    ensures |b| == 20 && b[19] == 'Z' && Validate(b) && SpelledDate(b) == c
    ensures TwoDigits(b, 11) == Some(h) && TwoDigits(b, 14) == Some(m) && TwoDigits(b, 17) == Some(s)
  {
    var mo, d, hh, mm, ss := Padded(c.month, 2), Padded(c.day, 2), Padded(h, 2), Padded(m, 2), Padded(s, 2);
    TwoWide(c.month);
    TwoWide(c.day);
    TwoWide(h);
    TwoWide(m);
    TwoWide(s);
    Layout(y, mo, d, hh, mm, ss);
    Spells(b, 5, mo, c.month);
    Spells(b, 8, d, c.day);
    Spells(b, 11, hh, h);
    Spells(b, 14, mm, m);
    Spells(b, 17, ss, s);
    SpellsAll(b, y, c, h, m, s);
  }

  lemma {:induction false} StampLayout(c: Date, secs: nat)
    requires Real(c) && 0 <= c.year <= 9999 && secs < 86400
    ensures var b := Stamp(c, secs);
            && Validate(b)
            && |b| == 20 && b[19] == 'Z'
            && SpelledDate(b) == c
            && TwoDigits(b, 11) == Some(secs / 3600)
            && TwoDigits(b, 14) == Some((secs % 3600) / 60)
            && TwoDigits(b, 17) == Some(secs % 60)
  {
    TenThousand();
    PaddedFits(c.year, 4);
    PiecesLaidOut(Stamp(c, secs), Padded(c.year, 4), c, secs / 3600, (secs % 3600) / 60, secs % 60);
  }

  lemma {:induction false} TenThousand()
    ensures Pow10(4) == 10000
  {
    assert Pow10(2) == 100;
    assert Pow10(3) == 1000;
  }

  /** A timestamp is printable exactly when its year is 0000..9999 ... */
  lemma {:induction false} PrintableIff(unixSecs: int)
    ensures Rfc3339Utc(unixSecs).Some? <==> 0 <= CivilFromDays(unixSecs / 86400).year <= 9999
  {
    var days, secs := unixSecs / 86400, unixSecs % 86400;
    CopiesAgree(days);
    CivilOfDaysIsReal(days);
    var c := CivilFromDays(days);
    if 0 <= c.year <= 9999 {
      StampLayout(c, secs);
    } else {
      WideYearRejected(c, secs);
    }
  }

  /** Every printed second takes the same room. */
  lemma {:induction false} PrintedLength(unixSecs: int)
    requires Rfc3339Utc(unixSecs).Some?
    ensures Validate(Rfc3339Utc(unixSecs).value) && |Rfc3339Utc(unixSecs).value| == 20
  {
    PrintableIff(unixSecs);
    var days, secs := unixSecs / 86400, unixSecs % 86400;
    CopiesAgree(days);
    CivilOfDaysIsReal(days);
    StampLayout(CivilFromDays(days), secs);
  }

  lemma {:induction false} WideYearRejected(c: Date, secs: nat)
    requires !(0 <= c.year <= 9999)
    ensures !Validate(Stamp(c, secs))
  {
    var b := Stamp(c, secs);
    var y := Padded(c.year, 4);
    assert b[..|y|] == y;
    if c.year < 0 {
      assert y[0] == '-';
      assert b[0] == '-';
      assert |b| >= 4 ==> b[0..4][0] == '-';
    } else {
      TenThousand();
      DecimalLength(c.year, 4);
      assert y == Decimal(c.year);
      assert b[4] == y[4];
    }
  }

  lemma {:induction false} ParseUtc(b: string)
    requires Validate(b) && |b| == 20 && b[19] == 'Z'
    ensures Parse(b) == Some(Parsed(SpelledDate(b), TwoDigits(b, 11).value, TwoDigits(b, 14).value,
                                    TwoDigits(b, 17).value, 0, 0))
  {
    TwoDigitField(b, 5);
    TwoDigitField(b, 8);
    TwoDigitField(b, 11);
    TwoDigitField(b, 14);
    TwoDigitField(b, 17);
    assert Fraction(b) == Some((19, 0)) && Offset(b, 19) == Some(0);
  }

  lemma {:induction false} LocateReal(c: Date, days: int, hour: nat, minute: nat, second: nat)
    requires Real(c) && DaysFromCivil(c) == days && second < 60
    ensures Locate(Parsed(c, hour, minute, second, 0, 0))
            == Some(Moment(days * 86400 + hour * 3600 + minute * 60 + second, 0))
  {
    RealDateRoundTrips(c);
  }

  lemma {:induction false} SplitOfDay(secs: nat)
    ensures secs / 3600 * 3600 + (secs % 3600) / 60 * 60 + secs % 60 == secs
  {
    assert (secs % 3600) % 60 == secs % 60 by {
      assert secs == 60 * (60 * (secs / 3600) + (secs % 3600) / 60) + (secs % 3600) % 60;
    }
  }

  lemma {:induction false} StampParses(c: Date, secs: nat)
    requires Real(c) && 0 <= c.year <= 9999 && secs < 86400
    ensures Parse(Stamp(c, secs)) == Some(Parsed(c, secs / 3600, (secs % 3600) / 60, secs % 60, 0, 0))
  {
    StampLayout(c, secs);
    ParseUtc(Stamp(c, secs));
  }

  lemma {:induction false} StampInstant(c: Date, days: int, secs: nat, unixSecs: int)
    requires Real(c) && DaysFromCivil(c) == days && 0 <= c.year <= 9999 && secs < 86400
    requires unixSecs == days * 86400 + secs
    ensures Instant(Stamp(c, secs)) == Some(Moment(unixSecs, 0))
  {
    StampParses(c, secs);
    SplitOfDay(secs);
    LocateReal(c, days, secs / 3600, (secs % 3600) / 60, secs % 60);
  }

  lemma {:induction false} UtcText(unixSecs: int, c: Date)
    requires c == CivilFromDays(unixSecs / 86400) && 0 <= c.year <= 9999
    ensures Real(c) && DaysFromCivil(c) == unixSecs / 86400
    ensures Rfc3339Utc(unixSecs) == Some(Stamp(c, unixSecs % 86400))
  {
    CopiesAgree(unixSecs / 86400);
    CivilOfDaysIsReal(unixSecs / 86400);
    StampLayout(c, unixSecs % 86400);
  }

  lemma {:induction false} StampNamesSecond(unixSecs: int, c: Date)
    requires Real(c) && DaysFromCivil(c) == unixSecs / 86400 && 0 <= c.year <= 9999
    ensures Instant(Stamp(c, unixSecs % 86400)) == Some(Moment(unixSecs, 0))
  {
    var days, secs := unixSecs / 86400, unixSecs % 86400;
    StampInstant(c, days, secs, unixSecs);
  }

  /** ... and reading it back gives the second it was printed from. */
  lemma {:induction false} PrintedInstant(unixSecs: int, text: string)
    requires Rfc3339Utc(unixSecs) == Some(text)
    ensures Instant(text) == Some(Moment(unixSecs, 0))
  {
    PrintableIff(unixSecs);
    var c := CivilFromDays(unixSecs / 86400);
    UtcText(unixSecs, c);
    StampNamesSecond(unixSecs, c);
  }
}
