/** The text forms of an instant: what `to_rfc3339` writes into the SQLite
    `created_at` column, what `parse_from_rfc3339` reads back, and the backup
    directory name made by `format_timestamp_dir`. */
module Rfc3339 {
  import opened ByteText
  import opened Calendar

  const MAX_YEAR: nat := 9999

  predicate FourDigitYear(t: Time) { DateOf(t).year <= MAX_YEAR }

  /** The first instant of the year 10000. */
  const END: nat := 3_652_425 * DAY

  lemma {:induction false} DaysBeforeYearClosed(y: nat)
    ensures DaysBeforeYear(y) == 365 * y + (y + 3) / 4 - (y + 99) / 100 + (y + 399) / 400
  {
    if y > 0 {
      var x := y - 1;
      DaysBeforeYearClosed(x);
      YearLengthClosed(x);
      assert DaysBeforeYear(y) == DaysBeforeYear(x) + (if Leap(x) then 366 else 365);
      LeapDays(x);
      assert (x + 4) / 4 == (y + 3) / 4 && (x + 100) / 100 == (y + 99) / 100 && (x + 400) / 400 == (y + 399) / 400;
    }
  }

  lemma YearLengthClosed(y: nat)
    ensures YearLength(y) == if Leap(y) then 366 else 365
  {
    assert DaysBeforeMonth(y, 2) == 31;
    assert DaysBeforeMonth(y, 4) == 62 + DaysInMonth(y, 2);
    assert DaysBeforeMonth(y, 6) == DaysBeforeMonth(y, 4) + 61;
    assert DaysBeforeMonth(y, 8) == DaysBeforeMonth(y, 6) + 61;
    assert DaysBeforeMonth(y, 10) == DaysBeforeMonth(y, 8) + 61;
    assert DaysBeforeMonth(y, 12) == DaysBeforeMonth(y, 10) + 61;
  }

  lemma LeapDays(y: nat)
    ensures (y + 4) / 4 - (y + 3) / 4 == (if y % 4 == 0 then 1 else 0)
    ensures (y + 100) / 100 - (y + 99) / 100 == (if y % 100 == 0 then 1 else 0)
    ensures (y + 400) / 400 - (y + 399) / 400 == (if y % 400 == 0 then 1 else 0)
    ensures (y % 100 == 0 ==> y % 4 == 0) && (y % 400 == 0 ==> y % 100 == 0)
  {
    RoundedUp(y, 4);
    RoundedUp(y, 100);
    RoundedUp(y, 400);
    if y % 100 == 0 { QuotientIs(y, 4, y / 100 * 25, 0); }
    if y % 400 == 0 { QuotientIs(y, 100, y / 400 * 4, 0); }
  }

  lemma RoundedUp(y: nat, d: nat)
    requires d > 0
    ensures (y + d) / d - (y + d - 1) / d == if y % d == 0 then 1 else 0
  {
    var q, r := y / d, y % d;
    assert y == q * d + r && (q + 1) * d == q * d + d;
    QuotientIs(y + d, d, q + 1, r);
    if r == 0 { QuotientIs(y + d - 1, d, q, d - 1); } else { QuotientIs(y + d - 1, d, q + 1, r - 1); }
  }

  lemma BeforeYear(d: Date, y: nat)
    requires ValidDate(d)
    ensures d.year < y <==> DayNumber(d) < DaysBeforeYear(y)
  {
    DayInYear(d);
    if d.year + 1 < y { YearsAddUp(d.year + 1, y); }
    if y < d.year { YearsAddUp(y, d.year); }
  }

  lemma BeforeYearClosed(d: Date, y: nat)
    requires ValidDate(d)
    ensures d.year < y <==> DayNumber(d) < 365 * y + (y + 3) / 4 - (y + 99) / 100 + (y + 399) / 400
  {
    BeforeYear(d, y);
    DaysBeforeYearClosed(y);
  }

  /** Years have four digits until the end of 9999, a bound on the clock itself. */
  lemma FourDigitYears(t: Time)
    ensures FourDigitYear(t) <==> t < END
  {
    DateOfCorrect(t);
    BeforeYearClosed(DateOf(t), MAX_YEAR + 1);
  }

  /** Date and time of day as numerals with the separators of section 5.6 of RFC 3339,
      `colon` standing where that section has ':'. */
  function DateTimeFields(t: Time, colon: string): seq<Field> {
    var c := CivilOf(t);
    [Field(4, c.date.year, "-"), Field(2, c.date.month, "-"), Field(2, c.date.day, "T"),
     Field(2, c.hour, colon), Field(2, c.minute, colon), Field(2, c.second, "")]
  }

  /** chrono signs years beyond 9999 and does not pad them. */
  function DateTimeText(t: Time): string {
    if FourDigitYear(t) then FieldsText(DateTimeFields(t, ":"))
    else "+" + Decimal(DateOf(t).year) + "-" + FieldsText(DateTimeFields(t, ":")[1..])
  }

  /** No fraction, or milliseconds, microseconds or nanoseconds: the shortest that is exact. */
  function FractionText(nano: nat): string {
    if nano == 0 then ""
    else if nano % 1_000_000 == 0 then "." + Fixed(3, nano / 1_000_000)
    else if nano % 1_000 == 0 then "." + Fixed(6, nano / 1_000)
    else "." + Fixed(9, nano)
  }

  function FractionLength(nano: nat): nat {
    if nano == 0 then 0 else if nano % 1_000_000 == 0 then 4 else if nano % 1_000 == 0 then 7 else 10
  }

  lemma FractionLengthCorrect(nano: nat)
    ensures |FractionText(nano)| == FractionLength(nano)
  {
  }

  const UTC_OFFSET := "+00:00"

  /** `DateTime<Utc>::to_rfc3339`. */
  function ToRfc3339(t: Time): string {
    DateTimeText(t) + FractionText(Nanos(t)) + UTC_OFFSET
  }

  /** `format_timestamp_dir`: whole seconds, `Z` for the offset, dashes for colons. */
  function FormatTimestampDir(t: Time): string {
    Replace(DateTimeText(t) + "Z", ':', '-')
  }

  // ----- byte order of the fraction and offset

  ghost predicate AllZero(gs: seq<nat>) { forall i :: 0 <= i < |gs| ==> gs[i] == 0 }

  ghost predicate SmallGroups(gs: seq<nat>) { forall i :: 0 <= i < |gs| ==> gs[i] < 1000 }

  /** Three-digit groups, trailing zero groups omitted, closed by the offset. */
  ghost function GroupsText(gs: seq<nat>): string {
    if AllZero(gs) then UTC_OFFSET else Fixed(3, gs[0]) + GroupsText(gs[1..])
  }

  ghost predicate GroupsLess(gs: seq<nat>, hs: seq<nat>)
    requires |gs| == |hs|
  {
    gs != [] && (gs[0] < hs[0] || (gs[0] == hs[0] && GroupsLess(gs[1..], hs[1..])))
  }

  lemma Pow10Three()
    ensures Pow10(3) == 1000 && Pow10(4) == 10000 && Pow10(2) == 100
  {
    assert Pow10(1) == 10;
    assert Pow10(2) == 100;
    assert Pow10(3) == 1000;
  }

  lemma {:induction false} ZeroIsLeast(gs: seq<nat>, hs: seq<nat>)
    requires |gs| == |hs| && AllZero(gs)
    ensures GroupsLess(gs, hs) <==> !AllZero(hs)
    ensures !GroupsLess(hs, gs)
  {
    if gs != [] {
      ZeroIsLeast(gs[1..], hs[1..]);
      assert AllZero(hs) <==> hs[0] == 0 && AllZero(hs[1..]) by { assert hs == [hs[0]] + hs[1..]; }
    }
  }

  /** An omitted group sorts below any written one because '+' sorts below every digit. */
  lemma {:induction false} GroupsOrder(gs: seq<nat>, hs: seq<nat>)
    requires |gs| == |hs| && SmallGroups(gs) && SmallGroups(hs)
    ensures Less(GroupsText(gs), GroupsText(hs)) <==> GroupsLess(gs, hs)
  {
    if AllZero(gs) && AllZero(hs) {
      ZeroIsLeast(gs, hs);
      LessIrreflexive(UTC_OFFSET);
    } else if AllZero(gs) {
      ZeroIsLeast(gs, hs);
      FixedAllDigits(3, hs[0], 0);
    } else if AllZero(hs) {
      ZeroIsLeast(hs, gs);
      FixedAllDigits(3, gs[0], 0);
    } else {
      Pow10Three();
      FixedOrder(3, gs[0], hs[0]);
      LessHeads(Fixed(3, gs[0]), Fixed(3, hs[0]), GroupsText(gs[1..]), GroupsText(hs[1..]));
      GroupsOrder(gs[1..], hs[1..]);
    }
  }

  ghost function Groups(nano: nat): seq<nat> {
    [nano / 1_000_000, nano / 1_000 % 1_000, nano % 1_000]
  }

  lemma GroupsTextCons(g: nat, gs: seq<nat>)
    ensures GroupsText([g] + gs) == if g == 0 && AllZero(gs) then UTC_OFFSET else Fixed(3, g) + GroupsText(gs)
  {
    var all := [g] + gs;
    assert all[1..] == gs;
    assert AllZero(all) <==> g == 0 && AllZero(gs) by {
      assert all[0] == g;
      assert forall i :: 0 <= i < |gs| ==> gs[i] == all[i + 1];
    }
  }

  lemma GroupsAreFraction(nano: nat)
    requires 0 < nano < SECOND
    ensures FractionText(nano) + UTC_OFFSET == "." + GroupsText(Groups(nano))
  {
    var ms, us, ns := nano / 1_000_000, nano / 1_000 % 1_000, nano % 1_000;
    ThreeGroups(nano);
    GroupsSpelled(ms, us, ns);
    FixedSplit3(6, nano);
    FixedSplit3(3, nano / 1_000);
  }

  lemma GroupsSpelled(ms: nat, us: nat, ns: nat)
    requires ms > 0 || us > 0 || ns > 0
    ensures GroupsText([ms, us, ns]) ==
            Fixed(3, ms) + (if us == 0 && ns == 0 then UTC_OFFSET
                            else Fixed(3, us) + (if ns == 0 then UTC_OFFSET else Fixed(3, ns) + UTC_OFFSET))
  {
    GroupsTextCons(ns, []);
    GroupsTextCons(us, [ns]);
    GroupsTextCons(ms, [us, ns]);
    assert [ns] + [] == [ns] && [us] + [ns] == [us, ns] && [ms] + [us, ns] == [ms, us, ns];
    assert AllZero([ns]) <==> ns == 0;
    assert AllZero([us, ns]) <==> us == 0 && ns == 0 by { assert [us, ns][0] == us && [us, ns][1] == ns; }
  }

  lemma GroupsArithmetic(m: nat, n: nat)
    ensures GroupsLess(Groups(m), Groups(n)) <==> m < n
  {
    var g, h := Groups(m), Groups(n);
    ThreeGroups(m);
    ThreeGroups(n);
    assert g[1..] == [g[1], g[2]] && h[1..] == [h[1], h[2]];
    assert g[1..][1..] == [g[2]] && h[1..][1..] == [h[2]];
    assert GroupsLess([g[2]], [h[2]]) <==> g[2] < h[2];
    MixedRadix(1_000, g[1], h[1], g[2], h[2]);
    MixedRadix(1_000_000, g[0], h[0], g[1] * 1_000 + g[2], h[1] * 1_000 + h[2]);
  }

  lemma ThreeGroups(n: nat)
    ensures n == n / 1_000_000 * 1_000_000 + (n / 1_000 % 1_000 * 1_000 + n % 1_000)
    ensures n / 1_000 % 1_000 * 1_000 + n % 1_000 < 1_000_000
    ensures n / 1_000 / 1_000 == n / 1_000_000
    ensures n % 1_000_000 == n / 1_000 % 1_000 * 1_000 + n % 1_000
  {
    var k := n / 1_000;
    QuotientIs(n, 1_000_000, k / 1_000, k % 1_000 * 1_000 + n % 1_000);
  }

  /** The variable-length fraction, closed by the offset, sorts by its value. */
  lemma FractionOrder(m: nat, n: nat)
    requires m < SECOND && n < SECOND
    ensures Less(FractionText(m) + UTC_OFFSET, FractionText(n) + UTC_OFFSET) <==> m < n
  {
    if m > 0 { GroupsAreFraction(m); }
    if n > 0 { GroupsAreFraction(n); }
    if m > 0 && n > 0 {
      LessHeads(".", ".", GroupsText(Groups(m)), GroupsText(Groups(n)));
      LessIrreflexive(".");
      GroupsOrder(Groups(m), Groups(n));
      GroupsArithmetic(m, n);
    } else if m == 0 && n == 0 {
      assert FractionText(m) + UTC_OFFSET == FractionText(n) + UTC_OFFSET == UTC_OFFSET;
      LessIrreflexive(UTC_OFFSET);
    } else if m == 0 {
      assert FractionText(m) + UTC_OFFSET == UTC_OFFSET;
    } else {
      assert FractionText(n) + UTC_OFFSET == UTC_OFFSET;
    }
  }

  // ----- byte order of the whole text

  lemma DateTimeFits(t: Time, colon: string)
    requires FourDigitYear(t)
    ensures Fits(DateTimeFields(t, colon))
  {
    CivilRoundTrip(t);
    Pow10Three();
  }

  lemma ValuesLessCons(fs: seq<Field>, gs: seq<Field>)
    requires |fs| == |gs| == 6
    ensures ValuesLess(fs, gs) <==>
            || fs[0].value < gs[0].value || (fs[0].value == gs[0].value
            && (fs[1].value < gs[1].value || (fs[1].value == gs[1].value
            && (fs[2].value < gs[2].value || (fs[2].value == gs[2].value
            && (fs[3].value < gs[3].value || (fs[3].value == gs[3].value
            && (fs[4].value < gs[4].value || (fs[4].value == gs[4].value
            && fs[5].value < gs[5].value)))))))))
  {
    var f1, g1 := fs[1..], gs[1..];
    var f2, g2 := f1[1..], g1[1..];
    var f3, g3 := f2[1..], g2[1..];
    var f4, g4 := f3[1..], g3[1..];
    var f5, g5 := f4[1..], g4[1..];
    assert f5[1..] == [] && g5[1..] == [];
    assert ValuesLess(f5, g5) <==> fs[5].value < gs[5].value;
    assert ValuesLess(f4, g4) <==> fs[4].value < gs[4].value || (fs[4].value == gs[4].value && ValuesLess(f5, g5));
    assert ValuesLess(f3, g3) <==> fs[3].value < gs[3].value || (fs[3].value == gs[3].value && ValuesLess(f4, g4));
    assert ValuesLess(f2, g2) <==> fs[2].value < gs[2].value || (fs[2].value == gs[2].value && ValuesLess(f3, g3));
    assert ValuesLess(f1, g1) <==> fs[1].value < gs[1].value || (fs[1].value == gs[1].value && ValuesLess(f2, g2));
  }

  /** The fields up to the seconds, then the nanoseconds, order instants. */
  lemma FieldsOrderInstants(t: Time, u: Time, colon: string)
    ensures t < u <==> var f, g := DateTimeFields(t, colon), DateTimeFields(u, colon);
                       ValuesLess(f, g) || (f == g && Nanos(t) < Nanos(u))
  {
    var f, g := DateTimeFields(t, colon), DateTimeFields(u, colon);
    var a, b := CivilOf(t), CivilOf(u);
    CivilOrder(t, u);
    NanoOfCivil(t);
    NanoOfCivil(u);
    ValuesLessCons(f, g);
    if a.date == b.date && a.hour == b.hour && a.minute == b.minute && a.second == b.second {
      assert f == g;
    }
    if f == g {
      assert forall i :: 0 <= i < 6 ==> f[i].value == g[i].value;
      assert f[0].value == g[0].value && f[1].value == g[1].value && f[2].value == g[2].value;
      assert f[3].value == g[3].value && f[4].value == g[4].value && f[5].value == g[5].value;
    }
  }

  lemma NanoOfCivil(t: Time)
    ensures CivilOf(t).nano == Nanos(t)
  {
    var r := t % DAY;
    DivideDay(r);
    var q := t / DAY * 86400 + r / HOUR * 3600 + r % HOUR / MINUTE * 60 + r % HOUR % MINUTE / SECOND;
    QuotientIs(t, SECOND, q, r % HOUR % MINUTE % SECOND);
  }

  /** Byte order of the stored text is time order, although the text has 25, 29, 32 or 35 bytes. */
  lemma TextOrderIsTimeOrder(t: Time, u: Time)
    requires FourDigitYear(t) && FourDigitYear(u)
    ensures Less(ToRfc3339(t), ToRfc3339(u)) <==> t < u
  {
    var f, g := DateTimeFields(t, ":"), DateTimeFields(u, ":");
    var x, y := FractionText(Nanos(t)) + UTC_OFFSET, FractionText(Nanos(u)) + UTC_OFFSET;
    DateTimeFits(t, ":");
    DateTimeFits(u, ":");
    FieldsOrder(f, g, x, y);
    FractionOrder(Nanos(t), Nanos(u));
    FieldsOrderInstants(t, u, ":");
    assert ToRfc3339(t) == FieldsText(f) + x && ToRfc3339(u) == FieldsText(g) + y;
  }

  /** Exactly one year of more than four digits reverses the order: its sign sorts below every digit. */
  lemma FiveDigitYearSortsFirst(t: Time, u: Time)
    requires FourDigitYear(t) && !FourDigitYear(u)
    ensures t < u && Less(ToRfc3339(u), ToRfc3339(t))
  {
    CivilOrder(t, u);
    var f := DateTimeFields(t, ":");
    FixedAllDigits(4, f[0].value, 0);
    assert FieldsText(f) == Fixed(4, f[0].value) + f[0].after + FieldsText(f[1..]);
  }

  /** The signed years of two instants, the earlier one `t`, sort in time order: the earlier year does not
      exceed the leading digits of the later one. */
  predicate YearsSort(t: Time, u: Time)
  {
    DateOf(t).year <= Leading(DateOf(t).year, DateOf(u).year)
  }

  lemma YearsGrow(t: Time, u: Time)
    requires t <= u
    ensures DateOf(t).year <= DateOf(u).year
  {
    CivilOrder(u, t);
  }

  /** Over all times: text order is time order exactly when both years have four digits, or both have more
      and sort as text. */
  lemma TextOrderIsTimeOrderExactlyWhen(t: Time, u: Time)
    requires t < u
    ensures Less(ToRfc3339(t), ToRfc3339(u)) <==> FourDigitYear(u) || (!FourDigitYear(t) && YearsSort(t, u))
  {
    CivilOrder(t, u);
    YearsGrow(t, u);
    if FourDigitYear(u) {
      TextOrderIsTimeOrder(t, u);
    } else if FourDigitYear(t) {
      FiveDigitYearSortsFirst(t, u);
      LessTotal(ToRfc3339(t), ToRfc3339(u));
    } else {
      LongYearsOrder(t, u);
    }
  }

  lemma LongYearsOrder(t: Time, u: Time)
    requires t < u && !FourDigitYear(t) && !FourDigitYear(u)
    ensures Less(ToRfc3339(t), ToRfc3339(u)) <==> YearsSort(t, u)
  {
    var y, z := DateOf(t).year, DateOf(u).year;
    var p, q := AfterYear(t), AfterYear(u);
    YearsGrow(t, u);
    LongYearText(t);
    LongYearText(u);
    LessHeads("+", "+", Decimal(y) + ("-" + p), Decimal(z) + ("-" + q));
    LessIrreflexive("+");
    DecimalOrder(y, z, p, q);
    if y == z { AfterYearOrder(t, u); }
  }

  ghost function AfterYear(t: Time): string {
    FieldsText(DateTimeFields(t, ":")[1..]) + (FractionText(Nanos(t)) + UTC_OFFSET)
  }

  lemma LongYearText(t: Time)
    requires !FourDigitYear(t)
    ensures ToRfc3339(t) == "+" + (Decimal(DateOf(t).year) + ("-" + AfterYear(t)))
  {
  }

  lemma AfterYearOrder(t: Time, u: Time)
    requires t < u && DateOf(t).year == DateOf(u).year
    ensures Less(AfterYear(t), AfterYear(u))
  {
    var f, g := DateTimeFields(t, ":"), DateTimeFields(u, ":");
    FieldsOrderInstants(t, u, ":");
    FractionOrder(Nanos(t), Nanos(u));
    RestFits(t);
    RestFits(u);
    FieldsOrder(f[1..], g[1..], FractionText(Nanos(t)) + UTC_OFFSET, FractionText(Nanos(u)) + UTC_OFFSET);
  }

  lemma RestFits(t: Time)
    ensures Fits(DateTimeFields(t, ":")[1..])
  {
    CivilRoundTrip(t);
    Pow10Three();
  }

  // ----- reading the stored text back

  const SHAPE: seq<Field> :=
    [Field(4, 0, "-"), Field(2, 0, "-"), Field(2, 0, "T"), Field(2, 0, ":"), Field(2, 0, ":"), Field(2, 0, "")]

  /** The nanoseconds of a fraction of one to nine digits. */
  function ParseFraction(digits: string): Option<nat> {
    if 1 <= |digits| <= 9 then
      var v := ParseDigits(digits);
      if v.None? then None else Some(v.value * Pow10(9 - |digits|))
    else None
  }

  /** What follows the seconds: an optional fraction, then the offset of UTC. */
  function ParseTail(s: string): Option<nat> {
    if s == UTC_OFFSET then Some(0)
    else if |s| > |UTC_OFFSET| && s[0] == '.' && s[|s| - |UTC_OFFSET|..] == UTC_OFFSET then
      ParseFraction(s[1..|s| - |UTC_OFFSET|])
    else None
  }

  /** `DateTime::parse_from_rfc3339` on UTC text; `None` where it reports an error. */
  function ParseRfc3339(s: string): Option<Time> {
    var head := ParseFields(SHAPE, s);
    if head.None? || |head.value.0| != 6 then None
    else
      var v := head.value.0;
      var tail := ParseTail(head.value.1);
      if tail.None? then None
      else
        var c := Civil(Date(v[0], v[1], v[2]), v[3], v[4], v[5], tail.value);
        if ValidCivil(c) then Some(TimeOf(c)) else None
  }

  lemma Pow10Six()
    ensures Pow10(6) == 1_000_000 && Pow10(9) == 1_000_000_000 && Pow10(0) == 1
  {
    Pow10Three();
    assert Pow10(5) == 100_000;
    assert Pow10(6) == 1_000_000;
    assert Pow10(7) == 10_000_000;
    assert Pow10(8) == 100_000_000;
  }

  lemma FractionReadsBack(width: nat, v: nat)
    requires 1 <= width <= 9 && v < Pow10(width)
    ensures ParseTail("." + Fixed(width, v) + UTC_OFFSET) == Some(v * Pow10(9 - width))
  {
    var s := "." + Fixed(width, v) + UTC_OFFSET;
    assert s[|s| - |UTC_OFFSET|..] == UTC_OFFSET && s[1..|s| - |UTC_OFFSET|] == Fixed(width, v);
    FixedParses(width, v);
  }

  lemma TailReadsBack(nano: nat)
    requires nano < SECOND
    ensures ParseTail(FractionText(nano) + UTC_OFFSET) == Some(nano)
  {
    Pow10Three();
    Pow10Six();
    if nano == 0 {
      assert FractionText(nano) + UTC_OFFSET == UTC_OFFSET;
    } else if nano % 1_000_000 == 0 {
      FractionReadsBack(3, nano / 1_000_000);
    } else if nano % 1_000 == 0 {
      FractionReadsBack(6, nano / 1_000);
    } else {
      FractionReadsBack(9, nano);
    }
  }

  /** Reading stored text gives the instant back to the nanosecond; the parser never fails on it. */
  lemma Rfc3339RoundTrip(t: Time)
    requires FourDigitYear(t)
    ensures ParseRfc3339(ToRfc3339(t)) == Some(t)
  {
    var f := DateTimeFields(t, ":");
    var tail := FractionText(Nanos(t)) + UTC_OFFSET;
    DateTimeFits(t, ":");
    FieldsParse(SHAPE, f, tail);
    assert ToRfc3339(t) == FieldsText(f) + tail;
    TailReadsBack(Nanos(t));
    CivilRoundTrip(t);
    NanoOfCivil(t);
  }

  // ----- backup directory names

  lemma {:induction false} ReplaceConcat(s: string, t: string, from: char, to: char)
    ensures Replace(s + t, from, to) == Replace(s, from, to) + Replace(t, from, to)
  {
  }

  lemma ReplaceDigits(w: nat, n: nat)
    ensures Replace(Fixed(w, n), ':', '-') == Fixed(w, n)
  {
    forall i | 0 <= i < w ensures Fixed(w, n)[i] != ':' { FixedAllDigits(w, n, i); }
  }

  lemma {:induction false} ReplaceFields(fs: seq<Field>, gs: seq<Field>)
    requires |fs| == |gs|
    requires forall i :: 0 <= i < |fs| ==>
               fs[i].width == gs[i].width && fs[i].value == gs[i].value && gs[i].after == Replace(fs[i].after, ':', '-')
    ensures Replace(FieldsText(fs), ':', '-') == FieldsText(gs)
  {
    if fs != [] {
      var x := Fixed(fs[0].width, fs[0].value);
      ReplaceConcat(x + fs[0].after, FieldsText(fs[1..]), ':', '-');
      ReplaceConcat(x, fs[0].after, ':', '-');
      ReplaceDigits(fs[0].width, fs[0].value);
      ReplaceFields(fs[1..], gs[1..]);
    }
  }

  /** The name is the date and time with dashes throughout, closed by `Z`. */
  lemma DirText(t: Time)
    requires FourDigitYear(t)
    ensures FormatTimestampDir(t) == FieldsText(DateTimeFields(t, "-")) + "Z"
  {
    ReplaceConcat(FieldsText(DateTimeFields(t, ":")), "Z", ':', '-');
    assert Replace("Z", ':', '-') == "Z" && Replace("-", ':', '-') == "-" && Replace("T", ':', '-') == "T"
        && Replace(":", ':', '-') == "-" && Replace("", ':', '-') == "";
    ReplaceFields(DateTimeFields(t, ":"), DateTimeFields(t, "-"));
  }

  lemma SameSecondSameFields(t: Time, u: Time)
    requires Seconds(t) == Seconds(u)
    ensures DateTimeFields(t, "-") == DateTimeFields(u, "-")
  {
    WholeSecond(t);
    WholeSecond(u);
  }

  lemma WholeSecond(t: Time)
    ensures DateTimeFields(t, "-") == DateTimeFields(Seconds(t) * SECOND, "-")
  {
    DropNanos(t);
    SecondInDay(t % DAY);
  }

  lemma DropNanos(t: Time)
    ensures var u := t / SECOND * SECOND; u / DAY == t / DAY && u % DAY == t % DAY / SECOND * SECOND
  {
    var d, r := t / DAY, t % DAY;
    QuotientIs(t, SECOND, d * 86400 + r / SECOND, r % SECOND);
    QuotientIs(t / SECOND * SECOND, DAY, d, r / SECOND * SECOND);
  }

  lemma SecondInDay(r: nat)
    requires r < DAY
    ensures
      var q := r / SECOND * SECOND;
      && q / HOUR == r / HOUR
      && q % HOUR / MINUTE == r % HOUR / MINUTE
      && q % HOUR % MINUTE / SECOND == r % HOUR % MINUTE / SECOND
  {
    var h, m, s, n := r / HOUR, r % HOUR / MINUTE, r % HOUR % MINUTE / SECOND, r % HOUR % MINUTE % SECOND;
    DivideDay(r);
    var q := r / SECOND * SECOND;
    QuotientIs(r, SECOND, h * 3600 + m * 60 + s, n);
    QuotientIs(q, HOUR, h, m * MINUTE + s * SECOND);
    QuotientIs(q % HOUR, MINUTE, m, s * SECOND);
    QuotientIs(q % HOUR % MINUTE, SECOND, s, 0);
  }

  /** Names are in one-to-one correspondence with seconds and sort in time order. */
  lemma DirOrder(t: Time, u: Time)
    requires FourDigitYear(t) && FourDigitYear(u)
    ensures FormatTimestampDir(t) == FormatTimestampDir(u) <==> Seconds(t) == Seconds(u)
    ensures Less(FormatTimestampDir(t), FormatTimestampDir(u)) <==> Seconds(t) < Seconds(u)
  {
    DirLess(t, u);
    DirLess(u, t);
    if Seconds(t) == Seconds(u) {
      DirText(t);
      DirText(u);
      SameSecondSameFields(t, u);
    }
    LessTotal(FormatTimestampDir(t), FormatTimestampDir(u));
    LessIrreflexive(FormatTimestampDir(t));
  }

  lemma DirLess(t: Time, u: Time)
    requires FourDigitYear(t) && FourDigitYear(u)
    ensures Less(FormatTimestampDir(t), FormatTimestampDir(u)) <==> Seconds(t) < Seconds(u)
  {
    var f, g := DateTimeFields(t, "-"), DateTimeFields(u, "-");
    DirText(t);
    DirText(u);
    DateTimeFits(t, "-");
    DateTimeFits(u, "-");
    FieldsOrder(f, g, "Z", "Z");
    LessIrreflexive("Z");
    SecondsOrderFields(t, u);
  }

  lemma SecondsOrderFields(t: Time, u: Time)
    ensures ValuesLess(DateTimeFields(t, "-"), DateTimeFields(u, "-")) <==> Seconds(t) < Seconds(u)
  {
    var a, b := Seconds(t) * SECOND, Seconds(u) * SECOND;
    WholeSecond(t);
    WholeSecond(u);
    FieldsOrderInstants(a, b, "-");
    QuotientIs(a, SECOND, Seconds(t), 0);
    QuotientIs(b, SECOND, Seconds(u), 0);
  }

  // ----- where the digits are

  lemma DateTimeSpelled(t: Time)
    requires FourDigitYear(t)
    ensures var c := CivilOf(t);
            DateTimeText(t) == Fixed(4, c.date.year) + "-" + (Fixed(2, c.date.month) + "-" + (Fixed(2, c.date.day) + "T"
              + (Fixed(2, c.hour) + ":" + (Fixed(2, c.minute) + ":" + Fixed(2, c.second)))))
  {
    var f := DateTimeFields(t, ":");
    assert f[5..][1..] == [] && FieldsText([]) == "";
    assert f[4..][1..] == f[5..] && f[3..][1..] == f[4..] && f[2..][1..] == f[3..] && f[1..][1..] == f[2..];
    assert FieldsText(f[5..]) == Fixed(2, f[5].value) + "" + "";
    assert Fixed(2, f[5].value) + "" + "" == Fixed(2, f[5].value);
    assert FieldsText(f[4..]) == Fixed(2, f[4].value) + ":" + FieldsText(f[5..]);
    assert FieldsText(f[3..]) == Fixed(2, f[3].value) + ":" + FieldsText(f[4..]);
    assert FieldsText(f[2..]) == Fixed(2, f[2].value) + "T" + FieldsText(f[3..]);
    assert FieldsText(f[1..]) == Fixed(2, f[1].value) + "-" + FieldsText(f[2..]);
  }

  /** The digits of a numeral at position `at` of a text. */
  ghost predicate Shows(s: string, at: nat, w: nat, n: nat) {
    at + w <= |s| && ParseDigits(s[at..at + w]) == Some(n)
  }

  /** The 19 characters before the fraction: year, month, day, `T`, hour, minute, second. */
  lemma DateTimeLayout(t: Time)
    requires FourDigitYear(t)
    ensures var s, c := DateTimeText(t), CivilOf(t);
            && |s| == 19 && s[4] == '-' && s[7] == '-' && s[10] == 'T' && s[13] == ':' && s[16] == ':'
            && Shows(s, 0, 4, c.date.year) && Shows(s, 5, 2, c.date.month) && Shows(s, 8, 2, c.date.day)
            && Shows(s, 11, 2, c.hour) && Shows(s, 14, 2, c.minute) && Shows(s, 17, 2, c.second)
  {
    var s, c := DateTimeText(t), CivilOf(t);
    var y, m, d := Fixed(4, c.date.year), Fixed(2, c.date.month), Fixed(2, c.date.day);
    var h, i, e := Fixed(2, c.hour), Fixed(2, c.minute), Fixed(2, c.second);
    DateTimeSpelled(t);
    CivilRoundTrip(t);
    Pow10Three();
    FixedParses(4, c.date.year);
    FixedParses(2, c.date.month);
    FixedParses(2, c.date.day);
    FixedParses(2, c.hour);
    FixedParses(2, c.minute);
    FixedParses(2, c.second);
    Cut6(y, m, d, h, i, e, s);
  }

  lemma Cut6(y: string, m: string, d: string, h: string, i: string, e: string, s: string)
    requires |y| == 4 && |m| == |d| == |h| == |i| == |e| == 2
    requires s == y + "-" + (m + "-" + (d + "T" + (h + ":" + (i + ":" + e))))
    ensures |s| == 19 && s[4] == '-' && s[7] == '-' && s[10] == 'T' && s[13] == ':' && s[16] == ':'
    ensures s[0..4] == y && s[5..7] == m && s[8..10] == d && s[11..13] == h && s[14..16] == i && s[17..19] == e
  {
  }

  /** The stored text: those 19, a point and 3, 6 or 9 digits if there is a fraction, and the offset. */
  lemma TextLayout(t: Time)
    requires FourDigitYear(t)
    ensures var s, n := ToRfc3339(t), Nanos(t);
            && |s| == (if n == 0 then 25 else if n % 1_000_000 == 0 then 29 else if n % 1_000 == 0 then 32 else 35)
            && s[..19] == DateTimeText(t) && s[|s| - 6..] == "+00:00" && (n != 0 ==> s[19] == '.')
            && (|s| == 29 ==> Shows(s, 20, 3, n / 1_000_000)) && (|s| == 32 ==> Shows(s, 20, 6, n / 1_000))
            && (|s| == 35 ==> Shows(s, 20, 9, n))
  {
    var n := Nanos(t);
    DateTimeLayout(t);
    FractionLayout(n);
    var s, f := ToRfc3339(t), FractionText(n);
    assert s == DateTimeText(t) + (f + UTC_OFFSET);
    assert s[..19] == DateTimeText(t);
    assert s[19..19 + |f|] == f;
    if n != 0 { assert s[20..|s| - 6] == f[1..]; }
  }

  lemma FractionLayout(n: nat)
    requires n < SECOND
    ensures |FractionText(n)| == FractionLength(n)
    ensures n != 0 ==>
              var f := FractionText(n);
              var shown := if |f| == 4 then n / 1_000_000 else if |f| == 7 then n / 1_000 else n;
              f[0] == '.' && ParseDigits(f[1..]) == Some(shown)
  {
    Pow10Six();
    Pow10Three();
    if n != 0 {
      var w, v := if n % 1_000_000 == 0 then 3 else if n % 1_000 == 0 then 6 else 9,
                  if n % 1_000_000 == 0 then n / 1_000_000 else if n % 1_000 == 0 then n / 1_000 else n;
      FixedParses(w, v);
      assert FractionText(n)[1..] == Fixed(w, v);
    }
  }

  /** The directory name: the same 19 with dashes for colons, and `Z`. */
  lemma DirLayout(t: Time)
    requires FourDigitYear(t)
    ensures var d, s := FormatTimestampDir(t), DateTimeText(t);
            && |d| == 20 && d[19] == 'Z' && d[13] == '-' && d[16] == '-'
            && forall i :: 0 <= i < 19 && i != 13 && i != 16 ==> d[i] == s[i]
  {
    var c := CivilOf(t);
    DateTimeSpelled(t);
    NotInFixed(4, c.date.year, ':');
    NotInFixed(2, c.date.month, ':');
    NotInFixed(2, c.date.day, ':');
    NotInFixed(2, c.hour, ':');
    NotInFixed(2, c.minute, ':');
    NotInFixed(2, c.second, ':');
    Dashes(Fixed(4, c.date.year), Fixed(2, c.date.month), Fixed(2, c.date.day), Fixed(2, c.hour), Fixed(2, c.minute),
           Fixed(2, c.second), DateTimeText(t));
  }

  lemma Dashes(y: string, m: string, d: string, h: string, i: string, e: string, s: string)
    requires |y| == 4 && |m| == |d| == |h| == |i| == |e| == 2
    requires ':' !in y && ':' !in m && ':' !in d && ':' !in h && ':' !in i && ':' !in e
    requires s == y + "-" + (m + "-" + (d + "T" + (h + ":" + (i + ":" + e))))
    ensures |s| == 19 && s[13] == ':' && s[16] == ':' && forall k :: 0 <= k < 19 && k != 13 && k != 16 ==> s[k] != ':'
  {
    Cut6(y, m, d, h, i, e, s);
    forall k | 0 <= k < 19 && k != 13 && k != 16 ensures s[k] != ':' {
      if k < 4 { assert s[k] == y[k]; } else if 5 <= k < 7 { assert s[k] == m[k - 5]; }
      else if 8 <= k < 10 { assert s[k] == d[k - 8]; } else if 11 <= k < 13 { assert s[k] == h[k - 11]; }
      else if 14 <= k < 16 { assert s[k] == i[k - 14]; } else if 17 <= k { assert s[k] == e[k - 17]; }
    }
  }

  /** A name that `join` turns into a proper child of the directory it is joined to. */
  predicate ProperChild(name: string) {
    name != "" && name != "." && name != ".." && '/' !in name
  }

  lemma {:induction false} NotInFields(fs: seq<Field>, c: char)
    requires !('0' <= c <= '9') && forall i :: 0 <= i < |fs| ==> c !in fs[i].after
    ensures c !in FieldsText(fs)
  {
    if fs != [] {
      NotInFields(fs[1..], c);
      NotInFixed(fs[0].width, fs[0].value, c);
    }
  }

  lemma NotInFixed(w: nat, n: nat, c: char)
    requires !('0' <= c <= '9')
    ensures c !in Fixed(w, n)
  {
    forall i | 0 <= i < w ensures Fixed(w, n)[i] != c { FixedAllDigits(w, n, i); }
  }

  lemma DirIsProperChild(t: Time)
    requires FourDigitYear(t)
    ensures ProperChild(FormatTimestampDir(t))
  {
    var f := DateTimeFields(t, "-");
    DirText(t);
    NotInFields(f, '/');
    assert FieldsText(f) == Fixed(4, f[0].value) + f[0].after + FieldsText(f[1..]);
    assert |FormatTimestampDir(t)| >= 5;
  }
}
