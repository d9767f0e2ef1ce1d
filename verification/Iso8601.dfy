/** The UTC timestamp the bridge writes into its log and its settings page. */
module Iso8601 {
  import opened Calendar
  import opened Text

  /** The last second of the year 9999. */
  const LAST_EPOCH: nat := 253_402_300_799

  lemma YearFrom1970(days: nat)
    ensures var d := CivilFromDays(days); d.year >= 1970 && 1 <= d.month <= 12 && 1 <= d.day <= 31
  {
    CivilEpoch();
    CivilDateIsValid(days);
    if days > 0 {
      CivilOrder(0, days);
    }
  }

  /** `YYYY-MM-DDTHH:MM:SSZ` for a count of seconds since the Unix epoch. */
  function Format(epoch: nat): string {
    var date := CivilFromDays(epoch / 86_400);
    var rem := epoch % 86_400;
    YearFrom1970(epoch / 86_400);
    ZeroPadded(date.year, 4) + "-" + ZeroPadded(date.month, 2) + "-" + ZeroPadded(date.day, 2)
    + "T" + ZeroPadded(rem / 3600, 2) + ":" + ZeroPadded((rem % 3600) / 60, 2) + ":" + ZeroPadded(rem % 60, 2) + "Z"
  }

  /** A timestamp as its six fields, in order of weight. */
  datatype Fields = Fields(year: nat, month: nat, day: nat, hour: nat, minute: nat, second: nat)

  function FieldsOf(epoch: nat): Fields {
    var date := CivilFromDays(epoch / 86_400);
    var rem := epoch % 86_400;
    YearFrom1970(epoch / 86_400);
    Fields(date.year, date.month, date.day, rem / 3600, (rem % 3600) / 60, rem % 60)
  }

  predicate FieldsFit(f: Fields) {
    f.year < 10_000 && f.month < 100 && f.day < 100 && f.hour < 100 && f.minute < 100 && f.second < 100
  }

  lemma YearUpTo9999(days: nat)
    requires days <= LAST_EPOCH / 86_400
    ensures CivilFromDays(days).year <= 9999
  {
    hide CivilFromDays;
    LastDay();
    if days < 2_932_896 {
      CivilOrder(days, 2_932_896);
    }
  }

  lemma LastDay()
    ensures CivilFromDays(2_932_896) == Date(9999, 12, 31)
  {
  }

  lemma FieldsOfFit(epoch: nat)
    requires epoch <= LAST_EPOCH
    ensures FieldsFit(FieldsOf(epoch))
  {
    YearFrom1970(epoch / 86_400);
    YearUpTo9999(epoch / 86_400);
  }

  /** Renders the fields from the least significant up, each at its fixed width. */
  function FixedFrom(f: Fields, field: nat): string
    requires field <= 6
    decreases 6 - field
  {
    if field == 0 then Fixed(f.year, 4) + ("-" + FixedFrom(f, 1))
    else if field == 1 then Fixed(f.month, 2) + ("-" + FixedFrom(f, 2))
    else if field == 2 then Fixed(f.day, 2) + ("T" + FixedFrom(f, 3))
    else if field == 3 then Fixed(f.hour, 2) + (":" + FixedFrom(f, 4))
    else if field == 4 then Fixed(f.minute, 2) + (":" + FixedFrom(f, 5))
    else if field == 5 then Fixed(f.second, 2) + ("Z" + FixedFrom(f, 6))
    else ""
  }

  lemma Powers()
    ensures Pow10(2) == 100 && Pow10(4) == 10_000
  {
    assert Pow10(1) == 10;
    assert Pow10(3) == 1000;
  }

  lemma FormatIsFixed(epoch: nat)
    requires epoch <= LAST_EPOCH
    ensures Format(epoch) == FixedFrom(FieldsOf(epoch), 0)
  {
    hide CivilFromDays, ZeroPadded, Fixed;
    var f := FieldsOf(epoch);
    FieldsOfFit(epoch);
    Powers();
    PaddedIsFixed(f.year, 4);
    PaddedIsFixed(f.month, 2);
    PaddedIsFixed(f.day, 2);
    PaddedIsFixed(f.hour, 2);
    PaddedIsFixed(f.minute, 2);
    PaddedIsFixed(f.second, 2);
    var s5 := Fixed(f.second, 2) + ("Z" + "");
    var s4 := Fixed(f.minute, 2) + (":" + s5);
    var s3 := Fixed(f.hour, 2) + (":" + s4);
    var s2 := Fixed(f.day, 2) + ("T" + s3);
    var s1 := Fixed(f.month, 2) + ("-" + s2);
    assert FixedFrom(f, 5) == s5;
    assert FixedFrom(f, 4) == s4;
    assert FixedFrom(f, 3) == s3;
    assert FixedFrom(f, 2) == s2;
    assert FixedFrom(f, 1) == s1;
    assert Format(epoch) == Fixed(f.year, 4) + ("-" + s1);
  }

  /** `s` is `YYYY-MM-DDTHH:MM:SSZ`, and its numerals read as these fields. */
  predicate Reads(s: string, f: Fields) {
    && |s| == 20
    && s[4] == '-' && s[7] == '-' && s[10] == 'T' && s[13] == ':' && s[16] == ':' && s[19] == 'Z'
    && AllDigits(s[..4]) && AllDigits(s[5..7]) && AllDigits(s[8..10])
    && AllDigits(s[11..13]) && AllDigits(s[14..16]) && AllDigits(s[17..19])
    && Value(s[..4]) == f.year && Value(s[5..7]) == f.month && Value(s[8..10]) == f.day
    && Value(s[11..13]) == f.hour && Value(s[14..16]) == f.minute && Value(s[17..19]) == f.second
  }

  /** Always twenty characters, with the digits and separators of section 5.6 of RFC 3339 in their
      places: the date is the one the day count converts to, a date of the calendar, and the time of
      day is in range and adds up to the seconds of the day. */
  lemma FormatShape(epoch: nat)
    requires epoch <= LAST_EPOCH
    ensures exists f: Fields :: Reads(Format(epoch), f)
              && CivilFromDays(epoch / 86_400) == Date(f.year, f.month, f.day) && ValidDate(Date(f.year, f.month, f.day))
              && f.hour < 24 && f.minute < 60 && f.second < 60
              && 3600 * f.hour + 60 * f.minute + f.second == epoch % 86_400
  {
    hide CivilFromDays, Format, FixedFrom, FieldsFit, Reads;
    var f := FieldsOf(epoch);
    FieldsOfFit(epoch);
    FormatIsFixed(epoch);
    FixedReads(f);
    CivilDateIsValid(epoch / 86_400);
    ClockFields(epoch % 86_400);
    assert Reads(Format(epoch), f);
  }

  lemma ClockFields(rem: nat)
    requires rem < 86_400
    ensures rem / 3600 < 24 && (rem % 3600) / 60 < 60 && 3600 * (rem / 3600) + 60 * ((rem % 3600) / 60) + rem % 60 == rem
  {
  }

  /** The parts of a text that goes on from `i` with a numeral and a separator. */
  lemma Cut(s: string, i: nat, numeral: string, separator: char, rest: string)
    requires i <= |s| && s[i..] == numeral + ([separator] + rest)
    ensures |s| == i + |numeral| + 1 + |rest|
    ensures s[i..i + |numeral|] == numeral && s[i + |numeral|] == separator && s[i + |numeral| + 1..] == rest
  {
    var t := s[i..];
    assert t[..|numeral|] == numeral && t[|numeral|] == separator && t[|numeral| + 1..] == rest;
    assert s[i..i + |numeral|] == t[..|numeral|];
  }

  lemma NumeralReads(n: nat, w: nat)
    requires (w == 4 && n < 10_000) || (w == 2 && n < 100)
    ensures AllDigits(Fixed(n, w)) && Value(Fixed(n, w)) == n
  {
    hide Fixed, AllDigits, Value;
    Powers();
    FixedValue(n, w);
  }

  lemma FixedReads(f: Fields)
    requires FieldsFit(f)
    ensures Reads(FixedFrom(f, 0), f)
  {
    hide Fixed, AllDigits, Value, FixedFrom, Pow10;
    NumeralReads(f.year, 4);
    NumeralReads(f.month, 2);
    NumeralReads(f.day, 2);
    NumeralReads(f.hour, 2);
    NumeralReads(f.minute, 2);
    NumeralReads(f.second, 2);
    FixedFromParts(f);
    var s := FixedFrom(f, 0);
    DateSlices(s, Fixed(f.year, 4), Fixed(f.month, 2), Fixed(f.day, 2), FixedFrom(f, 1), FixedFrom(f, 2), FixedFrom(f, 3));
    ClockSlices(s, Fixed(f.hour, 2), Fixed(f.minute, 2), Fixed(f.second, 2), FixedFrom(f, 3), FixedFrom(f, 4), FixedFrom(f, 5));
  }

  lemma DateSlices(s: string, year: string, month: string, day: string, s1: string, s2: string, s3: string)
    requires |year| == 4 && |month| == |day| == 2
    requires s == year + (['-'] + s1) && s1 == month + (['-'] + s2) && s2 == day + (['T'] + s3)
    ensures |s| == 11 + |s3| && s[11..] == s3
    ensures s[4] == '-' && s[7] == '-' && s[10] == 'T'
    ensures s[..4] == year && s[5..7] == month && s[8..10] == day
  {
    assert s[0..] == s && s[0..4] == s[..4];
    Cut(s, 0, year, '-', s1);
    Cut(s, 5, month, '-', s2);
    Cut(s, 8, day, 'T', s3);
  }

  lemma ClockSlices(s: string, hour: string, minute: string, second: string, s3: string, s4: string, s5: string)
    requires |hour| == |minute| == |second| == 2 && |s| == 11 + |s3| && s[11..] == s3
    requires s3 == hour + ([':'] + s4) && s4 == minute + ([':'] + s5) && s5 == second + (['Z'] + "")
    ensures |s| == 20 && s[13] == ':' && s[16] == ':' && s[19] == 'Z'
    ensures s[11..13] == hour && s[14..16] == minute && s[17..19] == second
  {
    Cut(s, 11, hour, ':', s4);
    Cut(s, 14, minute, ':', s5);
    Cut(s, 17, second, 'Z', "");
  }

  lemma FixedFromParts(f: Fields)
    ensures FixedFrom(f, 0) == Fixed(f.year, 4) + (['-'] + FixedFrom(f, 1))
    ensures FixedFrom(f, 1) == Fixed(f.month, 2) + (['-'] + FixedFrom(f, 2))
    ensures FixedFrom(f, 2) == Fixed(f.day, 2) + (['T'] + FixedFrom(f, 3))
    ensures FixedFrom(f, 3) == Fixed(f.hour, 2) + ([':'] + FixedFrom(f, 4))
    ensures FixedFrom(f, 4) == Fixed(f.minute, 2) + ([':'] + FixedFrom(f, 5))
    ensures FixedFrom(f, 5) == Fixed(f.second, 2) + (['Z'] + "")
  {
    hide Fixed;
    assert FixedFrom(f, 6) == "";
  }

  /** The value of the field of a given weight. */
  function Field(f: Fields, field: nat): nat
    requires field < 6
  {
    [f.year, f.month, f.day, f.hour, f.minute, f.second][field]
  }

  /** `f` precedes `g`, comparing from `field` on. */
  predicate FieldsBefore(f: Fields, g: Fields, field: nat)
    requires field <= 6
    decreases 6 - field
  {
    field < 6 && (Field(f, field) < Field(g, field)
                  || (Field(f, field) == Field(g, field) && FieldsBefore(f, g, field + 1)))
  }

  function Width(field: nat): nat { if field == 0 then 4 else 2 }

  function Separator(field: nat): string
    requires field < 6
  {
    ["-", "-", "T", ":", ":", "Z"][field]
  }

  lemma FixedFromStep(f: Fields, field: nat)
    requires field < 6
    ensures FixedFrom(f, field) == Fixed(Field(f, field), Width(field)) + (Separator(field) + FixedFrom(f, field + 1))
  {
  }

  lemma {:induction false} FieldsOrder(f: Fields, g: Fields, field: nat)
    requires field <= 6 && FieldsFit(f) && FieldsFit(g)
    requires FieldsBefore(f, g, field)
    ensures LexLess(FixedFrom(f, field), FixedFrom(g, field))
    decreases 6 - field
  {
    hide FixedFrom, Fixed, LexLess;
    FixedFromStep(f, field);
    FixedFromStep(g, field);
    Powers();
    var a, b := Field(f, field), Field(g, field);
    var x, y := FixedFrom(f, field + 1), FixedFrom(g, field + 1);
    if a < b {
      FixedOrder(a, b, Width(field));
    } else {
      FieldsOrder(f, g, field + 1);
      LexConcat(Separator(field), Separator(field), x, y);
    }
    LexConcat(Fixed(a, Width(field)), Fixed(b, Width(field)), Separator(field) + x, Separator(field) + y);
  }

  lemma FieldsOfOrder(a: nat, b: nat)
    requires a < b
    ensures FieldsBefore(FieldsOf(a), FieldsOf(b), 0)
  {
    hide CivilFromDays;
    var da, db := a / 86_400, b / 86_400;
    var f, g := FieldsOf(a), FieldsOf(b);
    YearFrom1970(da);
    YearFrom1970(db);
    if da < db {
      CivilOrder(da, db);
    } else {
      assert FieldsBefore(f, g, 3) by { TimeOrder(a % 86_400, b % 86_400, f, g); }
      assert FieldsBefore(f, g, 2);
      assert FieldsBefore(f, g, 1);
    }
  }

  lemma TimeOrder(a: nat, b: nat, f: Fields, g: Fields)
    requires a < b < 86_400
    requires f.hour == a / 3600 && f.minute == (a % 3600) / 60 && f.second == a % 60
    requires g.hour == b / 3600 && g.minute == (b % 3600) / 60 && g.second == b % 60
    ensures FieldsBefore(f, g, 3)
  {
    assert a == 3600 * f.hour + 60 * f.minute + f.second;
    assert b == 3600 * g.hour + 60 * g.minute + g.second;
    assert FieldsBefore(f, g, 5) <==> f.second < g.second;
    assert FieldsBefore(f, g, 4) <==> f.minute < g.minute || (f.minute == g.minute && f.second < g.second);
  }

  /** Up to the end of the year 9999, later instants have lexicographically greater timestamps. */
  lemma FormatOrder(a: nat, b: nat)
    requires a < b <= LAST_EPOCH
    ensures LexLess(Format(a), Format(b))
  {
    hide Format, FieldsOf, FixedFrom, FieldsBefore, LexLess;
    FormatIsFixed(a);
    FormatIsFixed(b);
    FieldsOfFit(a);
    FieldsOfFit(b);
    FieldsOfOrder(a, b);
    FieldsOrder(FieldsOf(a), FieldsOf(b), 0);
  }

  /** Hence no two instants share a timestamp. */
  lemma FormatInjective(a: nat, b: nat)
    requires a <= LAST_EPOCH && b <= LAST_EPOCH
    requires Format(a) == Format(b)
    ensures a == b
  {
    LexIrreflexive(Format(a));
    if a < b {
      FormatOrder(a, b);
    } else if b < a {
      FormatOrder(b, a);
    }
  }
}
