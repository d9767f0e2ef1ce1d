/** Why comparing a row's time stamp with the watermark as texts compares them as times. */
module RagStamps {
  import opened Calendar
  import opened Iso8601
  import opened RagIndexing
  import opened Text

  /** A time in whole seconds, without the zone. */
  function Seconds(epoch: nat): string
    requires epoch <= LAST_EPOCH
  {
    FormatShape(epoch);
    Format(epoch)[..19]
  }

  /** `YYYY-MM-DDTHH:MM:SS.fff+00:00`, the fraction being left out when it is zero. */
  function StampText(sec: nat, fraction: string): string
    requires sec <= LAST_EPOCH
  {
    Seconds(sec) + ((if fraction == "" then "" else "." + fraction) + "+00:00")
  }

  /** The stored watermark, or the default one. */
  function WatermarkText(db: Db): string
    requires Context in db.marks ==> 0 <= db.marks[Context] <= LAST_EPOCH
  {
    if Context in db.marks then StampText(db.marks[Context], "") else "1970-01-01T00:00:00Z"
  }

  predicate TextAtOrBelow(a: string, b: string) { a == b || LexLess(a, b) }

  lemma {:induction false} LexAsymmetric(a: string, b: string)
    requires LexLess(a, b)
    ensures a != b && !LexLess(b, a)
  {
    if a != [] && a[0] == b[0] {
      LexAsymmetric(a[1..], b[1..]);
    }
  }

  lemma {:induction false} LexSplit(a: string, b: string, x: string, y: string)
    requires |a| == |b| && LexLess(a + x, b + y)
    ensures LexLess(a, b) || (a == b && LexLess(x, y))
  {
    if a == [] {
      assert a + x == x && b + y == y;
    } else {
      assert (a + x)[1..] == a[1..] + x && (b + y)[1..] == b[1..] + y;
      if a[0] == b[0] {
        LexSplit(a[1..], b[1..], x, y);
        assert a == [a[0]] + a[1..] && b == [b[0]] + b[1..];
      }
    }
  }

  lemma SecondsOrder(a: nat, b: nat)
    requires a < b <= LAST_EPOCH
    ensures |Seconds(a)| == |Seconds(b)| && LexLess(Seconds(a), Seconds(b))
  {
    hide Format, LexLess;
    FormatOrder(a, b);
    FormatShape(a);
    FormatShape(b);
    assert Format(a) == Seconds(a) + "Z" && Format(b) == Seconds(b) + "Z";
    LexSplit(Seconds(a), Seconds(b), "Z", "Z");
    LexIrreflexive("Z");
  }

  lemma SmallNumerals()
    ensures ZeroPadded(1970, 4) == "1970" && ZeroPadded(1, 2) == "01" && ZeroPadded(0, 2) == "00"
  {
    assert Decimal(1970) == "1970" by {
      assert Decimal(197) == "197" by { assert Decimal(19) == "19"; }
    }
    assert Zeros(1) == "0";
  }

  lemma EpochText()
    ensures Format(0) == "1970-01-01T00:00:00Z"
  {
    CivilEpoch();
    SmallNumerals();
    hide CivilFromDays, ZeroPadded;
    assert Format(0) == "1970" + "-" + "01" + "-" + "01" + "T" + "00" + ":" + "00" + ":" + "00" + "Z";
  }

  /** A row is at or below the watermark exactly when its text is, for rows from 1970 to 9999: with a
      stored watermark the seconds decide and then whether there is a fraction; the default one covers
      all of the first second. */
  lemma AtOrBelowIsTextual(db: Db, stamp: Stamp, fraction: string)
    requires 0 <= stamp.sec <= LAST_EPOCH && (stamp.frac == 0 <==> fraction == "")
    requires Context in db.marks ==> 0 <= db.marks[Context] <= LAST_EPOCH
    ensures AtOrBelow(stamp, db) <==> TextAtOrBelow(StampText(stamp.sec, fraction), WatermarkText(db))
  {
    hide Seconds, LexLess, Format;
    var m: nat := if Context in db.marks then db.marks[Context] else 0;
    var rest := (if fraction == "" then "" else "." + fraction) + "+00:00";
    var mark := if Context in db.marks then "+00:00" else "Z";
    WatermarkParts(db, m);
    if stamp.sec < m {
      SecondsOrder(stamp.sec, m);
      LexConcat(Seconds(stamp.sec), Seconds(m), rest, mark);
    } else if m < stamp.sec {
      SecondsOrder(m, stamp.sec);
      LexConcat(Seconds(m), Seconds(stamp.sec), mark, rest);
      LexAsymmetric(Seconds(m) + mark, Seconds(stamp.sec) + rest);
    } else {
      RestOrder(fraction, rest);
      if Context in db.marks && fraction != "" {
        LexConcat(Seconds(m), Seconds(m), mark, rest);
        LexAsymmetric(Seconds(m) + mark, Seconds(m) + rest);
      } else if Context !in db.marks {
        LexConcat(Seconds(m), Seconds(m), rest, mark);
      }
    }
  }

  lemma WatermarkParts(db: Db, m: nat)
    requires Context in db.marks ==> 0 <= db.marks[Context] <= LAST_EPOCH
    requires m == if Context in db.marks then db.marks[Context] else 0
    ensures WatermarkText(db) == Seconds(m) + if Context in db.marks then "+00:00" else "Z"
  {
    if Context in db.marks {
      hide Seconds;
      assert "" + "+00:00" == "+00:00";
    } else {
      EpochText();
      FormatShape(0);
      hide Format;
      assert Format(0) == Format(0)[..19] + "Z";
    }
  }

  lemma RestOrder(fraction: string, rest: string)
    requires rest == (if fraction == "" then "" else "." + fraction) + "+00:00"
    ensures LexLess(rest, "Z") && (fraction == "" ==> rest == "+00:00") && (fraction != "" ==> LexLess("+00:00", rest))
  {
    assert rest[0] == if fraction == "" then '+' else '.';
  }
}
