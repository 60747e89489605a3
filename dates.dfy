/** Calendar dates and the simplified `to_date(_, 'yyyy-MM-dd')` parser used by the transform. */
module Dates {
  import opened Wrappers

  datatype Date = Date(year: int, month: int, day: int)

  function Pow10(k: nat): (p: nat)
    ensures p >= 1
  {
    if k == 0 then 1 else 10 * Pow10(k - 1)
  }

  predicate IsDigit(c: char) { '0' <= c <= '9' }

  predicate AllDigits(s: string) { forall i :: 0 <= i < |s| ==> IsDigit(s[i]) }

  /** The number written by a string of decimal digits, most significant first. */
  function DigitsValue(s: string): (n: nat)
    requires AllDigits(s)
    ensures n < Pow10(|s|)
  {
    if s == [] then 0
    else DigitsValue(s[..|s| - 1]) * 10 + (s[|s| - 1] as int - '0' as int)
  }

  /** `n` written with exactly `width` decimal digits, padded with leading zeros. */
  function Pad(n: nat, width: nat): (s: string)
    requires n < Pow10(width)
    ensures |s| == width && AllDigits(s)
  {
    if width == 0 then []
    else Pad(n / 10, width - 1) + [('0' as int + n % 10) as char]
  }

  lemma {:induction false} DigitsValueOfPad(n: nat, width: nat)
    requires n < Pow10(width)
    ensures DigitsValue(Pad(n, width)) == n
  {
    if width > 0 {
      var s := Pad(n, width);
      assert s[..|s| - 1] == Pad(n / 10, width - 1);
      DigitsValueOfPad(n / 10, width - 1);
    }
  }

  lemma {:induction false} PadOfDigitsValue(s: string)
    requires AllDigits(s)
    ensures Pad(DigitsValue(s), |s|) == s
  {
    if s != [] {
      var init := s[..|s| - 1];
      PadOfDigitsValue(init);
      assert DigitsValue(s) / 10 == DigitsValue(init);
      assert s == init + [s[|s| - 1]];
    }
  }

  /** Proleptic Gregorian leap years. */
  predicate IsLeapYear(y: int) { (y % 4 == 0 && y % 100 != 0) || y % 400 == 0 }

  function DaysInMonth(y: int, m: int): (n: int)
    requires 1 <= m <= 12
    ensures 28 <= n <= 31
  {
    if m == 2 then (if IsLeapYear(y) then 29 else 28)
    else if m == 4 || m == 6 || m == 9 || m == 11 then 30
    else 31
  }

  /** A date that the four-digit pattern `yyyy-MM-dd` can express. */
  predicate ValidDate(d: Date)
  {
    1 <= d.year <= 9999 && 1 <= d.month <= 12 && 1 <= d.day <= DaysInMonth(d.year, d.month)
  }

  /** The canonical `yyyy-MM-dd` text of a valid date. */
  function FormatDate(d: Date): (s: string)
    requires ValidDate(d)
    ensures |s| == 10 && s[4] == '-' && s[7] == '-'
  {
    Pad(d.year, 4) + "-" + Pad(d.month, 2) + "-" + Pad(d.day, 2)
  }

  /** A ten-character text with dashes at 4 and 7 is its three fields joined by dashes. */
  lemma SplitDateText(s: string)
    requires |s| == 10 && s[4] == '-' && s[7] == '-'
    ensures s == s[..4] + "-" + s[5..7] + "-" + s[8..]
  {
    var j := s[..4] + "-" + s[5..7] + "-" + s[8..];
    assert |j| == 10;
    forall k | 0 <= k < 10 ensures j[k] == s[k] {
      if k < 4 {
      } else if k == 4 {
      } else if k < 7 {
        assert j[k] == s[5..7][k - 5];
      } else if k == 7 {
      } else {
        assert j[k] == s[8..][k - 8];
      }
    }
  }

  /**
   * `to_date(s, 'yyyy-MM-dd')`, simplified: four digits, a dash, two digits, a dash and
   * two digits naming a real calendar day; anything else is null.
   */
  function ParseDate(s: string): (r: Option<Date>)
    ensures r.Some? ==> ValidDate(r.value) && FormatDate(r.value) == s
  {
    if |s| == 10 && s[4] == '-' && s[7] == '-'
       && AllDigits(s[..4]) && AllDigits(s[5..7]) && AllDigits(s[8..])
    then
      var d := Date(DigitsValue(s[..4]), DigitsValue(s[5..7]), DigitsValue(s[8..]));
      if ValidDate(d) then
        PadOfDigitsValue(s[..4]);
        PadOfDigitsValue(s[5..7]);
        PadOfDigitsValue(s[8..]);
        SplitDateText(s);
        Some(d)
      else None
    else None
  }

  /** Parsing the canonical text of a valid date gives that date back. */
  lemma ParseFormat(d: Date)
    requires ValidDate(d)
    ensures ParseDate(FormatDate(d)) == Some(d)
  {
    var s := FormatDate(d);
    assert s[..4] == Pad(d.year, 4);
    assert s[5..7] == Pad(d.month, 2);
    assert s[8..] == Pad(d.day, 2);
    DigitsValueOfPad(d.year, 4);
    DigitsValueOfPad(d.month, 2);
    DigitsValueOfPad(d.day, 2);
  }

  /** A string parses if and only if it is the canonical text of some valid date. */
  lemma ParseDateIff(s: string)
    ensures ParseDate(s).Some? <==> exists d :: ValidDate(d) && FormatDate(d) == s
  {
    if exists d :: ValidDate(d) && FormatDate(d) == s {
      var d :| ValidDate(d) && FormatDate(d) == s;
      ParseFormat(d);
    }
  }

  /**
   * The album release-date rule: a value of exactly four characters is read as a bare
   * year and completed with "-01-01"; every other value is parsed as it is.
   */
  function NormalizeReleaseDate(s: string): (r: Option<Date>)
    ensures r.Some? ==> ValidDate(r.value)
    ensures r.Some? ==> FormatDate(r.value) == (if |s| == 4 then s + "-01-01" else s)
  {
    if |s| == 4 then ParseDate(s + "-01-01") else ParseDate(s)
  }

  /** A four-character value is a date exactly when it is a four-digit year, and then it is January 1 of that year. */
  lemma YearOnlyRule(s: string)
    requires |s| == 4
    ensures NormalizeReleaseDate(s).Some? <==> AllDigits(s) && DigitsValue(s) >= 1
    ensures AllDigits(s) && DigitsValue(s) >= 1 ==> NormalizeReleaseDate(s) == Some(Date(DigitsValue(s), 1, 1))
  {
    var u := "-01-01";
    var t := s + u;
    assert t[..4] == s;
    assert t[5..7] == u[1..3] == "01";
    assert t[8..] == u[4..] == "01";
    assert u[0] == '-' && u[3] == '-';
    assert t[4] == u[0] && t[7] == u[3];
    assert AllDigits("01");
    assert DigitsValue("01") == 1 by {
      assert "01"[..1] == "0";
      assert "0"[..0] == "";
    }
    assert Pow10(4) == 10000;
    if AllDigits(s) {
      var d := Date(DigitsValue(s), 1, 1);
      assert ParseDate(t) == if ValidDate(d) then Some(d) else None;
      assert ValidDate(d) <==> DigitsValue(s) >= 1;
    } else {
      assert !AllDigits(t[..4]);
    }
  }

  /** A full date in canonical form is kept as it is. */
  lemma FullDateRule(d: Date)
    requires ValidDate(d)
    ensures NormalizeReleaseDate(FormatDate(d)) == Some(d)
  {
    ParseFormat(d);
  }

  /** Values that are neither four characters nor ten characters long always become null. */
  lemma MalformedIsNull(s: string)
    requires |s| != 4 && |s| != 10
    ensures NormalizeReleaseDate(s) == None
  {
  }

  /**
   * `to_date(added_at)` without a pattern, simplified: the value starts with a
   * `yyyy-MM-dd` date, which is either the whole value or followed by a time part
   * introduced by 'T' or a space; the time of day is dropped.
   */
  function TruncateToDate(s: string): (r: Option<Date>)
    ensures r.Some? ==> |s| >= 10 && ValidDate(r.value) && FormatDate(r.value) == s[..10]
  {
    if |s| >= 10 && (|s| == 10 || s[10] == 'T' || s[10] == ' ') then ParseDate(s[..10]) else None
  }

  /** A timestamp whose date part is valid is truncated to exactly that date. */
  lemma TruncateTimestamp(d: Date, time: string)
    requires ValidDate(d)
    requires time == [] || time[0] == 'T' || time[0] == ' '
    ensures TruncateToDate(FormatDate(d) + time) == Some(d)
  {
    var s := FormatDate(d) + time;
    assert s[..10] == FormatDate(d);
    ParseFormat(d);
  }

  lemma BareYearExample()
    ensures NormalizeReleaseDate("2020") == Some(Date(2020, 1, 1))
  {
    YearOnlyRule("2020");
    assert DigitsValue("2020") == 2020 by {
      assert "2020"[..3] == "202";
      assert "202"[..2] == "20";
      assert "20"[..1] == "2";
      assert "2"[..0] == "";
    }
  }

  lemma FullDateExample()
    ensures NormalizeReleaseDate("2020-05-17") == Some(Date(2020, 5, 17))
  {
    var s := "2020-05-17";
    assert s[..4] == "2020" && s[5..7] == "05" && s[8..] == "17";
    assert DigitsValue("2020") == 2020 by {
      assert "2020"[..3] == "202";
      assert "202"[..2] == "20";
      assert "20"[..1] == "2";
      assert "2"[..0] == "";
    }
    assert DigitsValue("05") == 5 by {
      assert "05"[..1] == "0";
      assert "0"[..0] == "";
    }
    assert DigitsValue("17") == 17 by {
      assert "17"[..1] == "1";
      assert "1"[..0] == "";
    }
  }

  lemma NullExamples()
    ensures NormalizeReleaseDate("abcd") == None
    ensures NormalizeReleaseDate("17") == None
  {
    YearOnlyRule("abcd");
    assert !IsDigit("abcd"[0]);
  }
}
