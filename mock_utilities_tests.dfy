/** The formatDate example of tests/mocks.test.ts and a format that repeats
    a token, stated over the model. */
module MockUtilitiesTests {
  import opened Text
  import opened MockUtilities

  lemma YearText()
    ensures IntToString(2023) == "2023"
  {
    assert NatToString(2) == "2";
    assert NatToString(20) == NatToString(2) + "0";
    assert NatToString(202) == NatToString(20) + "2";
    assert NatToString(2023) == NatToString(202) + "3";
  }

  lemma PaddedFields(month0: int)
    requires month0 == 0
    ensures PadStart2(IntToString(month0 + 1)) == "01"
    ensures PadStart2(IntToString(15)) == "15"
    ensures PadStart2(IntToString(12)) == "12"
    ensures PadStart2(IntToString(30)) == "30"
    ensures PadStart2(IntToString(45)) == "45"
  {
    assert NatToString(1) == "1";
    assert NatToString(15) == NatToString(1) + "5";
    assert NatToString(12) == NatToString(1) + "2";
    assert NatToString(30) == NatToString(3) + "0";
    assert NatToString(45) == NatToString(4) + "5";
  }

  /** The fields of the example, joined as the standard format joins them. */
  lemma ExampleJoin(month0: int)
    requires month0 == 0
    ensures IntToString(2023) + "/" + PadStart2(IntToString(month0 + 1))
            + "/" + PadStart2(IntToString(15)) + " " + PadStart2(IntToString(12))
            + ":" + PadStart2(IntToString(30)) + ":" + PadStart2(IntToString(45))
            == "2023/01/15 12:30:45"
  {
    YearText();
    PaddedFields(month0);
  }

  /** 15 January 2023, 12:30:45, in any time zone ("JST" in the test). */
  lemma FormatExample(timeZone: string)
    ensures FormatDate(2023, 0, 15, 12, 30, 45, timeZone, "yyyy/MM/dd HH:mm:ss") == "2023/01/15 12:30:45"
  {
    FieldsInPlace(2023, 0, 15, 12, 30, 45, timeZone);
    ExampleJoin(0);
  }

  /** Only the first occurrence of a token is replaced: "dd-dd" gives the
      day and then "-dd", whatever the other fields. */
  lemma OnlyFirstOccurrence(year: int, month0: int, day: int, hours: int, minutes: int, seconds: int,
                            timeZone: string)
    ensures FormatDate(year, month0, day, hours, minutes, seconds, timeZone, "dd-dd")
            == PadStart2(IntToString(day)) + "-dd"
  {
    var d := PadStart2(IntToString(day));
    BeforeDay(IntToString(year), PadStart2(IntToString(month0 + 1)));
    DayOnce(d);
    PlainFields(day);
    AfterDay(d, PadStart2(IntToString(hours)), PadStart2(IntToString(minutes)),
             PadStart2(IntToString(seconds)));
  }

  /** "dd-dd" holds no year and no month token. */
  lemma BeforeDay(y: string, mo: string)
    ensures ReplaceFirst(ReplaceFirst("dd-dd", "yyyy", y), "MM", mo) == "dd-dd"
  {
    FirstCharAbsent("dd-dd", "yyyy");
    ReplaceAbsent("dd-dd", "yyyy", y);
    FirstCharAbsent("dd-dd", "MM");
    ReplaceAbsent("dd-dd", "MM", mo);
  }

  /** Only the first "dd" becomes the day. */
  lemma DayOnce(d: string)
    ensures ReplaceFirst("dd-dd", "dd", d) == d + "-dd"
  {
    assert "dd-dd" == "" + "dd" + "-dd";
    ReplaceAfter("", "dd", "-dd", d);
    assert "" + d + "-dd" == d + "-dd";
  }

  /** The day and "-dd" hold no hour, minute or second token. */
  lemma AfterDay(d: string, h: string, mi: string, sec: string)
    requires Plain(d)
    ensures ReplaceFirst(ReplaceFirst(ReplaceFirst(d + "-dd", "HH", h), "mm", mi), "ss", sec) == d + "-dd"
  {
    PlainLacksTokens(d);
    FirstCharAbsent(d + "-dd", "HH");
    ReplaceAbsent(d + "-dd", "HH", h);
    FirstCharAbsent(d + "-dd", "mm");
    ReplaceAbsent(d + "-dd", "mm", mi);
    FirstCharAbsent(d + "-dd", "ss");
    ReplaceAbsent(d + "-dd", "ss", sec);
  }

  /** With the test's fields, "dd-dd" gives "15-dd". */
  lemma OnlyFirstExample(timeZone: string)
    ensures FormatDate(2023, 0, 15, 12, 30, 45, timeZone, "dd-dd") == "15-dd"
  {
    OnlyFirstOccurrence(2023, 0, 15, 12, 30, 45, timeZone);
    DayJoin();
  }

  lemma DayJoin()
    ensures PadStart2(IntToString(15)) + "-dd" == "15-dd"
  {
    PaddedFields(0);
  }
}
