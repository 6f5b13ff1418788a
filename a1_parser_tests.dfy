/** The examples of tests/utils/a1-parser.test.ts, proved about the model. */
module A1ParserTests {
  import opened Wrappers
  import opened Text
  import opened A1Parser

  /** The examples of the codec's unit tests for column letters. */
  lemma ColumnExamples()
    ensures ColumnIndex("A") == 1 && ColumnIndex("Z") == 26
    ensures ColumnIndex("AA") == 27 && ColumnIndex("AZ") == 52
    ensures ColumnLetter(1) == "A" && ColumnLetter(26) == "Z"
    ensures ColumnLetter(27) == "AA" && ColumnLetter(52) == "AZ"
  {
  }

  /** Unit-test example: "A1" is the 1 x 1 range at row 1, column 1. */
  lemma ParseExampleCell()
    ensures ParseA1Notation("A1") == Success(ParsedRange(1, 1, None, None, Some(1), Some(1)))
  {
    ParseCell("A", "1");
    assert "A" + "1" == "A1";
    assert Upper("A") == "A";
    assert ColumnIndex("A") == 1;
    assert DecimalValue("1") == 1;
  }

  /** Unit-test example: "A1:B2" is 2 x 2 with its end cell recorded. */
  lemma ParseExampleSpan()
    ensures ParseA1Notation("A1:B2") == Success(ParsedRange(1, 1, Some(2), Some(2), Some(2), Some(2)))
  {
    SpanExampleGroups();
    SpanExampleBuild();
  }

  /** "A1:B2" splits at index 2 into the groups "A", "1" and "B", "2". */
  lemma SpanExampleGroups()
    ensures ParseA1Notation("A1:B2") == Success(Build(Segment("A", "1"), Segment("B", "2")))
  {
    assert ColonIndex("A1:B2") == 2;
    assert "A1:B2"[..2] == "A1" && "A1:B2"[3..] == "B2";
    MatchSegmentOf("A", "1");
    assert "A" + "1" == "A1";
    MatchSegmentOf("B", "2");
    assert "B" + "2" == "B2";
  }

  lemma SpanExampleBuild()
    ensures Build(Segment("A", "1"), Segment("B", "2")) == ParsedRange(1, 1, Some(2), Some(2), Some(2), Some(2))
  {
    assert Upper("A") == "A" && Upper("B") == "B";
  }

  /** Unit-test example: "B:B" fixes column 2 and leaves the rows open. */
  lemma ParseExampleColumnBand()
    ensures var p := ParseA1Notation("B:B");
      p.Success? && p.value.startCol == 2 && p.value.endCol == Some(2)
      && p.value.numCols == Some(1) && p.value.numRows == None
  {
    ParseSpan("B", "", "B", "");
    assert "B" + "" + ":" + "B" + "" == "B:B";
  }

  /** Unit-test example: "!!!" is rejected. */
  lemma ParseExampleInvalid()
    ensures ParseA1Notation("!!!") == Failure(InvalidNotation("!!!"))
  {
    assert ColonIndex("!!!") == 3;
    assert "!!!"[..3] == "!!!";
    assert LetterRun("!!!") == 0;
    assert !IsDigit("!!!"[0]);
  }
}
