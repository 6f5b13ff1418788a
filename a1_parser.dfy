/** The A1-notation codec of src/utils/a1-parser.ts: column letters to and
    from 1-based indices (bijective base 26, no zero digit) and the parser
    of range texts such as "A1", "A1:B2", "B:B" and "1:1". */
module A1Parser {
  import opened Wrappers
  import opened Text

  /* ---------- column letters ---------- */

  /** The digit `charCodeAt(i) - 64` that columnLetterToIndex adds for one
      character: 'A' is 1 and 'Z' is 26. */
  function LetterValue(c: char): int { c as int - 64 }

  /** The left fold `index * 26 + LetterValue(c)` over the characters of s:
      the number columnLetterToIndex returns. */
  function ColumnIndex(s: string): (index: int)
    ensures AllUpperLetters(s) && s != [] ==> index >= 1
    ensures AllUpperLetters(s) ==> index >= 0
  {
    if s == [] then 0 else ColumnIndex(s[..|s| - 1]) * 26 + LetterValue(s[|s| - 1])
  }

  /** columnLetterToIndex: the loop of the source, proved to compute the fold. */
  method ColumnLetterToIndex(letter: string) returns (index: int)
    ensures index == ColumnIndex(letter)
    ensures AllUpperLetters(letter) && letter != [] ==> index >= 1
  {
    index := 0;
    for i := 0 to |letter|
      invariant index == ColumnIndex(letter[..i])
    {
      assert letter[..i + 1][..i] == letter[..i];
      index := index * 26 + LetterValue(letter[i]);
    }
    assert letter[..|letter|] == letter;
  }

  /** The letters indexToColumnLetter builds: "" for index <= 0, otherwise the
      letters of `(index - 1) / 26` followed by the letter for `(index - 1) % 26`. */
  function ColumnLetter(index: int): (s: string)
    ensures AllUpperLetters(s)
    ensures s == [] <==> index <= 0
    decreases index
  {
    if index <= 0 then ""
    else ColumnLetter((index - 1) / 26) + [((index - 1) % 26 + 65) as char]
  }

  /** indexToColumnLetter: the loop of the source, which prepends one letter per
      step. `(index - 1) % 26` and `Math.floor((index - temp) / 26)` act on
      positive numbers here, where the source's operators agree with Dafny's. */
  method IndexToColumnLetter(index: int) returns (letter: string)
    ensures letter == ColumnLetter(index)
    ensures AllUpperLetters(letter) && (letter == [] <==> index <= 0)
  {
    letter := "";
    var rest := index;
    while rest > 0
      invariant ColumnLetter(rest) + letter == ColumnLetter(index)
      decreases rest
    {
      var temp := (rest - 1) % 26;
      var next := (rest - temp) / 26;
      assert next == (rest - 1) / 26;
      assert ColumnLetter(rest) == ColumnLetter(next) + [(temp + 65) as char];
      letter := [(temp + 65) as char] + letter;
      rest := next;
    }
  }

  /** Letters to index after index to letters is the identity on indices >= 0. */
  lemma {:induction false} IndexRoundTrip(n: int)
    requires n >= 0
    ensures ColumnIndex(ColumnLetter(n)) == n
  {
    if n > 0 {
      var q := (n - 1) / 26;
      IndexRoundTrip(q);
      var s := ColumnLetter(n);
      assert s[..|s| - 1] == ColumnLetter(q);
    }
  }

  /** Index to letters after letters to index is the identity on upper-case
      letter strings (the empty string included). */
  lemma {:induction false} LetterRoundTrip(s: string)
    requires AllUpperLetters(s)
    ensures ColumnLetter(ColumnIndex(s)) == s
  {
    if s != [] {
      var p := s[..|s| - 1];
      assert AllUpperLetters(p);
      LetterRoundTrip(p);
      var n := ColumnIndex(s);
      var d := LetterValue(s[|s| - 1]);
      assert n - 1 == ColumnIndex(p) * 26 + (d - 1);
      assert (n - 1) / 26 == ColumnIndex(p) && (n - 1) % 26 == d - 1;
      assert s == p + [s[|s| - 1]];
    }
  }

  /* ---------- the range grammar ---------- */

  /** One side of the colon: the groups `([A-Z]*)([0-9]*)`. */
  datatype Segment = Segment(letters: string, digits: string)

  /** Cutting `s` at `i` leaves letters before and digits after. */
  predicate SplitAt(s: string, i: int)
  {
    && 0 <= i <= |s|
    && (forall j :: 0 <= j < i ==> IsLetter(s[j]))
    && (forall j :: i <= j < |s| ==> IsDigit(s[j]))
  }

  /** `s` is a run of letters followed by a run of digits. */
  ghost predicate IsSegment(s: string)
  {
    exists i :: SplitAt(s, i)
  }

  /** `t` has a colon at `k` with a segment on either side. */
  ghost predicate ColonSplit(t: string, k: int)
  {
    0 <= k < |t| && t[k] == ':' && IsSegment(t[..k]) && IsSegment(t[k + 1..])
  }

  /** The language of `^([A-Z]*)([0-9]*)(?::([A-Z]*)([0-9]*))?$` with the `i` flag. */
  ghost predicate InGrammar(t: string)
  {
    IsSegment(t) || exists k :: ColonSplit(t, k)
  }

  /** Index of the first non-letter at or after `from`, or |s| when there is none. */
  function LetterRunFrom(s: string, from: nat): (n: nat)
    requires from <= |s|
    ensures from <= n <= |s|
    ensures forall j :: from <= j < n ==> IsLetter(s[j])
    ensures n < |s| ==> !IsLetter(s[n])
    decreases |s| - from
  {
    if from == |s| || !IsLetter(s[from]) then from else LetterRunFrom(s, from + 1)
  }

  /** Length of the longest prefix of letters. */
  function LetterRun(s: string): (n: nat)
    ensures n <= |s| && AllLetters(s[..n])
    ensures forall j :: 0 <= j < n ==> IsLetter(s[j])
    ensures n < |s| ==> !IsLetter(s[n])
  {
    LetterRunFrom(s, 0)
  }

  /** A split into letters and digits is unique: it is at the letter run. */
  lemma SegmentSplitUnique(s: string, i: int)
    requires SplitAt(s, i)
    ensures LetterRun(s) == i
  {
    var n := LetterRun(s);
    assert n < |s| ==> !IsLetter(s[n]);
    assert i < |s| ==> IsDigit(s[i]) && !IsLetter(s[i]);
  }

  /** Matches one side of the colon, greedy as the regular expression is. */
  function MatchSegment(s: string): (r: Option<Segment>)
    ensures r.Some? <==> IsSegment(s)
    ensures r.Some? ==> s == r.value.letters + r.value.digits
                        && AllLetters(r.value.letters) && AllDigits(r.value.digits)
  {
    var n := LetterRun(s);
    if AllDigits(s[n..]) then
      SplitAtRun(s);
      assert s == s[..n] + s[n..];
      Some(Segment(s[..n], s[n..]))
    else
      NoSplit(s);
      None
  }

  /** When digits follow the letter run, the text splits there. */
  lemma SplitAtRun(s: string)
    requires AllDigits(s[LetterRun(s)..])
    ensures SplitAt(s, LetterRun(s))
  {
    var n := LetterRun(s);
    forall j | n <= j < |s| ensures IsDigit(s[j]) {
      assert s[n..][j - n] == s[j];
    }
  }

  /** When something other than digits follows the letter run, no split exists. */
  lemma NoSplit(s: string)
    requires !AllDigits(s[LetterRun(s)..])
    ensures !IsSegment(s)
  {
    if i :| SplitAt(s, i) {
      SegmentSplitUnique(s, i);
    }
  }

  /** Letters followed by digits match as exactly those two groups. */
  lemma MatchSegmentOf(letters: string, digits: string)
    requires AllLetters(letters) && AllDigits(digits)
    ensures MatchSegment(letters + digits) == Some(Segment(letters, digits))
  {
    var s := letters + digits;
    assert s[..|letters|] == letters && s[|letters|..] == digits;
    assert SplitAt(s, |letters|) by {
      forall j | |letters| <= j < |s| ensures IsDigit(s[j]) {
        assert s[j] == digits[j - |letters|];
      }
    }
    SegmentSplitUnique(s, |letters|);
  }

  /** A segment holds no colon. */
  lemma SegmentHasNoColon(s: string)
    requires IsSegment(s)
    ensures forall i :: 0 <= i < |s| ==> s[i] != ':'
  {
    var seg := MatchSegment(s).value;
    forall i | 0 <= i < |s| ensures s[i] != ':' {
      if i < |seg.letters| { assert s[i] == seg.letters[i]; }
      else { assert s[i] == seg.digits[i - |seg.letters|]; }
    }
  }

  /** Index of the first ':' at or after `from`, or |t| when there is none. */
  function ColonFrom(t: string, from: nat): (k: nat)
    requires from <= |t|
    ensures from <= k <= |t| && (k < |t| ==> t[k] == ':')
    ensures forall i :: from <= i < k ==> t[i] != ':'
    decreases |t| - from
  {
    if from == |t| || t[from] == ':' then from else ColonFrom(t, from + 1)
  }

  /** Index of the first ':' in t, or |t| when there is none. */
  function ColonIndex(t: string): (k: nat)
    ensures k <= |t| && (k < |t| ==> t[k] == ':')
    ensures forall i :: 0 <= i < k ==> t[i] != ':'
  {
    ColonFrom(t, 0)
  }

  /** A colon after a segment is the first colon. */
  lemma ColonAfterSegment(t: string, j: int)
    requires 0 <= j < |t| && t[j] == ':' && IsSegment(t[..j])
    ensures ColonIndex(t) == j
  {
    SegmentHasNoColon(t[..j]);
    forall i | 0 <= i < j ensures t[i] != ':' {
      assert t[..j][i] == t[i];
    }
    ColonIndexUnique(t, j);
  }

  /** Both sides of the first colon of a text in the grammar are segments. */
  lemma SidesFromGrammar(t: string)
    requires InGrammar(t)
    ensures var k := ColonIndex(t);
      MatchSegment(t[..k]).Some? && (k == |t| || MatchSegment(t[k + 1..]).Some?)
  {
    var k := ColonIndex(t);
    if IsSegment(t) {
      SegmentHasNoColon(t);
      assert k == |t|;
      assert t[..k] == t;
    } else {
      var j :| ColonSplit(t, j);
      ColonAfterSegment(t, j);
    }
  }

  /** A text whose sides around the first colon are segments is in the grammar. */
  lemma GrammarFromSides(t: string)
    requires var k := ColonIndex(t);
      MatchSegment(t[..k]).Some? && (k == |t| || MatchSegment(t[k + 1..]).Some?)
    ensures InGrammar(t)
  {
    var k := ColonIndex(t);
    if k == |t| {
      assert t[..k] == t;
      assert IsSegment(t);
    } else {
      assert ColonSplit(t, k);
    }
  }

  /** The grammar read through the first colon: the text before it is a
      segment, and so is the text after it when there is one. */
  lemma GrammarAtColon(t: string)
    ensures var k := ColonIndex(t);
      InGrammar(t) <==>
        MatchSegment(t[..k]).Some? && (k == |t| || MatchSegment(t[k + 1..]).Some?)
  {
    var k := ColonIndex(t);
    if InGrammar(t) {
      SidesFromGrammar(t);
    }
    if MatchSegment(t[..k]).Some? && (k == |t| || MatchSegment(t[k + 1..]).Some?) {
      GrammarFromSides(t);
    }
  }

  /* ---------- parseA1Notation ---------- */

  /** The record parseA1Notation returns; its optional fields become Option. */
  datatype ParsedRange = ParsedRange(
    startRow: int, startCol: int,
    endRow: Option<int>, endCol: Option<int>,
    numRows: Option<int>, numCols: Option<int>)

  datatype ParseError = InvalidNotation(text: string)

  /** A group's column index after `toUpperCase`; used only for non-empty groups. */
  function ColumnOf(letters: string): int
  {
    ColumnIndex(Upper(letters))
  }

  /** Lines 46-69 of a1-parser.ts: the record built from the four groups.
      A group that did not take part in the match is the empty string here,
      since the source tests both with the same falsy check. */
  function Build(first: Segment, second: Segment): (p: ParsedRange)
    requires AllLetters(first.letters) && AllDigits(first.digits)
    requires AllLetters(second.letters) && AllDigits(second.digits)
    ensures second.letters == "" && second.digits == "" ==>
      p.endRow.None? && p.endCol.None? && p.numRows == Some(1) && p.numCols == Some(1)
    ensures second.letters != "" || second.digits != "" ==>
      && (p.endRow.None? <==> first.digits == "" && second.digits == "")
      && (p.endCol.None? <==> first.letters == "" && second.letters == "")
      && (p.numRows.Some? <==> p.endRow.Some?) && (p.numCols.Some? <==> p.endCol.Some?)
    ensures p.endRow.Some? ==> p.startRow + p.numRows.value - 1 == p.endRow.value
    ensures p.endCol.Some? ==> p.startCol + p.numCols.value - 1 == p.endCol.value
  {
    var startCol := if first.letters != "" then ColumnOf(first.letters) else 1;
    var startRow := if first.digits != "" then DecimalValue(first.digits) else 1;
    if second.letters == "" && second.digits == "" then
      ParsedRange(startRow, startCol, None, None, Some(1), Some(1))
    else
      var endCol :=
        if second.letters != "" then Some(ColumnOf(second.letters))
        else if first.letters != "" then Some(startCol)
        else None;
      var endRow :=
        if second.digits != "" then Some(DecimalValue(second.digits))
        else if first.digits != "" then Some(startRow)
        else None;
      ParsedRange(
        startRow, startCol, endRow, endCol,
        if endRow.Some? then Some(endRow.value - startRow + 1) else None,
        if endCol.Some? then Some(endCol.value - startCol + 1) else None)
  }

  /** The four groups of the regular expression: the segment before the first
      colon and the one after it, or None when the text does not match. A
      missing right-hand side is the pair of empty groups. */
  function MatchSides(t: string): (r: Option<(Segment, Segment)>)
    ensures r.Some? <==> InGrammar(t)
    ensures r.Some? ==>
      && AllLetters(r.value.0.letters) && AllDigits(r.value.0.digits)
      && AllLetters(r.value.1.letters) && AllDigits(r.value.1.digits)
  {
    var k := ColonIndex(t);
    GrammarAtColon(t);
    match MatchSegment(t[..k])
    case None => None
    case Some(first) =>
      if k == |t| then Some((first, Segment("", "")))
      else
        match MatchSegment(t[k + 1..])
        case None => None
        case Some(second) => Some((first, second))
  }

  /** parseA1Notation: throws exactly on texts outside the grammar. */
  function ParseA1Notation(a1: string): (r: Result<ParsedRange, ParseError>)
    ensures r.Failure? <==> !InGrammar(a1)
    ensures r.Failure? ==> r.error == InvalidNotation(a1)
  {
    match MatchSides(a1)
    case None => Failure(InvalidNotation(a1))
    case Some((first, second)) => Success(Build(first, second))
  }

  /** A text without a colon: start cell from the groups, size 1 x 1, no end. */
  lemma ParseCell(col: string, row: string)
    requires AllLetters(col) && AllDigits(row)
    ensures ParseA1Notation(col + row).Success?
    ensures var p := ParseA1Notation(col + row).value;
      && p.startCol == (if col != "" then ColumnIndex(Upper(col)) else 1)
      && p.startRow == (if row != "" then DecimalValue(row) else 1)
      && p.numRows == Some(1) && p.numCols == Some(1)
      && p.endRow == None && p.endCol == None
  {
    var t := col + row;
    MatchSegmentOf(col, row);
    SegmentHasNoColon(t);
    assert ColonIndex(t) == |t|;
    assert t[..|t|] == t;
  }

  /** A text with one colon: ends fall back to the start of the same axis only
      when that start was written; sizes are `end - start + 1`. An empty
      right-hand side gives the 1 x 1 range at the start cell. */
  lemma ParseSpan(col1: string, row1: string, col2: string, row2: string)
    requires AllLetters(col1) && AllDigits(row1) && AllLetters(col2) && AllDigits(row2)
    ensures ParseA1Notation(col1 + row1 + ":" + col2 + row2).Success?
    ensures var p := ParseA1Notation(col1 + row1 + ":" + col2 + row2).value;
      && p.startCol == (if col1 != "" then ColumnIndex(Upper(col1)) else 1)
      && p.startRow == (if row1 != "" then DecimalValue(row1) else 1)
      && (col2 == "" && row2 == "" ==>
            p.numRows == Some(1) && p.numCols == Some(1) && p.endRow == None && p.endCol == None)
      && (col2 != "" || row2 != "" ==>
            && p.endCol == (if col2 != "" then Some(ColumnIndex(Upper(col2)))
                            else if col1 != "" then Some(p.startCol) else None)
            && p.endRow == (if row2 != "" then Some(DecimalValue(row2))
                            else if row1 != "" then Some(p.startRow) else None)
            && (p.endCol.Some? <==> p.numCols.Some?)
            && (p.endCol.Some? ==> p.numCols.value == p.endCol.value - p.startCol + 1)
            && (p.endRow.Some? <==> p.numRows.Some?)
            && (p.endRow.Some? ==> p.numRows.value == p.endRow.value - p.startRow + 1))
  {
    var left := col1 + row1;
    var right := col2 + row2;
    MatchSegmentOf(col1, row1);
    MatchSegmentOf(col2, row2);
    ParseOfSplit(left, right);
    assert col1 + row1 + ":" + col2 + row2 == left + ":" + right;
  }

  /** Two segments joined by a colon parse as those two segments. */
  lemma ParseOfSplit(left: string, right: string)
    requires MatchSegment(left).Some? && MatchSegment(right).Some?
    ensures ParseA1Notation(left + ":" + right)
              == Success(Build(MatchSegment(left).value, MatchSegment(right).value))
  {
    var t := left + ":" + right;
    assert t[..|left|] == left && t[|left|] == ':' && t[|left| + 1..] == right;
    ColonAfterSegment(t, |left|);
  }

  /** The first colon is determined by the two properties ColonIndex promises. */
  lemma ColonIndexUnique(t: string, k: nat)
    requires k <= |t| && (k < |t| ==> t[k] == ':')
    requires forall i :: 0 <= i < k ==> t[i] != ':'
    ensures ColonIndex(t) == k
  {
    ColonFromUnique(t, 0, k);
  }

  lemma {:induction false} ColonFromUnique(t: string, from: nat, k: nat)
    requires from <= k <= |t| && (k < |t| ==> t[k] == ':')
    requires forall i :: from <= i < k ==> t[i] != ':'
    ensures ColonFrom(t, from) == k
    decreases k - from
  {
    if from < k {
      ColonFromUnique(t, from + 1, k);
    }
  }

  lemma UpperAppend(a: string, b: string)
    ensures Upper(a + b) == Upper(a) + Upper(b)
  {
  }

  lemma UpperOfLetters(a: string)
    requires AllLetters(a)
    ensures AllLetters(Upper(a)) && Upper(Upper(a)) == Upper(a)
  {
  }

  lemma UpperOfDigits(d: string)
    requires AllDigits(d)
    ensures Upper(d) == d
  {
  }

  /** Upper-casing maps the letter/digit split of a segment to the split of
      its upper-case form. */
  lemma UpperSegment(s: string)
    ensures MatchSegment(Upper(s)).Some? <==> MatchSegment(s).Some?
    ensures MatchSegment(s).Some? ==>
              MatchSegment(Upper(s)).value
                == Segment(Upper(MatchSegment(s).value.letters), MatchSegment(s).value.digits)
  {
    if MatchSegment(s).Some? {
      UpperOfSegment(s);
    }
    if MatchSegment(Upper(s)).Some? {
      SegmentOfUpper(s);
    }
  }

  /** A segment upper-cases to the segment of its upper-cased letters. */
  lemma UpperOfSegment(s: string)
    requires MatchSegment(s).Some?
    ensures MatchSegment(Upper(s))
              == Some(Segment(Upper(MatchSegment(s).value.letters), MatchSegment(s).value.digits))
  {
    var a := MatchSegment(s).value;
    UpperAppend(a.letters, a.digits);
    UpperOfLetters(a.letters);
    UpperOfDigits(a.digits);
    MatchSegmentOf(Upper(a.letters), a.digits);
  }

  /** A text whose upper-case form is a segment is a segment. */
  lemma SegmentOfUpper(s: string)
    requires MatchSegment(Upper(s)).Some?
    ensures MatchSegment(s).Some?
  {
    var u := Upper(s);
    var b := MatchSegment(u).value;
    var n := |b.letters|;
    assert u[..n] == b.letters && u[n..] == b.digits;
    forall i | 0 <= i < n ensures IsLetter(s[i]) {
      UpperKeepsClasses(s[i]);
      assert IsLetter(u[i]);
    }
    forall i | n <= i < |s| ensures IsDigit(s[i]) {
      UpperKeepsClasses(s[i]);
      assert IsDigit(u[n..][i - n]);
    }
    assert s == s[..n] + s[n..];
    MatchSegmentOf(s[..n], s[n..]);
  }

  /** The record always starts inside the sheet's columns: column 1 or
      more, and a row that is not negative. */
  lemma BuildStart(first: Segment, second: Segment)
    requires AllLetters(first.letters) && AllDigits(first.digits)
    requires AllLetters(second.letters) && AllDigits(second.digits)
    ensures Build(first, second).startCol >= 1 && Build(first, second).startRow >= 0
  {
    if first.letters != "" {
      assert AllUpperLetters(Upper(first.letters));
    }
  }

  /** Upper-casing the letter groups does not change the record built. */
  lemma BuildIgnoresCase(first: Segment, second: Segment)
    requires AllLetters(first.letters) && AllDigits(first.digits)
    requires AllLetters(second.letters) && AllDigits(second.digits)
    ensures Build(Segment(Upper(first.letters), first.digits), Segment(Upper(second.letters), second.digits))
        == Build(first, second)
  {
    UpperOfLetters(first.letters);
    UpperOfLetters(second.letters);
    assert ColumnOf(Upper(first.letters)) == ColumnOf(first.letters);
    assert ColumnOf(Upper(second.letters)) == ColumnOf(second.letters);
    assert Upper(first.letters) == "" <==> first.letters == "";
    assert Upper(second.letters) == "" <==> second.letters == "";
  }

  /** Upper-casing moves no colon, so the first colon stays where it was. */
  lemma UpperColonIndex(t: string)
    ensures ColonIndex(Upper(t)) == ColonIndex(t)
  {
    var u := Upper(t);
    var k := ColonIndex(t);
    forall i | 0 <= i < |t| ensures (u[i] == ':') <==> (t[i] == ':') {
      UpperKeepsClasses(t[i]);
    }
    assert forall i :: 0 <= i < k ==> u[i] != ':';
    assert k < |u| ==> u[k] == ':';
    ColonIndexUnique(u, k);
  }

  /** The two sides of a cut upper-case separately. */
  lemma UpperSlices(t: string, k: nat)
    requires k <= |t|
    ensures Upper(t)[..k] == Upper(t[..k])
    ensures k < |t| ==> Upper(t)[k + 1..] == Upper(t[k + 1..])
  {
    var u := Upper(t);
    assert |u[..k]| == |Upper(t[..k])|;
    forall i | 0 <= i < k ensures u[..k][i] == Upper(t[..k])[i] {
      assert t[..k][i] == t[i];
    }
    if k < |t| {
      var right := t[k + 1..];
      var upperRight := u[k + 1..];
      forall i | 0 <= i < |right| ensures upperRight[i] == Upper(right)[i] {
        assert right[i] == t[k + 1 + i];
      }
    }
  }

  /** parseA1Notation read through its two sides. */
  lemma ParseBySides(t: string)
    ensures var k := ColonIndex(t);
      var first := MatchSegment(t[..k]);
      var second := if k == |t| then Some(Segment("", "")) else MatchSegment(t[k + 1..]);
      ParseA1Notation(t)
        == if first.None? || second.None? then Failure(InvalidNotation(t))
           else Success(Build(first.value, second.value))
  {
  }

  /** Letter case does not matter: a text and its upper-case form are accepted
      together and, when accepted, give the same range. */
  lemma CaseInsensitive(t: string)
    ensures ParseA1Notation(Upper(t)).Success? <==> ParseA1Notation(t).Success?
    ensures ParseA1Notation(t).Success? ==>
              ParseA1Notation(Upper(t)).value == ParseA1Notation(t).value
  {
    var u := Upper(t);
    var k := ColonIndex(t);
    UpperColonIndex(t);
    UpperSlices(t, k);
    UpperSegment(t[..k]);
    var ft := MatchSegment(t[..k]);
    var st := if k == |t| then Some(Segment("", "")) else MatchSegment(t[k + 1..]);
    var su := if k == |t| then Some(Segment("", "")) else MatchSegment(u[k + 1..]);
    if k < |t| {
      UpperSegment(t[k + 1..]);
    }
    assert st.Some? <==> su.Some?;
    assert st.Some? ==> su.value == Segment(Upper(st.value.letters), st.value.digits);
    ParseBySides(t);
    ParseBySides(u);
    if ft.Some? && st.Some? {
      BuildIgnoresCase(ft.value, st.value);
    }
  }
}
