/** `Utilities.formatDate` of src/mocks/MockUtilities.ts. The host `Date` is
    replaced by its six local-time components (the month counted from 0, as
    `getMonth` does); the time zone is accepted and ignored. */
module MockUtilities {
  import opened Wrappers
  import opened Text

  /** `pat` occurs in `s` starting at index `j`. */
  predicate OccursAt(s: string, pat: string, j: int)
  {
    0 <= j && j + |pat| <= |s| && s[j..j + |pat|] == pat
  }

  /** The first occurrence of `pat` in `s` at or after `from`. */
  function IndexFrom(s: string, pat: string, from: nat): (r: Option<nat>)
    ensures r.Some? ==> from <= r.value && OccursAt(s, pat, r.value)
    decreases |s| - from
  {
    if from + |pat| > |s| then None
    else if s[from..from + |pat|] == pat then Some(from)
    else IndexFrom(s, pat, from + 1)
  }

  /** The occurrence `IndexFrom` finds is the first one at or after `from`,
      and when it finds none there is none. */
  lemma {:induction false} IndexFromFirst(s: string, pat: string, from: nat)
    ensures var r := IndexFrom(s, pat, from);
      && (r.Some? ==> forall j :: from <= j < r.value ==> !OccursAt(s, pat, j))
      && (r.None? ==> forall j :: from <= j ==> !OccursAt(s, pat, j))
    decreases |s| - from
  {
    if from + |pat| <= |s| && s[from..from + |pat|] != pat {
      IndexFromFirst(s, pat, from + 1);
    }
  }

  /** `String.prototype.indexOf`: the first occurrence of `pat` in `s`. */
  function IndexOf(s: string, pat: string): (r: Option<nat>)
    ensures r.Some? ==> OccursAt(s, pat, r.value)
  {
    IndexFrom(s, pat, 0)
  }

  /** `indexOf` finds the first occurrence, and finds none exactly when
      there is none. */
  lemma IndexOfFirst(s: string, pat: string)
    ensures IndexOf(s, pat).Some? ==> forall j :: 0 <= j < IndexOf(s, pat).value ==> !OccursAt(s, pat, j)
    ensures IndexOf(s, pat).None? <==> forall j :: !OccursAt(s, pat, j)
  {
    IndexFromFirst(s, pat, 0);
  }

  /** `String.prototype.replace` with a string pattern: only the first
      occurrence is replaced. The replacements used here hold no `$`, so no
      substitution pattern applies. */
  function ReplaceFirst(s: string, pat: string, rep: string): (r: string)
    ensures IndexOf(s, pat).None? ==> r == s
    ensures IndexOf(s, pat).Some? ==> |r| == |s| - |pat| + |rep|
    ensures (forall j :: !OccursAt(s, pat, j)) ==> r == s
    ensures forall i :: OccursAt(s, pat, i) && (forall j :: 0 <= j < i ==> !OccursAt(s, pat, j)) ==>
      r == s[..i] + rep + s[i + |pat|..]
  {
    IndexOfFirst(s, pat);
    match IndexOf(s, pat)
    case None => s
    case Some(i) => s[..i] + rep + s[i + |pat|..]
  }

  /** `padStart(2, '0')`: zeros in front up to length 2. */
  function PadStart2(s: string): (r: string)
    ensures |s| >= 2 ==> r == s
    ensures |s| == 1 ==> r == ['0'] + s
    ensures s == [] ==> r == "00"
  {
    if |s| >= 2 then s else seq(2 - |s|, _ => '0') + s
  }

  /** `formatDate`: the year unpadded and the other five fields padded to two
      digits replace the first occurrence of `yyyy`, `MM`, `dd`, `HH`, `mm`
      and `ss`, in that order. */
  function FormatDate(year: int, month0: int, day: int, hours: int, minutes: int, seconds: int,
                      timeZone: string, format: string): string
  {
    var month := PadStart2(IntToString(month0 + 1));
    var dayText := PadStart2(IntToString(day));
    var hoursText := PadStart2(IntToString(hours));
    var minutesText := PadStart2(IntToString(minutes));
    var secondsText := PadStart2(IntToString(seconds));
    ReplaceFirst(ReplaceFirst(ReplaceFirst(ReplaceFirst(ReplaceFirst(ReplaceFirst(
      format, "yyyy", IntToString(year)), "MM", month), "dd", dayText), "HH", hoursText), "mm", minutesText),
      "ss", secondsText)
  }

  /** The six tokens, in the order they are replaced. */
  const Tokens: seq<string> := ["yyyy", "MM", "dd", "HH", "mm", "ss"]

  /* ---------- replacement ---------- */

  /** A pattern that occurs nowhere leaves the text unchanged. */
  lemma ReplaceAbsent(s: string, pat: string, rep: string)
    requires forall j :: !OccursAt(s, pat, j)
    ensures ReplaceFirst(s, pat, rep) == s
  {
    IndexOfFirst(s, pat);
  }

  /** When the first character of `pat` does not occur in `a`, the first
      occurrence of `pat` in `a + pat + b` is right after `a`, and that one is
      replaced. */
  lemma {:induction false} ReplaceAfter(a: string, pat: string, b: string, rep: string)
    requires |pat| > 0 && pat[0] !in a
    ensures IndexOf(a + pat + b, pat) == Some(|a|)
    ensures ReplaceFirst(a + pat + b, pat, rep) == a + rep + b
  {
    var s := a + pat + b;
    assert OccursAt(s, pat, |a|) by {
      assert s[|a|..|a| + |pat|] == pat;
    }
    forall j | 0 <= j < |a| ensures !OccursAt(s, pat, j) {
      assert s[j] == a[j];
    }
    IndexOfFirst(s, pat);
    var r := IndexOf(s, pat);
    assert r.Some? && r.value <= |a|;
    assert r.value == |a|;
    assert s[..|a|] == a;
    assert s[|a| + |pat|..] == b;
  }

  /** A pattern whose first character is missing from the text occurs
      nowhere in it. Only digits and a minus sign are ever inserted, so no
      token occurs in an inserted text. */
  lemma FirstCharAbsent(s: string, pat: string)
    requires |pat| > 0 && pat[0] !in s
    ensures forall j :: !OccursAt(s, pat, j)
  {
    forall j | 0 <= j < |s| ensures !OccursAt(s, pat, j) {
      if j + |pat| <= |s| {
        assert s[j..j + |pat|][0] == s[j];
      }
    }
  }

  /** One more replacement in a left-to-right rewrite: the text so far is
      `done`, and the rest of the format is `sep`, then the token, then `tail`. */
  lemma ReplaceNext(done: string, sep: string, pat: string, tail: string, rep: string)
    requires |pat| > 0 && pat[0] !in done && pat[0] !in sep
    ensures ReplaceFirst(done + (sep + pat + tail), pat, rep) == done + sep + rep + tail
  {
    assert done + (sep + pat + tail) == (done + sep) + pat + tail;
    ReplaceAfter(done + sep, pat, tail, rep);
  }

  /* ---------- padding ---------- */

  /** The text of a number from 0 to 99, padded to two places, is two digits
      whose decimal value is the number. */
  lemma TwoDigits(n: int)
    requires 0 <= n <= 99
    ensures |PadStart2(IntToString(n))| == 2
    ensures AllDigits(PadStart2(IntToString(n)))
    ensures DecimalValue(PadStart2(IntToString(n))) == n
  {
    var t := IntToString(n);
    DecimalOfNatToString(n);
    if n < 10 {
      var p := PadStart2(t);
      assert p == ['0'] + t;
      assert p[..1] == ['0'];
      assert DecimalValue(p[..1]) == 0 by {
        assert p[..1][..0] == [];
      }
      assert t[..0] == [];
    } else {
      assert |t| == 2 by {
        var q := NatToString(n / 10);
        assert |q| == 1;
      }
    }
  }

  /* ---------- what formatDate promises ---------- */

  /** A format holding none of the tokens comes back unchanged. */
  lemma NoTokensUnchanged(year: int, month0: int, day: int, hours: int, minutes: int, seconds: int,
                          timeZone: string, format: string)
    requires forall t, j :: t in Tokens ==> !OccursAt(format, t, j)
    ensures FormatDate(year, month0, day, hours, minutes, seconds, timeZone, format) == format
  {
    assert Tokens[0] == "yyyy" && Tokens[1] == "MM" && Tokens[2] == "dd";
    assert Tokens[3] == "HH" && Tokens[4] == "mm" && Tokens[5] == "ss";
    ReplaceAbsent(format, "yyyy", IntToString(year));
    ReplaceAbsent(format, "MM", PadStart2(IntToString(month0 + 1)));
    ReplaceAbsent(format, "dd", PadStart2(IntToString(day)));
    ReplaceAbsent(format, "HH", PadStart2(IntToString(hours)));
    ReplaceAbsent(format, "mm", PadStart2(IntToString(minutes)));
    ReplaceAbsent(format, "ss", PadStart2(IntToString(seconds)));
  }

  /** The time zone has no effect on the result. */
  lemma TimeZoneIgnored(year: int, month0: int, day: int, hours: int, minutes: int, seconds: int,
                        zone1: string, zone2: string, format: string)
    ensures FormatDate(year, month0, day, hours, minutes, seconds, zone1, format)
            == FormatDate(year, month0, day, hours, minutes, seconds, zone2, format)
  {
  }

  /** The month is 1-based: the format "MM" gives two digits reading
      `month0 + 1`, for every month `getMonth` can return. */
  lemma MonthIsOneBased(year: int, month0: int, day: int, hours: int, minutes: int, seconds: int,
                        timeZone: string)
    requires 0 <= month0 <= 11
    ensures var out := FormatDate(year, month0, day, hours, minutes, seconds, timeZone, "MM");
      |out| == 2 && AllDigits(out) && DecimalValue(out) == month0 + 1
  {
    var month := PadStart2(IntToString(month0 + 1));
    TwoDigits(month0 + 1);
    ReplaceAbsent("MM", "yyyy", IntToString(year));
    ReplaceAfter("", "MM", "", month);
    assert "" + "MM" + "" == "MM";
    assert "" + month + "" == month;
    forall i | 0 <= i < |month| ensures month[i] !in "dHms" {
      assert IsDigit(month[i]);
    }
    FirstCharAbsent(month, "dd");
    FirstCharAbsent(month, "HH");
    FirstCharAbsent(month, "mm");
    FirstCharAbsent(month, "ss");
    ReplaceAbsent(month, "dd", PadStart2(IntToString(day)));
    ReplaceAbsent(month, "HH", PadStart2(IntToString(hours)));
    ReplaceAbsent(month, "mm", PadStart2(IntToString(minutes)));
    ReplaceAbsent(month, "ss", PadStart2(IntToString(seconds)));
  }

  /** No character of `s` starts a token. */
  predicate Plain(s: string)
  {
    forall i :: 0 <= i < |s| ==> s[i] !in "yMdHms"
  }

  lemma PlainJoin(a: string, b: string)
    requires Plain(a) && Plain(b)
    ensures Plain(a + b)
  {
    forall i | 0 <= i < |a + b| ensures (a + b)[i] !in "yMdHms" {
      if i < |a| { assert (a + b)[i] == a[i]; } else { assert (a + b)[i] == b[i - |a|]; }
    }
  }

  lemma PlainLacksTokens(s: string)
    requires Plain(s)
    ensures 'y' !in s && 'M' !in s && 'd' !in s && 'H' !in s && 'm' !in s && 's' !in s
  {
  }

  /** Every field formatDate inserts is made of digits and possibly a minus
      sign, so it holds no token letter. */
  lemma PlainFields(n: int)
    ensures Plain(IntToString(n)) && Plain(PadStart2(IntToString(n)))
  {
    var t := IntToString(n);
    forall i | 0 <= i < |t| ensures t[i] !in "yMdHms" {
      if i > 0 && n < 0 {
        assert t[1..][i - 1] == t[i];
      }
    }
    var p := PadStart2(t);
    if |t| == 1 {
      assert p == ['0'] + t;
      PlainJoin(['0'], t);
    }
  }

  /** The separators of the standard format, and how it splits at each token. */
  lemma StandardPieces()
    ensures Plain("/") && Plain(" ") && Plain(":")
    ensures "yyyy/MM/dd HH:mm:ss" == "" + ("" + "yyyy" + "/MM/dd HH:mm:ss")
    ensures "/MM/dd HH:mm:ss" == "/" + "MM" + "/dd HH:mm:ss"
    ensures "/dd HH:mm:ss" == "/" + "dd" + " HH:mm:ss"
    ensures " HH:mm:ss" == " " + "HH" + ":mm:ss"
    ensures ":mm:ss" == ":" + "mm" + ":ss"
    ensures ":ss" == ":" + "ss" + ""
  {
  }

  /** The format "yyyy/MM/dd HH:mm:ss" is filled in place: each token becomes
      its field, with the year unpadded and the others padded to two places,
      whatever the values. */
  lemma FieldsInPlace(year: int, month0: int, day: int, hours: int, minutes: int, seconds: int,
                      timeZone: string)
    ensures FormatDate(year, month0, day, hours, minutes, seconds, timeZone, "yyyy/MM/dd HH:mm:ss")
            == IntToString(year) + "/" + PadStart2(IntToString(month0 + 1))
               + "/" + PadStart2(IntToString(day)) + " " + PadStart2(IntToString(hours))
               + ":" + PadStart2(IntToString(minutes)) + ":" + PadStart2(IntToString(seconds))
  {
    StandardPieces();
    var y := IntToString(year);
    var mo := PadStart2(IntToString(month0 + 1));
    var d := PadStart2(IntToString(day));
    var h := PadStart2(IntToString(hours));
    var mi := PadStart2(IntToString(minutes));
    var sec := PadStart2(IntToString(seconds));
    ReplaceNext("", "", "yyyy", "/MM/dd HH:mm:ss", y);
    assert "" + "" + y == y;
    PlainFields(year);
    PlainLacksTokens(y);
    ReplaceNext(y, "/", "MM", "/dd HH:mm:ss", mo);
    var s2 := y + "/" + mo;
    PlainFields(month0 + 1);
    PlainJoin(y, "/");
    PlainJoin(y + "/", mo);
    PlainLacksTokens(s2);
    ReplaceNext(s2, "/", "dd", " HH:mm:ss", d);
    var s3 := s2 + "/" + d;
    PlainFields(day);
    PlainJoin(s2, "/");
    PlainJoin(s2 + "/", d);
    PlainLacksTokens(s3);
    ReplaceNext(s3, " ", "HH", ":mm:ss", h);
    var s4 := s3 + " " + h;
    PlainFields(hours);
    PlainJoin(s3, " ");
    PlainJoin(s3 + " ", h);
    PlainLacksTokens(s4);
    ReplaceNext(s4, ":", "mm", ":ss", mi);
    var s5 := s4 + ":" + mi;
    PlainFields(minutes);
    PlainJoin(s4, ":");
    PlainJoin(s4 + ":", mi);
    PlainLacksTokens(s5);
    ReplaceNext(s5, ":", "ss", "", sec);
    assert s5 + ":" + sec + "" == s5 + ":" + sec;
  }
}
