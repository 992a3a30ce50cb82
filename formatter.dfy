/**
 * DefaultTextDifferenceFormatter: renders a diff as a report, one line per
 * diff line, each made of a two-character change marker, the line's text and
 * a line terminator.
 */
module DefaultTextDifferenceFormatter {
  import opened Wrappers
  import opened DiffModel
  import opened Sequences

  /**
   * The marker written in front of a line of the given type: two characters
   * ending in a space, blank exactly for Unchanged.
   */
  function Prefix(t: ChangeType): (p: string)
    ensures |p| == 2 && p[1] == ' ' && p[0] != NewLineChar
    ensures p == "  " <==> t == Unchanged
  {
    match t
    case Inserted => "+ "
    case Deleted => "- "
    case Modified => "* "
    case Imaginary => "? "
    case _ => "  "
  }

  /** The report line for one diff line. */
  function FormatLine(line: DiffLine): string
  {
    Prefix(line.changeType) + line.text + NewLine
  }

  /** The whole report: the report lines of the diff, in order. */
  function Report(lines: seq<DiffLine>): string
  {
    if lines == [] then "" else FormatLine(lines[0]) + Report(lines[1..])
  }

  /** Different types get different markers. */
  lemma PrefixInjective(s: ChangeType, t: ChangeType)
    ensures Prefix(s) == Prefix(t) ==> s == t
  {
  }

  /** The report of a concatenation is the concatenation of the reports. */
  lemma {:induction false} ReportAppend(a: seq<DiffLine>, b: seq<DiffLine>)
    ensures Report(a + b) == Report(a) + Report(b)
  {
    if a == [] {
      assert a + b == b;
    } else {
      assert (a + b)[1..] == a[1..] + b;
      ReportAppend(a[1..], b);
    }
  }

  /** Sum of the lengths of the lines' texts. */
  function TextsLength(lines: seq<DiffLine>): nat
  {
    if lines == [] then 0 else |lines[0].text| + TextsLength(lines[1..])
  }

  /** Each diff line contributes its marker (2), its text and one terminator. */
  lemma {:induction false} ReportLength(lines: seq<DiffLine>)
    ensures |Report(lines)| == (2 + |NewLine|) * |lines| + TextsLength(lines)
  {
    if lines != [] {
      ReportLength(lines[1..]);
    }
  }

  /** Number of occurrences of `c` in `s`. */
  function Count(s: string, c: char): nat
  {
    if s == [] then 0 else (if s[0] == c then 1 else 0) + Count(s[1..], c)
  }

  lemma {:induction false} CountAppend(s: string, t: string, c: char)
    ensures Count(s + t, c) == Count(s, c) + Count(t, c)
  {
    if s == [] {
      assert s + t == t;
    } else {
      assert (s + t)[1..] == s[1..] + t;
      CountAppend(s[1..], t, c);
    }
  }

  /** No line's text contains a line terminator (the differ splits on them). */
  predicate NoLineBreaks(lines: seq<DiffLine>)
  {
    forall i :: 0 <= i < |lines| ==> NewLineChar !in lines[i].text
  }

  lemma {:induction false} CountAbsent(s: string, c: char)
    requires c !in s
    ensures Count(s, c) == 0
  {
    if s != [] {
      assert s[0] != c;
      assert forall j :: 0 <= j < |s[1..]| ==> s[1..][j] == s[j + 1];
      CountAbsent(s[1..], c);
    }
  }

  /** Exactly one line terminator is emitted per diff line. */
  lemma {:induction false} ReportTerminators(lines: seq<DiffLine>)
    requires NoLineBreaks(lines)
    ensures Count(Report(lines), NewLineChar) == |lines|
  {
    if lines != [] {
      var l := lines[0];
      CountAppend(Prefix(l.changeType), l.text, NewLineChar);
      CountAppend(Prefix(l.changeType) + l.text, NewLine, NewLineChar);
      CountAppend(FormatLine(l), Report(lines[1..]), NewLineChar);
      CountAbsent(l.text, NewLineChar);
      CountAbsent(Prefix(l.changeType), NewLineChar);
      assert NoLineBreaks(lines[1..]) by {
        forall i | 0 <= i < |lines[1..]| ensures NewLineChar !in lines[1..][i].text {
          assert lines[1..][i] == lines[i + 1];
        }
      }
      ReportTerminators(lines[1..]);
    }
  }

  /** A one-line diff with an inserted line "foo" reports "+ foo" and a terminator. */
  lemma InsertedFooReport()
    ensures Report([DiffLine("foo", Inserted)]) == "+ foo" + NewLine
  {
  }

  /** An empty diff reports the empty string. */
  lemma EmptyReport()
    ensures Report([]) == ""
  {
  }

  // Reading a report back: the report determines the diff it was made from.

  /** Index of the first line terminator in `s`, or |s| when there is none. */
  function IndexOfNewLine(s: string): (k: nat)
    ensures k <= |s|
    ensures k < |s| ==> s[k] == NewLineChar
    ensures forall j :: 0 <= j < k ==> s[j] != NewLineChar
  {
    if s == [] then 0
    else if s[0] == NewLineChar then 0
    else 1 + IndexOfNewLine(s[1..])
  }

  /** The type a marker stands for. */
  function ParsePrefix(p: string): Option<ChangeType>
  {
    if p == "+ " then Some(Inserted)
    else if p == "- " then Some(Deleted)
    else if p == "* " then Some(Modified)
    else if p == "? " then Some(Imaginary)
    else if p == "  " then Some(Unchanged)
    else None
  }

  /**
   * Reads the first report line of `s`: the diff line it stands for and the
   * length of the report line, or None when `s` does not start with one.
   */
  function ParseLine(s: string): (r: Option<(DiffLine, nat)>)
    ensures r.Some? ==> 0 < r.value.1 <= |s| && s[..r.value.1] == FormatLine(r.value.0)
                        && NewLineChar !in r.value.0.text
  {
    var k := IndexOfNewLine(s);
    if k == |s| || k < 2 then None
    else match ParsePrefix(s[..2])
      case None => None
      case Some(t) =>
        assert Prefix(t) == s[..2];
        assert NewLineChar !in s[2..k] by {
          forall j | 0 <= j < |s[2..k]| ensures s[2..k][j] != NewLineChar {
            assert s[2..k][j] == s[j + 2];
          }
        }
        assert s[..k + 1] == s[..2] + s[2..k] + NewLine;
        Some((DiffLine(s[2..k], t), k + 1))
  }

  /** A report line followed by anything reads back as its diff line. */
  lemma ParseLineOfFormatLine(l: DiffLine, rest: string)
    requires NewLineChar !in l.text
    ensures ParseLine(FormatLine(l) + rest) == Some((l, |FormatLine(l)|))
  {
    var s := FormatLine(l) + rest;
    var k := 2 + |l.text|;
    assert s[k] == NewLineChar;
    forall j | 0 <= j < k ensures s[j] != NewLineChar {
      if j >= 2 {
        assert s[j] == l.text[j - 2];
      }
    }
    assert IndexOfNewLine(s) == k;
    assert s[..2] == Prefix(l.changeType);
    assert s[2..k] == l.text;
  }

  /** Splits a report back into diff lines; None when `s` is not a report. */
  function ParseReport(s: string): Option<seq<DiffLine>>
    decreases |s|
  {
    if s == [] then Some([])
    else match ParseLine(s)
      case None => None
      case Some((line, n)) =>
        match ParseReport(s[n..])
        case None => None
        case Some(rest) => Some([line] + rest)
  }

  /** Parsing a report gives back the diff it was made from. */
  lemma {:induction false} ParseReportOfReport(lines: seq<DiffLine>)
    requires NoLineBreaks(lines)
    ensures ParseReport(Report(lines)) == Some(lines)
  {
    if lines != [] {
      var l := lines[0];
      assert NewLineChar !in l.text;
      ParseLineOfFormatLine(l, Report(lines[1..]));
      var s := Report(lines);
      assert s[|FormatLine(l)|..] == Report(lines[1..]);
      assert NoLineBreaks(lines[1..]) by {
        forall i | 0 <= i < |lines[1..]| ensures NewLineChar !in lines[1..][i].text {
          assert lines[1..][i] == lines[i + 1];
        }
      }
      ParseReportOfReport(lines[1..]);
      assert lines == [l] + lines[1..];
    }
  }

  /** Whatever parses as a report is the report of what it parses to. */
  lemma {:induction false} ReportOfParseReport(s: string, lines: seq<DiffLine>)
    requires ParseReport(s) == Some(lines)
    ensures NoLineBreaks(lines) && Report(lines) == s
    decreases |s|
  {
    if s != [] {
      var (line, n) := ParseLine(s).value;
      var rest := ParseReport(s[n..]).value;
      ReportOfParseReport(s[n..], rest);
      assert lines == [line] + rest;
      assert lines[0] == line && lines[1..] == rest;
      assert s == s[..n] + s[n..];
      assert Report(lines) == FormatLine(line) + Report(rest);
      assert NoLineBreaks(lines) by {
        forall i | 0 <= i < |lines| ensures NewLineChar !in lines[i].text {
          if i > 0 {
            assert lines[i] == rest[i - 1];
          }
        }
      }
    }
  }

  /**
   * FormatDifferences: rejects a null diff, and otherwise appends, for each
   * line in order, its marker, its text and a line terminator to a buffer.
   */
  method FormatDifferences(differences: DiffPaneModel?) returns (r: Result<string, Exception>)
    ensures differences == null ==> r == Failure(ArgumentNullException("differences"))
    ensures differences != null ==> r == Success(Report(differences.lines))
  {
    if differences == null {
      return Failure(ArgumentNullException("differences"));
    }
    var lines := differences.lines;
    var sb: string := "";
    for i := 0 to |lines|
      invariant sb == Report(lines[..i])
    {
      var line := lines[i];
      ghost var done := sb;
      match line.changeType {
        case Inserted => sb := sb + "+ ";
        case Deleted => sb := sb + "- ";
        case Modified => sb := sb + "* ";
        case Imaginary => sb := sb + "? ";
        case _ => sb := sb + "  ";
      }
      assert sb == done + Prefix(line.changeType);
      sb := sb + line.text + NewLine;
      AppendAssoc(done, Prefix(line.changeType), line.text);
      AppendAssoc(done, Prefix(line.changeType) + line.text, NewLine);
      assert Report([line]) == FormatLine(line) + Report([]) == FormatLine(line);
      assert lines[..i + 1] == lines[..i] + [line];
      ReportAppend(lines[..i], [line]);
    }
    assert lines[..|lines|] == lines;
    return Success(sb);
  }
}
