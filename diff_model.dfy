/**
 * The diff data that the line differ produces and that the hooks and the
 * formatter work on: DiffPlex's DiffPaneModel, a list of lines each carrying
 * its text and its change type.
 */
module DiffModel {

  /** The only character of `NewLine`. */
  const NewLineChar: char := '\n'

  /** Environment.NewLine, fixed to a single line feed. */
  const NewLine: string := [NewLineChar]

  datatype ChangeType = Unchanged | Deleted | Inserted | Imaginary | Modified

  /** One line of a diff. The text never changes; a hook may change the type. */
  datatype DiffLine = DiffLine(text: string, changeType: ChangeType)

  /** The exceptions the modelled code raises or lets through. */
  datatype Exception =
    | ArgumentNullException(paramName: string)
    | AssertionFailure(message: string)

  /**
   * What a difference hook (the filter delegate or a difference-detected
   * listener) does to the diff it is handed: given the diff as the hook sees
   * it and a line index, the type that line has afterwards.
   */
  type Reclassifier = (seq<DiffLine>, nat) -> ChangeType

  /** The diff after hook `h` has run on `lines`. */
  function Reclassified(h: Reclassifier, lines: seq<DiffLine>): seq<DiffLine>
  {
    seq(|lines|, i requires 0 <= i < |lines| => DiffLine(lines[i].text, h(lines, i)))
  }

  /** Same length and the same text on every line: only types may differ. */
  predicate SameTexts(a: seq<DiffLine>, b: seq<DiffLine>)
  {
    |a| == |b| && forall i :: 0 <= i < |a| ==> a[i].text == b[i].text
  }

  /**
   * `AreAllLinesUnchanged`: no line of the diff has a type other than
   * Unchanged; an empty diff qualifies.
   */
  predicate AreAllLinesUnchanged(lines: seq<DiffLine>): (r: bool)
    ensures r <==> forall line :: line in lines ==> line.changeType == Unchanged
    ensures lines == [] ==> r
  {
    forall i :: 0 <= i < |lines| ==> lines[i].changeType == Unchanged
  }

  /** A diff is unchanged exactly when both of its parts are. */
  lemma AreAllLinesUnchangedAppend(a: seq<DiffLine>, b: seq<DiffLine>)
    ensures AreAllLinesUnchanged(a + b) <==> AreAllLinesUnchanged(a) && AreAllLinesUnchanged(b)
  {
    forall i | 0 <= i < |b| ensures (a + b)[|a| + i] == b[i] {}
  }

  /**
   * The mutable diff object. The tester, the filter and every listener hold
   * the same instance, so each sees the reclassifications of the ones before.
   */
  class DiffPaneModel {
    var lines: seq<DiffLine>

    constructor (lines: seq<DiffLine>)
      ensures this.lines == lines
    {
      this.lines := lines;
    }

    /** Runs a hook on this diff, in place. */
    method Reclassify(h: Reclassifier)
      modifies this
      ensures lines == Reclassified(h, old(lines))
      ensures SameTexts(lines, old(lines))
    {
      lines := Reclassified(h, lines);
    }
  }
}
