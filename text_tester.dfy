/**
 * TextTester: holds the expected and actual text, compares them line by line,
 * lets a filter delegate and difference-detected listeners reclassify the
 * differences, and asserts equality through an assertion sink.
 *
 * The logger, the assertion sink and every event notification are recorded,
 * in order, in one ghost effect trace.
 */
module TextTesting {
  import opened Wrappers
  import opened DiffModel
  import opened DefaultTextDifferenceFormatter
  import opened Sequences

  /** DiffPlex's InlineDiffBuilder with a fresh Differ: expected, actual to diff lines. */
  type Differ = (string, string) -> seq<DiffLine>

  /** The assertion sink's IsTrue(label, condition): true when it returns, false when it raises. */
  type AssertSink = (string, bool) -> bool

  /** An event handler attached to a text-changed event, by identity. */
  type HandlerId = nat

  datatype TextSide = Expected | Actual

  /** One observable effect: a log call, an event delivery, a hook run or an assertion. */
  datatype Effect =
    | LoggedBlankLine
    | Logged(message: string)
    | TextChangedRaised(side: TextSide, handler: HandlerId, text: string)
    | FilterInvoked
    | TextDifferenceDetectedRaised(listener: nat)
    | Asserted(assertLabel: string, condition: bool)

  const AssertingMessage: string := "Asserting actual and expected text are equal"
  const ExpectedLabel: string := "The text is as expected"

  /** The heading of the default text-changed log entry. */
  function TextChangedHeading(side: TextSide): string
  {
    if side == Expected then "The expected text is: " else "The actual text is: "
  }

  /**
   * The default log entry written when nobody listens to a text change: it
   * names the side, and the new text follows on a line of its own.
   */
  function TextChangedMessage(side: TextSide, value: string): (m: string)
    ensures |m| > |value| + 4 && m[|m| - |value|..] == value && m[|m| - |value| - 1] == NewLineChar
    ensures m[4] == (if side == Expected then 'e' else 'a')
  {
    TextChangedHeading(side) + NewLine + value
  }

  /** The entry names exactly one side and one text: no two text changes log alike. */
  lemma TextChangedMessageInjective(s1: TextSide, v1: string, s2: TextSide, v2: string)
    requires TextChangedMessage(s1, v1) == TextChangedMessage(s2, v2)
    ensures s1 == s2 && v1 == v2
  {
    var m := TextChangedMessage(s1, v1);
    var n := |TextChangedHeading(s1) + NewLine|;
    assert m[n..] == v1;
    assert m[n..] == v2;
  }

  /**
   * The log entry that carries the differences report: the report follows
   * on a line of its own, and the entry is neither the progress line nor the
   * confirmation line.
   */
  function DifferencesMessage(report: string): (m: string)
    ensures |m| > |report| && m[|m| - |report|..] == report && m[|m| - |report| - 1] == NewLineChar
    ensures m != AssertingMessage && m != ExpectedLabel
  {
    assert ("The differences are: " + NewLine + report)[4] == 'd';
    "The differences are: " + NewLine + report
  }

  // ---------------------------------------------------------------------
  // Specification of the text-changed notification

  /** What a successful set of one side's text does: notify each listener, or log by default. */
  function TextChangedEffects(side: TextSide, handlers: seq<HandlerId>, value: string): seq<Effect>
  {
    if handlers == [] then [LoggedBlankLine, Logged(TextChangedMessage(side, value))]
    else seq(|handlers|, i requires 0 <= i < |handlers| => TextChangedRaised(side, handlers[i], value))
  }

  /** Exactly one of "listeners notified" and "default log written" happens. */
  lemma TextChangedExactlyOne(side: TextSide, handlers: seq<HandlerId>, value: string)
    ensures Logged(TextChangedMessage(side, value)) in TextChangedEffects(side, handlers, value) <==> handlers == []
    ensures handlers == [] ==> TextChangedEffects(side, handlers, value) == [LoggedBlankLine, Logged(TextChangedMessage(side, value))]
    ensures handlers != [] ==> |TextChangedEffects(side, handlers, value)| == |handlers|
    ensures forall k :: 0 <= k < |handlers| ==> TextChangedEffects(side, handlers, value)[k] == TextChangedRaised(side, handlers[k], value)
  {
    var effects := TextChangedEffects(side, handlers, value);
    if handlers != [] {
      forall k | 0 <= k < |effects| ensures !effects[k].Logged? {
      }
    }
  }

  // ---------------------------------------------------------------------
  // Specification of the difference hooks

  /** The diff after the optional filter delegate. */
  function Filtered(lines: seq<DiffLine>, filter: Option<Reclassifier>): seq<DiffLine>
  {
    match filter
    case None => lines
    case Some(h) => Reclassified(h, lines)
  }

  /** The diff after the listeners have run in registration order on the same diff. */
  function Notified(lines: seq<DiffLine>, listeners: seq<Reclassifier>): seq<DiffLine>
    decreases |listeners|
  {
    if listeners == [] then lines
    else Reclassified(listeners[|listeners| - 1], Notified(lines, listeners[..|listeners| - 1]))
  }

  /** The diff IsEqual keeps: the raw diff, run through the hooks only if it has a difference. */
  function Hooked(raw: seq<DiffLine>, filter: Option<Reclassifier>, listeners: seq<Reclassifier>): seq<DiffLine>
  {
    if AreAllLinesUnchanged(raw) then raw else Notified(Filtered(raw, filter), listeners)
  }

  /** The deliveries to `n` difference-detected listeners, in registration order. */
  function ListenerEffects(n: nat): seq<Effect>
  {
    seq(n, i requires 0 <= i < n => TextDifferenceDetectedRaised(i))
  }

  /** The hook runs of OnTextDifferenceDetected, in order. */
  function DetectedEffects(filter: Option<Reclassifier>, listeners: seq<Reclassifier>): seq<Effect>
  {
    (if filter.Some? then [FilterInvoked] else []) + ListenerEffects(|listeners|)
  }

  /** The hook runs IsEqual performs, in order. */
  function HookEffects(raw: seq<DiffLine>, filter: Option<Reclassifier>, listeners: seq<Reclassifier>): seq<Effect>
  {
    if AreAllLinesUnchanged(raw) then [] else DetectedEffects(filter, listeners)
  }

  /** IsEqual's answer for a raw diff and a hook configuration. */
  predicate Verdict(raw: seq<DiffLine>, filter: Option<Reclassifier>, listeners: seq<Reclassifier>)
  {
    AreAllLinesUnchanged(Hooked(raw, filter, listeners))
  }

  /** Without a difference no hook runs and the texts are equal; with one, every hook runs once. */
  lemma HooksOnlyOnDifference(raw: seq<DiffLine>, filter: Option<Reclassifier>, listeners: seq<Reclassifier>)
    ensures AreAllLinesUnchanged(raw) ==> HookEffects(raw, filter, listeners) == [] && Hooked(raw, filter, listeners) == raw
    ensures AreAllLinesUnchanged(raw) ==> Verdict(raw, filter, listeners)
    ensures !AreAllLinesUnchanged(raw) ==>
      |HookEffects(raw, filter, listeners)| == (if filter.Some? then 1 else 0) + |listeners|
  {
  }

  /** The filter runs exactly once and before the listeners, which run in registration order. */
  lemma FilterRunsFirst(raw: seq<DiffLine>, filter: Option<Reclassifier>, listeners: seq<Reclassifier>)
    requires !AreAllLinesUnchanged(raw)
    ensures var e := HookEffects(raw, filter, listeners);
      && (filter.Some? ==> e[0] == FilterInvoked && FilterInvoked !in e[1..])
      && (filter.None? ==> FilterInvoked !in e)
      && forall k :: 0 <= k < |listeners| ==>
           e[(if filter.Some? then 1 else 0) + k] == TextDifferenceDetectedRaised(k)
  {
    var pre: seq<Effect> := if filter.Some? then [FilterInvoked] else [];
    var post := ListenerEffects(|listeners|);
    var e := HookEffects(raw, filter, listeners);
    assert e == pre + post;
    assert FilterInvoked !in post by {
      forall k | 0 <= k < |post| ensures post[k] != FilterInvoked {
        assert post[k] == TextDifferenceDetectedRaised(k);
      }
    }
    if filter.Some? {
      assert e[1..] == post;
    } else {
      assert e == post;
    }
    forall k | 0 <= k < |listeners|
      ensures e[|pre| + k] == TextDifferenceDetectedRaised(k)
    {
      assert e[|pre| + k] == post[k];
    }
  }

  lemma {:induction false} NotifiedKeepsTexts(lines: seq<DiffLine>, listeners: seq<Reclassifier>)
    ensures SameTexts(Notified(lines, listeners), lines)
    decreases |listeners|
  {
    if listeners != [] {
      NotifiedKeepsTexts(lines, listeners[..|listeners| - 1]);
    }
  }

  /** Hooks only reclassify: the diff keeps its length and every line its text. */
  lemma HookedKeepsTexts(raw: seq<DiffLine>, filter: Option<Reclassifier>, listeners: seq<Reclassifier>)
    ensures SameTexts(Hooked(raw, filter, listeners), raw)
  {
    NotifiedKeepsTexts(Filtered(raw, filter), listeners);
  }

  /** Running a first listener is running it on the diff, then the others. */
  lemma {:induction false} NotifiedFirst(lines: seq<DiffLine>, h: Reclassifier, listeners: seq<Reclassifier>)
    ensures Notified(lines, [h] + listeners) == Notified(Reclassified(h, lines), listeners)
    decreases |listeners|
  {
    if listeners != [] {
      var all := [h] + listeners;
      assert all[..|all| - 1] == [h] + listeners[..|listeners| - 1];
      assert all[|all| - 1] == listeners[|listeners| - 1];
      NotifiedFirst(lines, h, listeners[..|listeners| - 1]);
    } else {
      assert ([h] + listeners)[..0] == [];
    }
  }

  /**
   * The filter delegate acts exactly like an extra first listener: the two
   * routes leave the same diff, hence give the same answer.
   */
  lemma FilterActsAsFirstListener(raw: seq<DiffLine>, h: Reclassifier, listeners: seq<Reclassifier>)
    ensures Hooked(raw, Some(h), listeners) == Hooked(raw, None, [h] + listeners)
    ensures Verdict(raw, Some(h), listeners) == Verdict(raw, None, [h] + listeners)
  {
    NotifiedFirst(raw, h, listeners);
  }

  /** With no hooks the answer is the raw diff's: false as soon as one line differs. */
  lemma NoHooksVerdict(raw: seq<DiffLine>)
    ensures Verdict(raw, None, []) == AreAllLinesUnchanged(raw)
  {
  }

  /** A hook that sets the lines at `indices` to Unchanged and keeps the others. */
  function Override(indices: set<nat>): Reclassifier
  {
    (lines: seq<DiffLine>, i: nat) =>
      if i in indices || i >= |lines| then Unchanged else lines[i].changeType
  }

  /**
   * A hook that sets every differing line to Unchanged makes the texts equal,
   * whether it is installed as the filter or as the only listener.
   */
  lemma OverrideClearsDifferences(raw: seq<DiffLine>, indices: set<nat>)
    requires forall i :: 0 <= i < |raw| && raw[i].changeType != Unchanged ==> i in indices
    ensures Verdict(raw, Some(Override(indices)), [])
    ensures Verdict(raw, None, [Override(indices)])
  {
    FilterActsAsFirstListener(raw, Override(indices), []);
    assert [Override(indices)] == [Override(indices)] + [];
  }

  // ---------------------------------------------------------------------
  // Specification of the assertion

  /** The report logged when the final diff still has a difference. */
  function ReportedDifferences(final: seq<DiffLine>): seq<Effect>
  {
    if AreAllLinesUnchanged(final) then [] else [Logged(DifferencesMessage(Report(final)))]
  }

  /** The confirmation logged when the sink returned. */
  function Confirmation(returned: bool): seq<Effect>
  {
    if returned then [Logged(ExpectedLabel)] else []
  }

  /**
   * The assertion's effects around the hook runs `hooks`, for the diff `final`
   * the hooks left and for the sink `sink`.
   */
  function AssertLog(hooks: seq<Effect>, final: seq<DiffLine>, sink: AssertSink): seq<Effect>
  {
    [Logged(AssertingMessage)]
    + hooks
    + ReportedDifferences(final)
    + [Asserted(ExpectedLabel, AreAllLinesUnchanged(final))]
    + Confirmation(sink(ExpectedLabel, AreAllLinesUnchanged(final)))
  }

  /** The effects of AssertActualTextEqualsExpectedText, in order. */
  function AssertEffects(raw: seq<DiffLine>, filter: Option<Reclassifier>, listeners: seq<Reclassifier>,
                         sink: AssertSink): seq<Effect>
  {
    AssertLog(HookEffects(raw, filter, listeners), Hooked(raw, filter, listeners), sink)
  }

  /** Where each entry of an assertion's log sits. */
  lemma AssertLogOrder(hooks: seq<Effect>, final: seq<DiffLine>, sink: AssertSink)
    ensures var e := AssertLog(hooks, final, sink);
      var isEqual := AreAllLinesUnchanged(final);
      var n := 1 + |hooks|;
      && e[0] == Logged(AssertingMessage)
      && e[1..n] == hooks
      && (!isEqual ==> e[n] == Logged(DifferencesMessage(Report(final))))
      && e[if isEqual then n else n + 1] == Asserted(ExpectedLabel, isEqual)
      && |e| == (if isEqual then n + 1 else n + 2) + (if sink(ExpectedLabel, isEqual) then 1 else 0)
      && (e[|e| - 1] == Logged(ExpectedLabel) <==> sink(ExpectedLabel, isEqual))
  {
    var isEqual := AreAllLinesUnchanged(final);
    var opening := [Logged(AssertingMessage)] + hooks;
    var middle := ReportedDifferences(final) + [Asserted(ExpectedLabel, isEqual)];
    var closing := Confirmation(sink(ExpectedLabel, isEqual));
    var e := AssertLog(hooks, final, sink);
    AppendAssoc(opening, ReportedDifferences(final), [Asserted(ExpectedLabel, isEqual)]);
    AppendAssoc(opening, middle, closing);
    assert e == opening + (middle + closing);
    assert e[..1 + |hooks|] == opening;
    assert e[1..1 + |hooks|] == opening[1..] == hooks;
    if isEqual {
      assert middle == [Asserted(ExpectedLabel, true)];
    } else {
      assert middle == [Logged(DifferencesMessage(Report(final))), Asserted(ExpectedLabel, false)];
    }
    assert e[1 + |hooks|..] == middle + closing;
  }

  /**
   * The log opens with the progress line, reports the differences only when
   * unequal, hands the verdict to the sink, and closes with the confirmation
   * only when the sink returned.
   */
  lemma AssertEffectsOrder(raw: seq<DiffLine>, filter: Option<Reclassifier>, listeners: seq<Reclassifier>,
                           sink: AssertSink)
    ensures var e := AssertEffects(raw, filter, listeners, sink);
      var isEqual := Verdict(raw, filter, listeners);
      var n := 1 + |HookEffects(raw, filter, listeners)|;
      && e[0] == Logged(AssertingMessage)
      && e[1..n] == HookEffects(raw, filter, listeners)
      && (!isEqual ==> e[n] == Logged(DifferencesMessage(Report(Hooked(raw, filter, listeners)))))
      && e[if isEqual then n else n + 1] == Asserted(ExpectedLabel, isEqual)
      && |e| == (if isEqual then n + 1 else n + 2) + (if sink(ExpectedLabel, isEqual) then 1 else 0)
      && (e[|e| - 1] == Logged(ExpectedLabel) <==> sink(ExpectedLabel, isEqual))
  {
    AssertLogOrder(HookEffects(raw, filter, listeners), Hooked(raw, filter, listeners), sink);
  }

  /** Equal texts: nothing but the progress line, the passed assertion and, if the sink returns, the confirmation. */
  lemma AssertEqualTexts(raw: seq<DiffLine>, filter: Option<Reclassifier>, listeners: seq<Reclassifier>,
                         sink: AssertSink)
    requires AreAllLinesUnchanged(raw)
    requires sink(ExpectedLabel, true)
    ensures AssertEffects(raw, filter, listeners, sink)
            == [Logged(AssertingMessage), Asserted(ExpectedLabel, true), Logged(ExpectedLabel)]
  {
  }

  /** No hook run, report or assertion label is the confirmation entry. */
  lemma ConfirmationOnlyAtEnd(hooks: seq<Effect>, final: seq<DiffLine>, sink: AssertSink)
    requires forall k :: 0 <= k < |hooks| ==> !hooks[k].Logged?
    requires !sink(ExpectedLabel, AreAllLinesUnchanged(final))
    ensures Logged(ExpectedLabel) !in AssertLog(hooks, final, sink)
  {
    var x := Logged(ExpectedLabel);
    var r := ReportedDifferences(final);
    assert AssertLog(hooks, final, sink)
           == [Logged(AssertingMessage)] + hooks + r + [Asserted(ExpectedLabel, AreAllLinesUnchanged(final))];
    assert x !in [Logged(AssertingMessage)] by {
      assert AssertingMessage[0] != ExpectedLabel[0];
    }
    assert x !in hooks;
    assert x !in r;
  }

  /**
   * Unequal texts with a sink that raises on false: the failed assertion is the
   * last effect and the confirmation is never logged.
   */
  lemma AssertUnequalFailingSink(raw: seq<DiffLine>, filter: Option<Reclassifier>, listeners: seq<Reclassifier>,
                                 sink: AssertSink)
    requires !Verdict(raw, filter, listeners)
    requires !sink(ExpectedLabel, false)
    ensures var e := AssertEffects(raw, filter, listeners, sink);
      e[|e| - 1] == Asserted(ExpectedLabel, false) && Logged(ExpectedLabel) !in e
  {
    var h := HookEffects(raw, filter, listeners);
    var final := Hooked(raw, filter, listeners);
    assert forall k :: 0 <= k < |h| ==> !h[k].Logged?;
    AssertLogOrder(h, final, sink);
    ConfirmationOnlyAtEnd(h, final, sink);
  }

  // ---------------------------------------------------------------------
  // The tester

  class TextTester {
    const differ: Differ
    const logAssert: AssertSink

    var actualText: Option<string>
    var expectedText: Option<string>
    var differences: DiffPaneModel?

    /** TextDifferenceFilter: the optional filter delegate. */
    var textDifferenceFilter: Option<Reclassifier>
    /** TextDifferenceDetectedEvent's handlers, in registration order. */
    var textDifferenceDetectedEvent: seq<Reclassifier>
    /** ActualTextChangedEvent's handlers; empty when the event is null. */
    var actualTextChangedEvent: seq<HandlerId>
    /** ExpectedTextChangedEvent's handlers; empty when the event is null. */
    var expectedTextChangedEvent: seq<HandlerId>

    /** Everything logged, notified and asserted so far, in order. */
    ghost var trace: seq<Effect>

    constructor (differ: Differ, logAssert: AssertSink)
      ensures this.differ == differ && this.logAssert == logAssert
      ensures actualText == None && expectedText == None && differences == null
      ensures textDifferenceFilter == None && textDifferenceDetectedEvent == []
      ensures actualTextChangedEvent == [] && expectedTextChangedEvent == []
      ensures trace == []
    {
      this.differ := differ;
      this.logAssert := logAssert;
      actualText := None;
      expectedText := None;
      differences := null;
      textDifferenceFilter := None;
      textDifferenceDetectedEvent := [];
      actualTextChangedEvent := [];
      expectedTextChangedEvent := [];
      trace := [];
    }

    /** The handlers of one side's text-changed event. */
    function TextChangedHandlers(side: TextSide): seq<HandlerId>
      reads this
    {
      if side == Expected then expectedTextChangedEvent else actualTextChangedEvent
    }

    /** ArrangeActualText(string): rejects null, otherwise sets ActualText. */
    method ArrangeActualText(text: Option<string>) returns (outcome: Outcome<Exception>)
      modifies this`actualText, this`trace
      ensures text.None? ==> outcome == Fail(ArgumentNullException("text"))
                             && actualText == old(actualText) && trace == old(trace)
      ensures text.Some? ==> outcome == Pass && actualText == text
                             && trace == old(trace) + TextChangedEffects(Actual, actualTextChangedEvent, text.value)
    {
      if text.None? {
        return Fail(ArgumentNullException("text"));
      }
      SetActualText(text.value);
      return Pass;
    }

    /** ArrangeExpectedText(string): rejects null, otherwise sets ExpectedText. */
    method ArrangeExpectedText(text: Option<string>) returns (outcome: Outcome<Exception>)
      modifies this`expectedText, this`trace
      ensures text.None? ==> outcome == Fail(ArgumentNullException("text"))
                             && expectedText == old(expectedText) && trace == old(trace)
      ensures text.Some? ==> outcome == Pass && expectedText == text
                             && trace == old(trace) + TextChangedEffects(Expected, expectedTextChangedEvent, text.value)
    {
      if text.None? {
        return Fail(ArgumentNullException("text"));
      }
      SetExpectedText(text.value);
      return Pass;
    }

    /** The ActualText setter: store, then raise the change. */
    method SetActualText(value: string)
      modifies this`actualText, this`trace
      ensures actualText == Some(value)
      ensures trace == old(trace) + TextChangedEffects(Actual, actualTextChangedEvent, value)
    {
      actualText := Some(value);
      OnTextChanged(Actual, value);
    }

    /** The ExpectedText setter: store, then raise the change. */
    method SetExpectedText(value: string)
      modifies this`expectedText, this`trace
      ensures expectedText == Some(value)
      ensures trace == old(trace) + TextChangedEffects(Expected, expectedTextChangedEvent, value)
    {
      expectedText := Some(value);
      OnTextChanged(Expected, value);
    }

    /**
     * OnExpectedTextChanged / OnActualTextChanged: with no handler attached,
     * log a blank line and the new text; otherwise deliver the new text to
     * each handler in order and log nothing.
     */
    method OnTextChanged(side: TextSide, value: string)
      modifies this`trace
      ensures trace == old(trace) + TextChangedEffects(side, TextChangedHandlers(side), value)
    {
      var handlers := TextChangedHandlers(side);
      if handlers == [] {
        trace := trace + [LoggedBlankLine];
        trace := trace + [Logged(TextChangedMessage(side, value))];
      } else {
        ghost var before := trace;
        for i := 0 to |handlers|
          invariant trace == before + seq(i, k requires 0 <= k < i => TextChangedRaised(side, handlers[k], value))
        {
          trace := trace + [TextChangedRaised(side, handlers[i], value)];
        }
      }
    }

    /**
     * OnTextDifferenceDetected: the filter (if set) and then every listener,
     * in order, reclassify the one shared diff.
     */
    method OnTextDifferenceDetected(theDifferences: DiffPaneModel)
      modifies theDifferences, this`trace
      ensures theDifferences.lines
              == Notified(Filtered(old(theDifferences.lines), textDifferenceFilter), textDifferenceDetectedEvent)
      ensures trace == old(trace) + DetectedEffects(textDifferenceFilter, textDifferenceDetectedEvent)
    {
      if textDifferenceFilter.Some? {
        theDifferences.Reclassify(textDifferenceFilter.value);
        trace := trace + [FilterInvoked];
      }
      ghost var filtered := theDifferences.lines;
      ghost var before := trace;
      var listeners := textDifferenceDetectedEvent;
      for i := 0 to |listeners|
        invariant theDifferences.lines == Notified(filtered, listeners[..i])
        invariant trace == before + ListenerEffects(i)
      {
        theDifferences.Reclassify(listeners[i]);
        trace := trace + [TextDifferenceDetectedRaised(i)];
        assert ListenerEffects(i + 1) == ListenerEffects(i) + [TextDifferenceDetectedRaised(i)];
        assert listeners[..i + 1][..i] == listeners[..i];
      }
      assert listeners[..|listeners|] == listeners;
    }

    /**
     * IsEqual(expected, actual): replaces the stored diff by a fresh one, runs
     * the hooks on it only if it has a difference, and answers whether every
     * line of it is then Unchanged.
     */
    method IsEqualTexts(expected: string, actual: string) returns (isEqual: bool)
      modifies this`differences, this`trace
      ensures differences != null && fresh(differences)
      ensures differences.lines == Hooked(differ(expected, actual), textDifferenceFilter, textDifferenceDetectedEvent)
      ensures trace == old(trace) + HookEffects(differ(expected, actual), textDifferenceFilter, textDifferenceDetectedEvent)
      ensures isEqual == AreAllLinesUnchanged(differences.lines)
    {
      var pane := new DiffPaneModel(differ(expected, actual));
      differences := pane;
      if !AreAllLinesUnchanged(pane.lines) {
        OnTextDifferenceDetected(pane);
      }
      isEqual := AreAllLinesUnchanged(pane.lines);
    }

    /** IsEqual(): IsEqual(ExpectedText, ActualText). */
    method IsEqual() returns (isEqual: bool)
      requires expectedText.Some? && actualText.Some?
      modifies this`differences, this`trace
      ensures differences != null && fresh(differences)
      ensures differences.lines
              == Hooked(differ(expectedText.value, actualText.value), textDifferenceFilter, textDifferenceDetectedEvent)
      ensures trace
              == old(trace) + HookEffects(differ(expectedText.value, actualText.value), textDifferenceFilter, textDifferenceDetectedEvent)
      ensures isEqual == AreAllLinesUnchanged(differences.lines)
    {
      isEqual := IsEqualTexts(expectedText.value, actualText.value);
    }

    /**
     * AssertActualTextEqualsExpectedText: logs progress, compares, logs the
     * formatted differences when unequal, asserts through the sink, and logs
     * the confirmation only if the sink returned.
     */
    method AssertActualTextEqualsExpectedText() returns (outcome: Outcome<Exception>)
      requires expectedText.Some? && actualText.Some?
      modifies this`differences, this`trace
      ensures differences != null && fresh(differences)
      ensures differences.lines
              == Hooked(differ(expectedText.value, actualText.value), textDifferenceFilter, textDifferenceDetectedEvent)
      ensures trace == old(trace) + AssertEffects(differ(expectedText.value, actualText.value),
                                                  textDifferenceFilter, textDifferenceDetectedEvent, logAssert)
      ensures outcome
              == if logAssert(ExpectedLabel, AreAllLinesUnchanged(differences.lines)) then Pass
                 else Fail(AssertionFailure(ExpectedLabel))
    {
      ghost var raw := differ(expectedText.value, actualText.value);
      ghost var start := trace;
      trace := trace + [Logged(AssertingMessage)];
      var isEqual := IsEqualTexts(expectedText.value, actualText.value);
      ghost var hooks := HookEffects(raw, textDifferenceFilter, textDifferenceDetectedEvent);
      ghost var final := differences.lines;
      AppendAssoc(start, [Logged(AssertingMessage)], hooks);
      ghost var compared := trace;
      if !isEqual {
        var report := FormatDifferences(differences);
        trace := trace + [Logged(DifferencesMessage(report.value))];
      }
      assert trace == compared + ReportedDifferences(final);
      trace := trace + [Asserted(ExpectedLabel, isEqual)];
      if !logAssert(ExpectedLabel, isEqual) {
        outcome := Fail(AssertionFailure(ExpectedLabel));
      } else {
        trace := trace + [Logged(ExpectedLabel)];
        outcome := Pass;
      }
      ghost var opening := [Logged(AssertingMessage)] + hooks;
      AppendAssoc(start, opening, ReportedDifferences(final));
      AppendAssoc(start, opening + ReportedDifferences(final), [Asserted(ExpectedLabel, isEqual)]);
      AppendAssoc(start, opening + ReportedDifferences(final) + [Asserted(ExpectedLabel, isEqual)],
                  Confirmation(logAssert(ExpectedLabel, isEqual)));
    }
  }
}
