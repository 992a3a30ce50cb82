# ChannelAdam.TestFramework.Text: text tester and difference formatter, in Dafny

This project models the text-comparison core of ChannelAdam.TestFramework.Text.

- **`TextTester`** holds an expected and an actual text. It compares them line by line with DiffPlex and keeps the resulting diff, `Differences`. It lets a filter delegate and difference-detected listeners reclassify lines of that diff as Unchanged. It then decides equality from the reclassified diff, and asserts equality through an assertion sink, logging as it goes.
- **`DefaultTextDifferenceFormatter.FormatDifferences`** renders a diff as a report. Each diff line becomes a two-character change marker, the line's text and a line terminator.

Modules:

- `Wrappers` (`wrappers.dfy`): `Option`, `Outcome` and `Result`. A C# `null` is `None`; an exception is `Fail`/`Failure`.
- `DiffModel` (`diff_model.dfy`): DiffPlex's diff model. It has `ChangeType`, `DiffLine` (text and change type), and the mutable `DiffPaneModel` object that the tester, the filter and the listeners share. A hook is a `Reclassifier`: given the diff it is handed and a line index, the new type of that line. So a hook can change line types but never texts or length, as the doc comments at TextTester.cs:81-83 and 127-129 describe. `Environment.NewLine` is the constant `NewLine`, fixed to `"\n"`.
- `DefaultTextDifferenceFormatter` (`formatter.dfy`): the marker mapping `Prefix`, and `Report`, the report as a function of the diff. It also has `ParseReport`, which reads a report back, as an independent partner. `FormatDifferences` is the buffer-building loop, proved equal to `Report`.
- `TextTesting` (`text_tester.dfy`): the `TextTester` class and the specification functions its methods are proved against. `TextChangedEffects` covers a text set. `Hooked`, `HookEffects` and `Verdict` cover `IsEqual`. `AssertEffects` covers the assertion.

Collaborators:

- **Differ.** The DiffPlex differ is the function `differ: (string, string) -> seq<DiffLine>`, given to the constructor. Its algorithm is not modelled.
- **Assertion sink.** `logAssert: (string, bool) -> bool` says whether `ILogAsserter.IsTrue(label, condition)` returns (true) or raises (false).
- **Logger and notifications.** The logger and every event delivery are recorded, in order, in the ghost sequence `trace` of `Effect`s. Each hook run, text-changed handler delivery, `Log()`, `Log(message)` and `IsTrue` call adds one entry.

## Model

| member | source | states |
|---|---|---|
| `DiffModel.AreAllLinesUnchanged` | src/ChannelAdam.TestFramework.Text/Text/TextTester.cs:282-285 | true iff every line of the diff, taken as a member of the line list, has type Unchanged; an empty diff counts as unchanged |
| `DiffModel.AreAllLinesUnchangedAppend` | src/ChannelAdam.TestFramework.Text/Text/TextTester.cs:282-285 | a concatenation of diffs is all Unchanged iff each part is |
| `DiffModel.DiffPaneModel.Reclassify` | src/ChannelAdam.TestFramework.Text/Text/TextTester.cs:127-135 | a hook changes the shared diff in place: the new lines are the hook's reclassification of the old ones, with the same length and the same texts |
| `DefaultTextDifferenceFormatter.FormatDifferences` | src/ChannelAdam.TestFramework.Text/Text/DefaultTextDifferenceFormatter.cs:27-65 | a null diff gives ArgumentNullException("differences"); otherwise the result is exactly `Report(lines)`, the in-order concatenation of marker + text + terminator. Without a modifies clause it leaves the diff unchanged, and its result depends only on the lines, so formatting twice gives the same string |
| `DefaultTextDifferenceFormatter.Prefix` | src/ChannelAdam.TestFramework.Text/Text/DefaultTextDifferenceFormatter.cs:38-59 | the switch's marker: every marker is two characters, ends in a space and holds no terminator; the marker is the blank `"  "` of the default branch exactly when the type is Unchanged |
| `DefaultTextDifferenceFormatter.PrefixInjective` | src/ChannelAdam.TestFramework.Text/Text/DefaultTextDifferenceFormatter.cs:38-59 | the markers "+ ", "- ", "* ", "? " and "  " are pairwise distinct, so the marker identifies the type |
| `DefaultTextDifferenceFormatter.ReportAppend` | src/ChannelAdam.TestFramework.Text/Text/DefaultTextDifferenceFormatter.cs:36-62 | the report of a concatenation of diffs is the concatenation of their reports |
| `DefaultTextDifferenceFormatter.ReportLength` | src/ChannelAdam.TestFramework.Text/Text/DefaultTextDifferenceFormatter.cs:36-62 | the report's length is (2 + terminator length) per line plus the total text length |
| `DefaultTextDifferenceFormatter.ReportTerminators` | src/ChannelAdam.TestFramework.Text/Text/DefaultTextDifferenceFormatter.cs:61 | when no text contains a line break, the report holds exactly one terminator per diff line |
| `DefaultTextDifferenceFormatter.InsertedFooReport` | src/ChannelAdam.TestFramework.Text/Text/DefaultTextDifferenceFormatter.cs:40-42 | one Inserted line "foo" reports as "+ foo" followed by the terminator |
| `DefaultTextDifferenceFormatter.EmptyReport` | src/ChannelAdam.TestFramework.Text/Text/DefaultTextDifferenceFormatter.cs:34-64 | an empty diff reports as the empty string |
| `DefaultTextDifferenceFormatter.ParseLine` | src/ChannelAdam.TestFramework.Text/Text/DefaultTextDifferenceFormatter.cs:38-61 | a successful read of one report line consumes exactly `FormatLine` of the diff line it returns, whose text has no line break |
| `DefaultTextDifferenceFormatter.ParseLineOfFormatLine` | src/ChannelAdam.TestFramework.Text/Text/DefaultTextDifferenceFormatter.cs:38-61 | a formatted line, followed by anything, reads back as the same diff line and its length |
| `DefaultTextDifferenceFormatter.ParseReportOfReport` | src/ChannelAdam.TestFramework.Text/Text/DefaultTextDifferenceFormatter.cs:36-62 | when no text contains a line break, reading the report back gives the original diff: the report loses neither a line, a type nor a text |
| `DefaultTextDifferenceFormatter.ReportOfParseReport` | src/ChannelAdam.TestFramework.Text/Text/DefaultTextDifferenceFormatter.cs:36-62 | conversely, every string that reads as a report is the report of the lines it reads as |
| `TextTesting.TextChangedMessage` | src/ChannelAdam.TestFramework.Text/Text/TextTester.cs:256 | the default text-changed log entry names the side (also TextTester.cs:270 for the actual side) and ends with the new text on a line of its own |
| `TextTesting.TextChangedMessageInjective` | src/ChannelAdam.TestFramework.Text/Text/TextTester.cs:250-276 | two default text-changed entries are equal only for the same side and the same text, so the log identifies which text changed and to what |
| `TextTesting.DifferencesMessage` | src/ChannelAdam.TestFramework.Text/Text/TextTester.cs:200 | the differences entry ends with the report on a line of its own, and is neither the progress line nor the confirmation line |
| `TextTesting.TextChangedExactlyOne` | src/ChannelAdam.TestFramework.Text/Text/TextTester.cs:250-276 | on a text set, the default log line is written iff no handler is attached; with none, the effects are a blank line then "The … text is: " + NEWLINE + value; with handlers, each handler receives the value, in order, and nothing is logged |
| `TextTesting.HooksOnlyOnDifference` | src/ChannelAdam.TestFramework.Text/Text/TextTester.cs:230-233 | when the raw diff is all Unchanged, no hook runs, the diff is kept as is and the texts are equal; otherwise there are exactly (1 if the filter is set, else 0) + the number of listeners hook runs, whose order `FilterRunsFirst` gives |
| `TextTesting.FilterRunsFirst` | src/ChannelAdam.TestFramework.Text/Text/TextTester.cs:244-248 | when a difference exists, the filter (if set) is the first hook run and never runs again, and the listeners follow in registration order |
| `TextTesting.HookedKeepsTexts` | src/ChannelAdam.TestFramework.Text/Text/TextTester.cs:81-83 | after the filter and all the listeners, the diff has the raw diff's length and texts |
| `TextTesting.FilterActsAsFirstListener` | src/ChannelAdam.TestFramework.Text/Text/TextTester.cs:244-248 | listeners see the filter's reclassifications: a filter h followed by listeners L leaves the same diff, and gives the same answer, as listeners [h] + L with no filter |
| `TextTesting.NoHooksVerdict` | src/ChannelAdam.TestFramework.Text/Text/TextTester.cs:230-235 | with no filter and no listener, IsEqual's answer is whether the raw diff is all Unchanged |
| `TextTesting.OverrideClearsDifferences` | src/BehaviourSpecs/TextTestingUnitSteps.cs:125-138 | a hook that sets every differing line to Unchanged, like the scenarios' OverrideDifferences, makes the texts equal both as the filter delegate and as the only difference-detected listener |
| `TextTesting.AssertLogOrder` | src/ChannelAdam.TestFramework.Text/Text/TextTester.cs:194-204 | layout of the assertion's effects: the progress line first, then the hook runs, then the differences report only when unequal, then the sink call with the verdict, then the confirmation, which is last iff the sink returned |
| `TextTesting.AssertEffectsOrder` | src/ChannelAdam.TestFramework.Text/Text/TextTester.cs:192-205 | the same layout, stated for a raw diff and a hook configuration, with the report taken from the hooked diff |
| `TextTesting.AssertEqualTexts` | src/ChannelAdam.TestFramework.Text/Text/TextTester.cs:196-204 | for an all-Unchanged raw diff and a sink that accepts true, the only effects are the progress line, the passed assertion and the confirmation |
| `TextTesting.ConfirmationOnlyAtEnd` | src/ChannelAdam.TestFramework.Text/Text/TextTester.cs:194-204 | when the sink raises, and the hook runs logged nothing, no entry of the assertion's log is the confirmation line |
| `TextTesting.AssertUnequalFailingSink` | src/ChannelAdam.TestFramework.Text/Text/TextTester.cs:203-204 | unequal texts with a sink that raises on false: the failed assertion is the last effect and "The text is as expected" is never logged |
| `TextTesting.TextTester.constructor` | src/ChannelAdam.TestFramework.Text/Text/TextTester.cs:60-65 | a new tester has the given differ and sink, no texts, no diff, no filter, no handlers and an empty log |
| `TextTesting.TextTester.ArrangeActualText` | src/ChannelAdam.TestFramework.Text/Text/TextTester.cs:157-160 | null gives ArgumentNullException("text") and leaves the text and the log untouched; otherwise the text is stored and the text-changed effects follow |
| `TextTesting.TextTester.ArrangeExpectedText` | src/ChannelAdam.TestFramework.Text/Text/TextTester.cs:180-183 | the same for the expected text |
| `TextTesting.TextTester.SetActualText` | src/ChannelAdam.TestFramework.Text/Text/TextTester.cs:101-105 | stores the value, then raises the actual-text change |
| `TextTesting.TextTester.SetExpectedText` | src/ChannelAdam.TestFramework.Text/Text/TextTester.cs:115-119 | stores the value, then raises the expected-text change |
| `TextTesting.TextTester.OnTextChanged` | src/ChannelAdam.TestFramework.Text/Text/TextTester.cs:250-276 | appends exactly `TextChangedEffects` for the side's handlers: the default log when none is attached, otherwise one delivery per handler |
| `TextTesting.TextTester.OnTextDifferenceDetected` | src/ChannelAdam.TestFramework.Text/Text/TextTester.cs:244-248 | the shared diff becomes the listeners' fold over the filtered diff, and the trace records the filter run, then each listener in order |
| `TextTesting.TextTester.IsEqualTexts` | src/ChannelAdam.TestFramework.Text/Text/TextTester.cs:224-236 | `Differences` is a freshly allocated diff (the previous one is never merged in) equal to `Hooked(differ(expected, actual), …)`; the hook runs are traced, not logged; the answer is whether every line of that diff is Unchanged |
| `TextTesting.TextTester.IsEqual` | src/ChannelAdam.TestFramework.Text/Text/TextTester.cs:211-214 | the same as `IsEqualTexts(ExpectedText, ActualText)` |
| `TextTesting.TextTester.AssertActualTextEqualsExpectedText` | src/ChannelAdam.TestFramework.Text/Text/TextTester.cs:192-205 | the log grows by exactly `AssertEffects` of the raw diff, the hooks and the sink; the outcome is a failure labelled "The text is as expected" exactly when the sink does not return |

## Left out

- The `ArrangeActualText(Assembly, string)` and `ArrangeExpectedText(Assembly, string)` overloads, and `EmbeddedResource`. These are reflection and stream I/O; the model starts from the string they produce.
- DiffPlex's `Differ`/`InlineDiffBuilder` algorithm. It is foreign code, so it is the constructor parameter `differ`. The source builds a new `Differ` inside every `IsEqual` call; a deterministic function is equivalent. Scenarios that need "equal texts give an all-Unchanged diff" take it as a hypothesis, as in `AssertEqualTexts`.
- TextTesting.TextTester.IsEqual: requires both texts to have been arranged. Otherwise the source passes null to DiffPlex, whose handling of null is not part of this model.
- TextTesting.TextTester.AssertActualTextEqualsExpectedText: requires both texts to have been arranged. With an unset text the source first logs "Asserting actual and expected text are equal" and then DiffPlex throws. Neither that log entry nor the exception is modelled.
- TextTesting.TextTester.IsEqualTexts: takes `string` parameters, so the null arguments that the public `IsEqual(string, string)` accepts and hands to DiffPlex are not modelled.
- The constructors that default the logger to `SimpleConsoleLogger` and the formatter to `DefaultTextDifferenceFormatter`. The logger is the ghost `trace`. The tester always uses `DefaultTextDifferenceFormatter`, so a substituted `ITextDifferenceFormatter` is not modelled.
- What hooks and handlers do besides reclassifying lines. Their own logging, exceptions, calls back into the tester, and changes to a line's text or to the number of lines are not modelled. A text-changed handler is recorded only as receiving the value.
- Event subscription (`+=`, `-=`) and the `TextDifferenceFilter` and `Differences` properties are plain field assignment and reads. `virtual` overriding and the event-argument classes are not modelled.
- `Environment.NewLine` is fixed to `"\n"`. Its platform-dependent value is not modelled.
- The `SimpleConsoleLogger` and `ILogAsserter` implementations. They are I/O collaborators, modelled only as the trace and the returns-or-raises function `logAssert`.

## Notes on the source

- TextTester.cs:203-204 logs "The text is as expected" whenever `ILogAsserter.IsTrue` returns. That includes a false comparison when the sink does not raise. The model follows the code.
- The formatter's `default` branch (DefaultTextDifferenceFormatter.cs:56-58) covers every type not listed. Of DiffPlex's five change types, that is only Unchanged.
