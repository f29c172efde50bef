# SearchPrompt, modelled in Dafny

A model of Spectre.Console's `SearchPrompt<T>`, an interactive console
prompt. The user types a query and the prompt lists the choices that match
it, one page at a time, with the selected row highlighted. Down and Up move
the selection and Enter returns the selected choice. The model also covers
the four fluent builder methods that configure the prompt: `AddChoices`,
`UseConverter`, `UseComparer` and `WithPageSize`.

The prompt's configuration is an immutable record (`Prompt.SearchPrompt`).
It holds the choices, the converter, the comparer and the page size. Each
builder method returns a new record, and a rejected page size returns a
`Failure` instead of throwing.

The loop's variables form a `Loop.LoopState`: the query, the selected
row, the re-render flag and the last key read. One pass of the `while`
loop is a function of that state and one key (`Loop.Iteration`). It
returns the next state (or the chosen item, or a fault where
`ElementAt` would throw) and the console actions it emitted.

The console is a small screen model (`Terminal`): rows of styled cells and
a cursor. It covers clear-screen, text writes, line breaks, cursor
positioning (CUP) and erase-to-end-of-line (EL 0). What is drawn is checked
against one layout (`Render.LayoutRow`): the query line is on row 1 and
page entry `i` is on row `i + 2`.

Modules, in dependency order:

- `Wrappers`: `Option` and `Result`.
- `Enumerable`: LINQ `Where`, `Select` and `Take` over sequences, with
  lemmas on filtering.
- `Prompt`: the configuration record, the default comparer, `AddChoice`,
  and the page for a query.
- `PromptExtensions`: the builder methods.
- `Terminal`: the screen model.
- `Render`: the full-frame redraw (`ListRenderable`), the two-row repaint
  (`ClearRowRederable` plus a text write), and proofs that each draws the
  layout.
- `Loop`: key decoding, the redraw rule, one iteration, and runs over a
  finite key sequence.
- `Coherence`: the screen stays in step with the loop state, and the redraw
  rule as written breaks that (see Findings).
- `Scenarios`: concrete sessions worked through the model.

The redraw rule is a parameter of the loop (`Loop.RedrawPolicy`).
`AsWritten` is the source's rule. `Corrected` is the rule the coherence
results are proved for with every conventional key, ignored keys included.
A conventional key is one where Backspace and the arrow keys carry no
typeable character, as consoles deliver them. The two rules lead to the
same state transitions and differ only in what is drawn
(`Loop.RulesAgreeOnRun`).

Source paths below are relative to the repository root:
`src/Spectre.Console/Prompts/SearchPrompt.cs` and
`src/Spectre.Console/Widgets/Prompt/SearchPromptExtensions.cs`.

## Model

| member | source | states |
|---|---|---|
| Enumerable.Where | src/Spectre.Console/Prompts/SearchPrompt.cs:37 | the filter keeps only elements the test accepts and never more than it was given |
| Enumerable.Select | src/Spectre.Console/Prompts/SearchPrompt.cs:37 | projection keeps length and maps each position through the converter |
| Enumerable.Take | src/Spectre.Console/Prompts/SearchPrompt.cs:37 | `Take` gives nothing for a count of zero or less, exactly `n` leading elements when there are enough, everything when there are fewer, and always a prefix |
| Enumerable.WhereRank | src/Spectre.Console/Prompts/SearchPrompt.cs:37 | an accepted element appears in the filtered list, at the position equal to the number of accepted elements before it |
| Enumerable.WhereSource | src/Spectre.Console/Prompts/SearchPrompt.cs:105 | conversely, every filtered element is an accepted source element whose rank is its position |
| Enumerable.WhereNarrow | src/Spectre.Console/Prompts/SearchPrompt.cs:37 | filtering by a wider test and then a narrower one equals filtering by the narrower alone |
| Enumerable.WhereAppend | src/Spectre.Console/Prompts/SearchPrompt.cs:37 | filtering distributes over concatenation of the store |
| Prompt.NewSearchPrompt | src/Spectre.Console/Prompts/SearchPrompt.cs:12-20 | a new prompt has no choices and a page size of 10 |
| Prompt.NewPromptMatchesByPrefix | src/Spectre.Console/Prompts/SearchPrompt.cs:19 | the default comparer accepts a choice exactly when its display string starts with the query; a new prompt's page is empty |
| Prompt.AddChoice | src/Spectre.Console/Prompts/SearchPrompt.cs:22-25 | adding a choice appends it at the end, keeps the earlier choices and all settings, and for every query adds it as the last match exactly when it matches |
| Prompt.TestFollowsComparer | src/Spectre.Console/Prompts/SearchPrompt.cs:19 | the matching test is the prefix test on the converter's output for the default comparer, and the custom comparer's answer otherwise |
| Prompt.PageItems | src/Spectre.Console/Prompts/SearchPrompt.cs:105 | the items the prompt can return are at most `pageSize` of the query's matches, none for a page size of zero or less |
| Prompt.PageItemsMatch | src/Spectre.Console/Prompts/SearchPrompt.cs:105 | every item the prompt can return matches the query |
| Prompt.Page | src/Spectre.Console/Prompts/SearchPrompt.cs:37 | there are as many displayed rows as page items |
| Prompt.PageShowsItems | src/Spectre.Console/Prompts/SearchPrompt.cs:37 | row `i` of the display is page item `i`'s display string: the display list is cut after conversion and the returned list before it, and they agree |
| Prompt.PageHoldsFirstMatches | src/Spectre.Console/Prompts/SearchPrompt.cs:37 | a matching choice is shown exactly when fewer than `pageSize` matches precede it, and then it is shown at that position |
| Prompt.PageItemsComeFromChoices | src/Spectre.Console/Prompts/SearchPrompt.cs:105 | every page item is a matching choice of the store, sitting at its match rank |
| Prompt.DefaultComparerMonotone | src/Spectre.Console/Prompts/SearchPrompt.cs:19 | with the default comparer, extending the query refilters the old matches, and neither the matches nor the page grow |
| PromptExtensions.AddChoices | src/Spectre.Console/Widgets/Prompt/SearchPromptExtensions.cs:8-17 | the store becomes the old store followed by the new choices in enumeration order; the settings are kept |
| PromptExtensions.AddChoicesAppendsMatches | src/Spectre.Console/Widgets/Prompt/SearchPromptExtensions.cs:8-17 | after adding choices, the matches of any query are the old matches followed by the matching added choices |
| PromptExtensions.UseConverter | src/Spectre.Console/Widgets/Prompt/SearchPromptExtensions.cs:19-24 | only the converter changes |
| PromptExtensions.UseConverterRetargetsDefaultComparer | src/Spectre.Console/Prompts/SearchPrompt.cs:19 | since the default comparer reads the converter when it runs, after `UseConverter` it prefix-tests the new converter's output; a custom comparer is unaffected |
| PromptExtensions.UseComparer | src/Spectre.Console/Widgets/Prompt/SearchPromptExtensions.cs:26-31 | only the comparer changes, and it becomes the given function |
| PromptExtensions.UseComparerDecidesMatching | src/Spectre.Console/Widgets/Prompt/SearchPromptExtensions.cs:26-31 | after `UseComparer`, matching is decided by the given function alone, even if the converter is replaced later |
| PromptExtensions.WithPageSize | src/Spectre.Console/Widgets/Prompt/SearchPromptExtensions.cs:33-43 | a page size of zero or less fails with an argument error naming `pageSize`; any other value is set, and nothing else changes |
| PromptExtensions.WithPageSizeBoundsPage | src/Spectre.Console/Widgets/Prompt/SearchPromptExtensions.cs:33-43 | an accepted page size bounds every page, and a page is short exactly when fewer choices match |
| Render.ListFrom | src/Spectre.Console/Prompts/SearchPrompt.cs:178-194 | from position `j` on, each entry is written with its style and followed by a line break |
| Render.ListRenderable | src/Spectre.Console/Prompts/SearchPrompt.cs:176-195 | each entry is written in order and followed by a line break; the entry at the selected index is highlighted and no other write is |
| Render.RepaintRow | src/Spectre.Console/Prompts/SearchPrompt.cs:131-137 | a row-clear for `row` followed by a write leaves terminal row `row + 1` showing exactly that text, and touches no other row |
| Render.FullRedraw | src/Spectre.Console/Prompts/SearchPrompt.cs:45-49 | the full redraw starts with the query line, written plainly, and a line break, and has two actions per page entry after them |
| Render.FullRedrawListsPage | src/Spectre.Console/Prompts/SearchPrompt.cs:45-49 | after the query line, the full redraw writes every page entry in order, each followed by a line break; only the selected entry's write is highlighted, and only when the selection is on the page |
| Render.ClearRowTarget | src/Spectre.Console/Prompts/SearchPrompt.cs:131-137 | a row-clear for `row` targets the layout row of page entry `row - 1`, never the query line for `row` of 1 or more |
| Render.ClearRow | src/Spectre.Console/Prompts/SearchPrompt.cs:131-137 | a row-clear is a cursor move to the start of that layout row followed by an erase to end of line |
| Render.ClearRowErases | src/Spectre.Console/Prompts/SearchPrompt.cs:131-137 | on any screen, a row-clear empties exactly its target row, leaves the cursor at its start, and keeps every other row |
| Render.DownRedraw | src/Spectre.Console/Prompts/SearchPrompt.cs:63-71 | the Down repaint positions first on the row of the previous entry and then on the row of the new one |
| Render.DownRedrawMovesHighlight | src/Spectre.Console/Prompts/SearchPrompt.cs:63-71 | on a screen showing the frame for selection `index - 1`, the Down repaint leaves the frame for selection `index` |
| Render.UpRedraw | src/Spectre.Console/Prompts/SearchPrompt.cs:73-81 | the Up repaint positions first on the row of the previous entry and then on the row of the new one |
| Render.UpRedrawMovesHighlight | src/Spectre.Console/Prompts/SearchPrompt.cs:73-81 | on a screen showing the frame for selection `index + 1`, the Up repaint leaves the frame for selection `index` |
| Render.ListFromDraws | src/Spectre.Console/Prompts/SearchPrompt.cs:176-195 | drawing the remaining entries on a partly drawn frame completes the layout, leaving the cursor below the list |
| Render.FullRedrawShowsLayout | src/Spectre.Console/Prompts/SearchPrompt.cs:44-49 | on a cleared screen, the query line plus the list show exactly the layout, with the cursor below the last entry |
| Loop.Decode | src/Spectre.Console/Prompts/SearchPrompt.cs:54-102 | the key tests in the loop's order: each command is taken exactly under its guard, Down and Up fall through when the selection cannot move, only typeable characters are appended, and every other key is ignored |
| Loop.RedrawDue | src/Spectre.Console/Prompts/SearchPrompt.cs:39-42 | the first pass, a pending re-render and a key typed into the query always lead to a full redraw; Down, Up, Backspace and Enter alone never do |
| Loop.CorrectedRedrawsLess | src/Spectre.Console/Prompts/SearchPrompt.cs:39-42 | the corrected rule redraws only where the rule as written does, and they differ exactly after a key that is neither frame-keeping nor typeable, with no re-render pending |
| Loop.TopOfLoop | src/Spectre.Console/Prompts/SearchPrompt.cs:39-50 | when the redraw rule fires the whole frame for the current page is drawn and the flag cleared; otherwise nothing changes and nothing is drawn |
| Loop.HandleKey | src/Spectre.Console/Prompts/SearchPrompt.cs:52-102 | while the selection is on the page no element access faults and the selection stays on the page; a returned item follows an Enter, is the selected page item, matches the query, and displays as the selected row |
| Loop.Iteration | src/Spectre.Console/Prompts/SearchPrompt.cs:35-103 | one pass never faults while the selection is on the page and keeps it there; it remembers the key; a returned item follows an Enter and matches the query; with no redraw due the pass is just the key's effect |
| Loop.IterationDrawsFrameFirst | src/Spectre.Console/Prompts/SearchPrompt.cs:39-52 | when a redraw is due, the pass outputs the whole frame first and then the key's output, and the key acts on the state with the flag cleared |
| Loop.RulesAgreeOnOutcome | src/Spectre.Console/Prompts/SearchPrompt.cs:35-103 | the redraw rule does not change what a pass does to the state |
| Loop.RulesAgreeOnRun | src/Spectre.Console/Prompts/SearchPrompt.cs:35-105 | both redraw rules give the same result on every run of keys |
| Loop.TypingAppends | src/Spectre.Console/Prompts/SearchPrompt.cs:93-101 | a typed character is appended to the query (the old query is a prefix), selects the first row and clears the screen |
| Loop.BackspaceDeletesLast | src/Spectre.Console/Prompts/SearchPrompt.cs:54-61 | Backspace removes exactly the last query character, selects the first row, sets the re-render flag and clears; on an empty query it changes nothing and draws nothing |
| Loop.DownSaturates | src/Spectre.Console/Prompts/SearchPrompt.cs:63-71 | Down moves one row down when a row exists below and otherwise does nothing and draws nothing; the query never changes |
| Loop.UpSaturates | src/Spectre.Console/Prompts/SearchPrompt.cs:73-81 | Up moves one row up unless the selection is on the first row; the query never changes |
| Loop.EnterConfirmsOnlyNonEmptyPage | src/Spectre.Console/Prompts/SearchPrompt.cs:83-91 | Enter continues the loop exactly when the page is empty, then draws nothing and changes only the last key; on a non-empty page it returns |
| Loop.Run | src/Spectre.Console/Prompts/SearchPrompt.cs:35-105 | from a state whose selection is on the page, no run of keys faults; a waiting loop keeps the selection on the page; a returned item was chosen by the last key read, an Enter, and is the selected matching page item |
| Loop.Show | src/Spectre.Console/Prompts/SearchPrompt.cs:27-106 | the prompt starts by clearing the screen and never faults; the item it returns is the selected item of the final query's page (the choice at that position of the matches cut to the page size), matches the query, and displays as the selected row |
| Coherence.TopOfLoopShowsFrame | src/Spectre.Console/Prompts/SearchPrompt.cs:39-50 | whether or not it redraws, after the top of an iteration the screen shows the frame for the current state |
| Coherence.MoveDownKeepsCoherent | src/Spectre.Console/Prompts/SearchPrompt.cs:63-71 | a Down that moves the selection leaves the screen showing the frame for the new selection, with no full redraw due under either rule |
| Coherence.MoveUpKeepsCoherent | src/Spectre.Console/Prompts/SearchPrompt.cs:73-81 | an Up that moves the selection leaves the screen showing the frame for the new selection, with no full redraw due under either rule |
| Coherence.EditKeepsCoherent | src/Spectre.Console/Prompts/SearchPrompt.cs:54-61 | a key that edits the query lets the loop go on, leaves the screen blank, and leaves a full redraw due for the next state |
| Coherence.QuietKeyKeepsCoherent | src/Spectre.Console/Prompts/SearchPrompt.cs:83-88 | a refused Enter or a key that changes nothing lets the loop go on and leaves the screen exactly as it was; no redraw is due under the corrected rule, or under either rule when the key is not ignored |
| Coherence.HandleKeyKeepsCoherent | src/Spectre.Console/Prompts/SearchPrompt.cs:52-102 | for a conventional key (and, under the rule as written, one that is not ignored), a key the loop goes on after keeps the screen coherent with the next state (cleared when a redraw is due, the frame otherwise) |
| Coherence.IterationKeepsCoherent | src/Spectre.Console/Prompts/SearchPrompt.cs:35-103 | a whole iteration on a conventional key (not an ignored one under the rule as written) preserves coherence of screen and state |
| Coherence.RunKeepsScreenCoherent | src/Spectre.Console/Prompts/SearchPrompt.cs:35-103 | over any admissible run, the waiting loop's screen shows the frame for its state, and a returned item's frame is on screen |
| Coherence.ShowKeepsScreenCoherent | src/Spectre.Console/Prompts/SearchPrompt.cs:27-106 | from any screen, over a run of conventional keys (with no ignored key under the rule as written), the prompt's display while waiting is exactly the frame for its state, and the returned item's display string is the highlighted row |
| Coherence.IgnoredKeyDrawsFrameTwice | src/Spectre.Console/Prompts/SearchPrompt.cs:39-50 | on any prompt, an ignored first key makes the rule as written draw the opening frame a second time without a clear; the corrected rule draws it once |
| Coherence.IgnoredKeyLeavesStaleQuery | src/Spectre.Console/Prompts/SearchPrompt.cs:39-50 | on any prompt with no choices, an ignored first key leaves the rule as written with a plain copy of the query line on row 2 |
| Coherence.IgnoredKeyRedrawsWithoutClearing | src/Spectre.Console/Prompts/SearchPrompt.cs:39-50 | concretely, after one arrow key with no character the rule as written shows the query line again on row 2 and the screen no longer shows the frame; the corrected rule's screen does |
| Scenarios.FruitsBuilt | src/Spectre.Console/Widgets/Prompt/SearchPromptExtensions.cs:8-17 | adding three choices to a fresh prompt gives a prompt with those choices in order and the default settings |
| Scenarios.FruitsPage | src/Spectre.Console/Prompts/SearchPrompt.cs:37 | the query "ap" over apple, apricot, banana shows apple and apricot, in store order |
| Scenarios.TypeDownEnterSelectsApricot | src/Spectre.Console/Prompts/SearchPrompt.cs:27-106 | typing "ap", Down, Enter returns apricot from row 1 of query "ap" after four keys, under both redraw rules |
| Scenarios.EnterRefusedUntilBackspace | src/Spectre.Console/Prompts/SearchPrompt.cs:83-88 | with a query nothing matches, Enter is refused, and Backspace brings back the unfiltered page |
| Scenarios.EmptyStoreNeverConfirms | src/Spectre.Console/Prompts/SearchPrompt.cs:83-88 | with no choices, no run of keys under any classifier or redraw rule ends the prompt |

## Left out

- Console input and output: keys come in as a finite sequence and drawing
  comes out as a sequence of actions. `Show`'s `console` parameter, which
  the source never uses, has no counterpart. A loop that never sees a
  successful Enter ends as `Waiting`.
- ANSI encoding: segments, the `Yellow2` colour (modelled as the style
  `Highlight`), and `Measure`, whose results the loop never inspects.
- Unicode character categories: `char.IsLetterOrDigit`, `IsWhiteSpace`,
  `IsSymbol` and `IsPunctuation` are a parameter (`Loop.CharClasses`), not
  tables.
- Prompt.StartsWith: .NET's `string.StartsWith(string)` compares under the
  current culture. The model uses an ordinal prefix test.
- A null converter, or a `ToString` that returns null: the converter is a
  total function. The default converter, the item type's own `ToString`, is
  a parameter of `Prompt.NewSearchPrompt`.
- Converters and comparers are pure functions here; side effects and
  exceptions they could raise are not modelled.
- `ShowAsync` only throws `NotImplementedException`.
- `ClearRowRederable`'s second constructor argument and its `_length`
  field are never read by its rendering, so the model omits them.
- Line wrapping at the console width, scrolling, and newline characters
  inside choices or the query: each write stays on one row.
- Loop.HandleKey: on a fault its output stops at the throwing call, and
  only for Up does the source emit anything before the throw. Faults are
  unreachable from the initial state anyway (`Loop.Show`).
- Coherence.HandleKeyKeepsCoherent, Coherence.IterationKeepsCoherent and
  Coherence.ShowKeepsScreenCoherent: like the line below, they assume
  conventional keys, and under the rule as written no ignored key.
  Without that assumption the screen can fall out of step under both
  rules. An example is a Down on the last row that carries a typeable
  character: the character is appended and the screen cleared, but the
  next pass does not redraw.
- Coherence.RunKeepsScreenCoherent: assumes conventional keys, in which
  Backspace and the arrows carry no typeable character. Under the rule as
  written it also assumes no ignored key, because the source does not keep
  the screen coherent after one (see Findings). The loop itself is modelled
  for every key.
- Loop.LoopState: the selected row is a `nat`. The source's `int` never goes
  negative, because Up is guarded by `index > 0`.
- Loop.RedrawDue: under `AsWritten`, a key that is neither Down, Up,
  Backspace nor Enter and is not typeable changes nothing but still makes
  the next pass redraw the whole frame. The model keeps that behaviour, as
  the code has it; see Findings.

## Findings

| source | as written | input that shows it | evidently intended | confidence | as-written member | corrected member |
|---|---|---|---|---|---|---|
| src/Spectre.Console/Prompts/SearchPrompt.cs:39-42 | the frame is redrawn at the top of the next pass whenever the last key was not Down, Up, Backspace or Enter, even if the key changed nothing and the screen was never cleared | a prompt with no choices and one Left-arrow press (code other than the four, character `'\0'`): the query line is drawn a second time on row 2, below the first frame | redraw for that reason only after a key typed into the query, which already cleared the screen | not executed | Coherence.IgnoredKeyRedrawsWithoutClearing | Coherence.ShowKeepsScreenCoherent |

The corrected rule is `Loop.RedrawPolicy.Corrected`. `Coherence.ShowKeepsScreenCoherent`
proves for it, for every run of conventional keys including ignored ones,
that the screen always shows the current frame. `Coherence.IgnoredKeyLeavesStaleQuery` generalises
the as-written half to every prompt with no choices and every ignored key, and
`Coherence.IgnoredKeyDrawsFrameTwice` shows the
doubled frame for every prompt.
