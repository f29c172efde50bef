/** Whether what the console shows keeps up with the loop's state. While
    the loop waits for a key, the screen should show exactly the frame for
    the current query, page and selection. The full redraw and the partial
    repaints each keep this, and a key that clears the screen leaves the
    full redraw due. The one exception is in the redraw rule as written: a
    key the loop ignores leaves a full redraw due on a screen that was never
    cleared. */
module Coherence {
  import opened Wrappers
  import opened Prompt
  import opened Terminal
  import opened Render
  import opened Loop

  /** A key the loop acts on in no way: not one of the four keys the redraw
      rule singles out, and not typeable. */
  predicate Ignored(cls: CharClasses, k: KeyInfo) {
    !KeepsFrame(k.key) && !IsTypeable(cls, k.keyChar)
  }

  /** A key run the model vouches for under `policy`: keys as a console
      delivers them and, for the redraw rule as written, no ignored key. */
  predicate Admissible(policy: RedrawPolicy, cls: CharClasses, keys: seq<KeyInfo>) {
    forall i :: 0 <= i < |keys| ==>
      Conventional(cls, keys[i]) && (policy == AsWritten ==> !Ignored(cls, keys[i]))
  }

  /** Between iterations: a due redraw finds a cleared screen, and otherwise
      the screen already shows the current frame. */
  ghost predicate Coherent<T>(policy: RedrawPolicy, p: SearchPrompt<T>, cls: CharClasses, t: Screen, s: LoopState) {
    if RedrawDue(policy, cls, s) then t == Blank
    else Shows(t.lines, s.input, PageOf(p, s), s.index)
  }

  /** After the top of an iteration the current frame is on the screen. */
  lemma TopOfLoopShowsFrame<T>(policy: RedrawPolicy, p: SearchPrompt<T>, cls: CharClasses, t: Screen, s: LoopState)
    requires Coherent(policy, p, cls, t, s)
    ensures Shows(ApplyAll(t, TopOfLoop(policy, p, cls, s).1).lines, s.input, PageOf(p, s), s.index)
  {
    if RedrawDue(policy, cls, s) {
      FullRedrawShowsLayout(s.input, PageOf(p, s), s.index);
    }
  }

  /** Down, when the selection can move, repaints two rows and leaves the
      frame for the new selection on the screen, with no full redraw due
      under either rule. */
  lemma MoveDownKeepsCoherent<T>(policy: RedrawPolicy, p: SearchPrompt<T>, cls: CharClasses,
                                 t: Screen, s: LoopState, key: KeyInfo)
    requires !s.reRender && Shows(t.lines, s.input, PageOf(p, s), s.index)
    requires Decode(cls, key, |s.input|, s.index, |PageOf(p, s)|) == MoveDown
    ensures var st := HandleKey(p, cls, s, key);
      && st.outcome.Continue?
      && !RedrawDue(policy, cls, st.outcome.next)
      && Shows(ApplyAll(t, st.output).lines, s.input, PageOf(p, st.outcome.next), st.outcome.next.index)
  {
    var page := PageOf(p, s);
    var next := s.(lastKey := Some(key), index := s.index + 1);
    assert key.key == DownArrow && s.index + 1 < |page|;
    assert HandleKey(p, cls, s, key) == Step(Continue(next), DownRedraw(page, s.index + 1));
    assert next.input == s.input && PageOf(p, next) == page;
    assert KeepsFrame(key.key) && !next.reRender && next.lastKey == Some(key);
    DownRedrawMovesHighlight(t, s.input, page, s.index + 1);
  }

  /** Up, when the selection can move, does the same: the frame for the
      new selection is on the screen and no full redraw is due. */
  lemma MoveUpKeepsCoherent<T>(policy: RedrawPolicy, p: SearchPrompt<T>, cls: CharClasses,
                               t: Screen, s: LoopState, key: KeyInfo)
    requires IndexOk(p, s) && !s.reRender && Shows(t.lines, s.input, PageOf(p, s), s.index)
    requires Decode(cls, key, |s.input|, s.index, |PageOf(p, s)|) == MoveUp
    ensures var st := HandleKey(p, cls, s, key);
      && st.outcome.Continue?
      && !RedrawDue(policy, cls, st.outcome.next)
      && Shows(ApplyAll(t, st.output).lines, s.input, PageOf(p, st.outcome.next), st.outcome.next.index)
  {
    var page := PageOf(p, s);
    var next := s.(lastKey := Some(key), index := s.index - 1);
    assert HandleKey(p, cls, s, key) == Step(Continue(next), UpRedraw(page, s.index - 1));
    UpRedrawMovesHighlight(t, s.input, page, s.index - 1);
    assert PageOf(p, next) == page && !RedrawDue(policy, cls, next);
  }

  /** A key that changes the query clears the screen and leaves a full
      redraw due. */
  lemma EditKeepsCoherent<T>(policy: RedrawPolicy, p: SearchPrompt<T>, cls: CharClasses,
                             s: LoopState, key: KeyInfo, t: Screen)
    requires Conventional(cls, key)
    requires var cmd := Decode(cls, key, |s.input|, s.index, |PageOf(p, s)|);
      cmd == DeleteChar || cmd.AppendChar?
    ensures var st := HandleKey(p, cls, s, key);
      && st.outcome.Continue? && RedrawDue(policy, cls, st.outcome.next)
      && ApplyAll(t, st.output) == Blank
    ensures var st := HandleKey(p, cls, s, key);
      Coherent(policy, p, cls, ApplyAll(t, st.output), st.outcome.next)
  {
    var st := HandleKey(p, cls, s, key);
    assert st.output == [ClearScreen];
    assert ApplyAll(t, st.output) == Blank;
  }

  /** A refused Enter, or a key that falls through every test, draws
      nothing, and under the corrected rule (or for a key that is not
      ignored) leaves no full redraw due. */
  lemma QuietKeyKeepsCoherent<T>(policy: RedrawPolicy, p: SearchPrompt<T>, cls: CharClasses,
                                 t: Screen, s: LoopState, key: KeyInfo)
    requires !s.reRender && Shows(t.lines, s.input, PageOf(p, s), s.index)
    requires policy == AsWritten ==> !Ignored(cls, key)
    requires var cmd := Decode(cls, key, |s.input|, s.index, |PageOf(p, s)|);
      (cmd == Confirm && |PageOf(p, s)| == 0) || cmd == Ignore
    ensures var st := HandleKey(p, cls, s, key);
      && st.outcome.Continue? && !RedrawDue(policy, cls, st.outcome.next)
      && ApplyAll(t, st.output) == t
    ensures var st := HandleKey(p, cls, s, key);
      Coherent(policy, p, cls, ApplyAll(t, st.output), st.outcome.next)
  {
    var st := HandleKey(p, cls, s, key);
    assert st == Step(Continue(s.(lastKey := Some(key))), []);
    assert ApplyAll(t, st.output) == t;
  }

  /** The key half of an iteration, from a screen showing the current
      frame with no re-render pending. */
  lemma HandleKeyKeepsCoherent<T>(policy: RedrawPolicy, p: SearchPrompt<T>, cls: CharClasses,
                                  t: Screen, s: LoopState, key: KeyInfo)
    requires IndexOk(p, s) && !s.reRender && Shows(t.lines, s.input, PageOf(p, s), s.index)
    requires Conventional(cls, key) && (policy == AsWritten ==> !Ignored(cls, key))
    ensures var st := HandleKey(p, cls, s, key);
      st.outcome.Continue? ==> Coherent(policy, p, cls, ApplyAll(t, st.output), st.outcome.next)
  {
    var cmd := Decode(cls, key, |s.input|, s.index, |PageOf(p, s)|);
    if cmd == MoveDown {
      MoveDownKeepsCoherent(policy, p, cls, t, s, key);
    } else if cmd == MoveUp {
      MoveUpKeepsCoherent(policy, p, cls, t, s, key);
    } else if cmd == DeleteChar || cmd.AppendChar? {
      EditKeepsCoherent(policy, p, cls, s, key, t);
    } else if cmd == Ignore || |PageOf(p, s)| == 0 {
      QuietKeyKeepsCoherent(policy, p, cls, t, s, key);
    }
  }

  /** Every iteration that goes on leaves the screen coherent with the next
      state, for any key under the corrected rule and for every key but an
      ignored one under the rule as written. */
  lemma IterationKeepsCoherent<T>(policy: RedrawPolicy, p: SearchPrompt<T>, cls: CharClasses,
                                  t: Screen, s: LoopState, key: KeyInfo)
    requires IndexOk(p, s) && Coherent(policy, p, cls, t, s)
    requires Conventional(cls, key) && (policy == AsWritten ==> !Ignored(cls, key))
    ensures var st := Iteration(policy, p, cls, s, key);
      st.outcome.Continue? ==> Coherent(policy, p, cls, ApplyAll(t, st.output), st.outcome.next)
  {
    var (s1, drawn) := TopOfLoop(policy, p, cls, s);
    TopOfLoopShowsFrame(policy, p, cls, t, s);
    var st := HandleKey(p, cls, s1, key);
    ApplyAllAppend(t, drawn, st.output);
    HandleKeyKeepsCoherent(policy, p, cls, ApplyAll(t, drawn), s1, key);
  }

  /** Over a whole run of admissible keys the screen keeps up: while the
      loop waits it shows the frame for its state, and when it returns an
      item the frame on screen highlights that item's row. */
  lemma {:induction false} RunKeepsScreenCoherent<T>(policy: RedrawPolicy, p: SearchPrompt<T>, cls: CharClasses,
                                                     t: Screen, s: LoopState, keys: seq<KeyInfo>)
    requires IndexOk(p, s) && Coherent(policy, p, cls, t, s) && Admissible(policy, cls, keys)
    ensures var tr := Run(policy, p, cls, s, keys);
      var t' := ApplyAll(t, tr.output);
      && (tr.result.Waiting? ==>
            Shows(t'.lines, tr.result.state.input, PageOf(p, tr.result.state), tr.result.state.index))
      && (tr.result.Chosen? ==>
            Shows(t'.lines, tr.result.query, Page(p, tr.result.query), tr.result.row))
    decreases |keys|
  {
    TopOfLoopShowsFrame(policy, p, cls, t, s);
    if |keys| > 0 {
      var (s1, drawn) := TopOfLoop(policy, p, cls, s);
      var st := Iteration(policy, p, cls, s, keys[0]);
      ApplyAllAppend(t, drawn, HandleKey(p, cls, s1, keys[0]).output);
      if st.outcome.Continue? {
        IterationKeepsCoherent(policy, p, cls, t, s, keys[0]);
        var t1 := ApplyAll(t, st.output);
        assert Admissible(policy, cls, keys[1..]) by {
          forall i | 0 <= i < |keys[1..]|
            ensures Conventional(cls, keys[1..][i]) && (policy == AsWritten ==> !Ignored(cls, keys[1..][i]))
          {
            assert keys[1..][i] == keys[i + 1];
          }
        }
        RunKeepsScreenCoherent(policy, p, cls, t1, st.outcome.next, keys[1..]);
        var rest := Run(policy, p, cls, st.outcome.next, keys[1..]);
        ApplyAllAppend(t, st.output, rest.output);
      }
    }
  }

  /** On a screen showing a frame, the selected entry's row holds its text
      highlighted. */
  lemma HighlightedRow(lines: map<int, seq<Cell>>, input: string, page: seq<string>, row: nat)
    requires row < |page| && Shows(lines, input, page, row)
    ensures Line(lines, ItemRow(row)) == Cells(page[row], Highlight)
  {
    assert Line(lines, ItemRow(row)) == LayoutRow(input, page, row, ItemRow(row));
  }

  /** The whole prompt, from whatever was on the console before: under
      admissible keys, whenever it waits for a key the screen shows exactly
      the frame for its state, and the item it returns is the one whose
      display string sits highlighted on the screen. */
  lemma ShowKeepsScreenCoherent<T>(policy: RedrawPolicy, p: SearchPrompt<T>, cls: CharClasses,
                                   t: Screen, keys: seq<KeyInfo>)
    requires Admissible(policy, cls, keys)
    ensures var tr := Show(policy, p, cls, keys);
      var t' := ApplyAll(t, tr.output);
      && (tr.result.Waiting? ==>
            Shows(t'.lines, tr.result.state.input, PageOf(p, tr.result.state), tr.result.state.index))
      && (tr.result.Chosen? ==>
            && Shows(t'.lines, tr.result.query, Page(p, tr.result.query), tr.result.row)
            && Line(t'.lines, ItemRow(tr.result.row)) == Cells(p.converter(tr.result.item), Highlight))
  {
    var run := Run(policy, p, cls, Initial, keys);
    var tr := Show(policy, p, cls, keys);
    assert tr.result == run.result && tr.output == [ClearScreen] + run.output;
    ApplyAllAppend(t, [ClearScreen], run.output);
    assert ApplyAll(t, [ClearScreen]) == Blank;
    var t' := ApplyAll(t, tr.output);
    assert t' == ApplyAll(Blank, run.output);
    RunKeepsScreenCoherent(policy, p, cls, Blank, Initial, keys);
    if tr.result.Chosen? {
      HighlightedRow(t'.lines, tr.result.query, Page(p, tr.result.query), tr.result.row);
    }
  }

  /** On any prompt, one ignored key as the first key makes the rule as
      written draw the opening frame a second time, with no clear in
      between; the corrected rule draws it once. */
  lemma IgnoredKeyDrawsFrameTwice<T>(p: SearchPrompt<T>, cls: CharClasses, key: KeyInfo)
    requires Ignored(cls, key)
    ensures var frame := FullRedraw("", Page(p, ""), 0);
      && Show(AsWritten, p, cls, [key]).output == [ClearScreen] + frame + frame
      && Show(Corrected, p, cls, [key]).output == [ClearScreen] + frame
      && Show(Corrected, p, cls, [key]).result == Waiting(Initial.(lastKey := Some(key)))
  {
    var frame := FullRedraw("", Page(p, ""), 0);
    var next := Initial.(lastKey := Some(key));
    assert TopOfLoop(AsWritten, p, cls, Initial) == (Initial, frame);
    assert TopOfLoop(Corrected, p, cls, Initial) == (Initial, frame);
    assert HandleKey(p, cls, Initial, key) == Step(Continue(next), []);
    assert Iteration(AsWritten, p, cls, Initial, key) == Step(Continue(next), frame + []);
    assert Iteration(Corrected, p, cls, Initial, key) == Step(Continue(next), frame + []);
    assert TopOfLoop(AsWritten, p, cls, next) == (next, frame);
    assert TopOfLoop(Corrected, p, cls, next) == (next, []);
    assert Run(AsWritten, p, cls, Initial, [key]).output == (frame + []) + frame;
    assert [key][1..] == [];
    assert Run(Corrected, p, cls, next, []) == Trace(Waiting(next), []);
    assert Run(Corrected, p, cls, Initial, [key]) == Trace(Waiting(next), (frame + []) + []);
    assert frame + [] == frame;
  }

  /** The redraw rule as written breaks coherence. On a prompt with no
      choices, one press of a key the loop ignores (say an arrow key with no
      character) makes the next iteration redraw the frame without clearing
      the screen. The query line then appears a second time, on row 2, where
      the frame has nothing. Under the corrected rule the same key draws
      nothing. */
  lemma IgnoredKeyRedrawsWithoutClearing()
    ensures var p := NewSearchPrompt((s: string) => s);
      var cls := CharClasses(c => false, c => false, c => false, c => false);
      var keys := [KeyInfo(OtherKey, 0 as char)];
      var asWritten := Show(AsWritten, p, cls, keys);
      && Line(ApplyAll(Blank, asWritten.output).lines, 2) == Cells(QueryPrefix, Plain)
      && !Shows(ApplyAll(Blank, asWritten.output).lines, "", Page(p, ""), 0)
      && Shows(ApplyAll(Blank, Show(Corrected, p, cls, keys).output).lines, "", Page(p, ""), 0)
  {
    var p := NewSearchPrompt((s: string) => s);
    var cls := CharClasses(c => false, c => false, c => false, c => false);
    var key := KeyInfo(OtherKey, 0 as char);
    var keys := [key];
    IgnoredKeyLeavesStaleQuery(p, cls, key);
    IgnoredKeyDrawsFrameTwice(p, cls, key);
    assert Page(p, "") == [];
    assert LayoutRow("", Page(p, ""), 0, 2) == [];
    assert |Cells(QueryPrefix, Plain)| == |QueryPrefix| > 0;
    assert Admissible(Corrected, cls, keys);
    ShowKeepsScreenCoherent(Corrected, p, cls, Blank, keys);
  }

  /** On an empty store, the as-written rule answers an ignored key by drawing
      the one-line frame a second time, one row down: the row under the query
      holds a stale query line. */
  lemma IgnoredKeyLeavesStaleQuery<T>(p: SearchPrompt<T>, cls: CharClasses, key: KeyInfo)
    requires p.choices == [] && Ignored(cls, key)
    ensures Line(ApplyAll(Blank, Show(AsWritten, p, cls, [key]).output).lines, 2)
         == Cells(QueryPrefix, Plain)
  {
    assert Page(p, "") == [];
    var frame := FullRedraw("", [], 0);
    assert QueryPrefix + "" == QueryPrefix;
    assert ListRenderable([], 0) == [];
    assert frame == [Write(QueryPrefix, Plain), LineBreak];
    IgnoredKeyDrawsFrameTwice(p, cls, key);
    var t1 := ApplyAll(Blank, [ClearScreen] + frame);
    ApplyAllAppend(Blank, [ClearScreen] + frame, frame);
    OverlayEmpty(Cells(QueryPrefix, Plain));
    assert t1.row == 2 && t1.col == 0 && Line(t1.lines, 2) == [];
    var t2 := ApplyAll(t1, frame);
    assert Line(t2.lines, 2) == Cells(QueryPrefix, Plain);
  }
}
