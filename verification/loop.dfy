/** The prompt's read-key loop, one iteration at a time. Each iteration
    computes the page for the current query, redraws the whole frame when
    the redraw rule says so, reads one key and acts on it. The console is
    replaced by the actions each iteration emits and the keys it is fed. */
module Loop {
  import opened Wrappers
  import opened Prompt
  import opened Terminal
  import opened Render

  /** The key codes the loop tells apart; every other code is `OtherKey`. */
  datatype ConsoleKey = Backspace | DownArrow | UpArrow | Enter | OtherKey

  /** A key press: its code and the character it produced. */
  datatype KeyInfo = KeyInfo(key: ConsoleKey, keyChar: char)

  /** The four character categories the loop accepts as typed text. They are
      Unicode category tests and are given, not modelled. */
  datatype CharClasses = CharClasses(
    isLetterOrDigit: char -> bool,
    isWhiteSpace: char -> bool,
    isSymbol: char -> bool,
    isPunctuation: char -> bool)

  predicate IsTypeable(cls: CharClasses, c: char) {
    cls.isLetterOrDigit(c) || cls.isWhiteSpace(c) || cls.isSymbol(c) || cls.isPunctuation(c)
  }

  /** A key as a console delivers it: Backspace and the arrow keys carry a
      control character, not a typeable one. */
  predicate Conventional(cls: CharClasses, k: KeyInfo) {
    (k.key == Backspace || k.key == DownArrow || k.key == UpArrow) ==> !IsTypeable(cls, k.keyChar)
  }

  /** The loop's variables: the query, the selected row, the flag a deleting
      Backspace sets, and the last key read (none before the first). */
  datatype LoopState = LoopState(input: string, index: nat, reRender: bool, lastKey: Option<KeyInfo>)

  const Initial: LoopState := LoopState("", 0, false, None)

  /** The rows shown for the current query. */
  function PageOf<T>(p: SearchPrompt<T>, s: LoopState): seq<string> {
    Page(p, s.input)
  }

  /** The loop invariant: the selected row is the first one or exists. */
  predicate IndexOk<T>(p: SearchPrompt<T>, s: LoopState) {
    s.index == 0 || s.index < |PageOf(p, s)|
  }

  /** What a key does, decided in the loop's order of tests. Down and Up
      count only when the selection can move; otherwise they fall through to
      the typed-character test like any other key. */
  datatype Command = DeleteChar | MoveDown | MoveUp | Confirm | AppendChar(c: char) | Ignore

  function Decode(cls: CharClasses, key: KeyInfo, inputLength: nat, index: nat, pageLength: nat): (cmd: Command)
    ensures cmd == DeleteChar <==> key.key == Backspace && inputLength > 0
    ensures cmd == MoveDown <==> key.key == DownArrow && index < pageLength - 1
    ensures cmd == MoveUp <==> key.key == UpArrow && index > 0
    ensures cmd == Confirm <==> key.key == Enter
    ensures cmd.AppendChar? ==> cmd.c == key.keyChar && IsTypeable(cls, key.keyChar)
    ensures (Conventional(cls, key) && key.key != Enter && IsTypeable(cls, key.keyChar))
              ==> cmd == AppendChar(key.keyChar)
    ensures cmd == Ignore <==>
              !(key.key == Backspace && inputLength > 0)
              && !(key.key == DownArrow && index < pageLength - 1)
              && !(key.key == UpArrow && index > 0)
              && key.key != Enter && !IsTypeable(cls, key.keyChar)
  {
    if key.key == Backspace && inputLength > 0 then DeleteChar
    else if key.key == DownArrow && index < pageLength - 1 then MoveDown
    else if key.key == UpArrow && index > 0 then MoveUp
    else if key.key == Enter then Confirm
    else if IsTypeable(cls, key.keyChar) then AppendChar(key.keyChar)
    else Ignore
  }

  /** Which rule decides when the whole frame is redrawn. */
  datatype RedrawPolicy =
    | AsWritten  // first pass, a deleting Backspace, or a last key other than Down, Up, Backspace, Enter
    | Corrected  // the same, but the last of these only when that key was typed into the query

  predicate KeepsFrame(key: ConsoleKey) {
    key == DownArrow || key == UpArrow || key == Backspace || key == Enter
  }

  /** Whether the top of the next pass redraws the whole frame. The first
      pass and a pending re-render always redraw, and so does a key typed
      into the query under either rule. Down, Up, Backspace and Enter never
      cause a redraw on their own. */
  predicate RedrawDue(policy: RedrawPolicy, cls: CharClasses, s: LoopState)
    ensures s.lastKey.None? || s.reRender ==> RedrawDue(policy, cls, s)
    ensures s.lastKey.Some? && KeepsFrame(s.lastKey.value.key) && !s.reRender ==> !RedrawDue(policy, cls, s)
    ensures (s.lastKey.Some? && !KeepsFrame(s.lastKey.value.key) && IsTypeable(cls, s.lastKey.value.keyChar))
              ==> RedrawDue(policy, cls, s)
  {
    || s.lastKey.None?
    || s.reRender
    || (!KeepsFrame(s.lastKey.value.key)
        && (policy == Corrected ==> IsTypeable(cls, s.lastKey.value.keyChar)))
  }

  /** The top of an iteration: a full redraw when due, which also clears the
      re-render flag. */
  function TopOfLoop<T>(policy: RedrawPolicy, p: SearchPrompt<T>, cls: CharClasses, s: LoopState)
    : (r: (LoopState, seq<Action>))
    ensures r.0.input == s.input && r.0.index == s.index && r.0.lastKey == s.lastKey && !r.0.reRender
    ensures RedrawDue(policy, cls, s) ==> r.1 == FullRedraw(s.input, PageOf(p, s), s.index)
    ensures !RedrawDue(policy, cls, s) ==> r.0 == s && r.1 == []
  {
    if RedrawDue(policy, cls, s) then (s.(reRender := false), FullRedraw(s.input, PageOf(p, s), s.index))
    else (s, [])
  }

  /** How an iteration ends: the loop goes on, the prompt returns an item,
      or an out-of-range element access throws. */
  datatype Outcome<T> = Continue(next: LoopState) | Selected(item: T) | Fault

  datatype Step<T> = Step(outcome: Outcome<T>, output: seq<Action>)

  /** The second half of an iteration: act on the key just read. */
  function HandleKey<T>(p: SearchPrompt<T>, cls: CharClasses, s: LoopState, key: KeyInfo): (st: Step<T>)
    ensures IndexOk(p, s) ==> !st.outcome.Fault?
    ensures IndexOk(p, s) && st.outcome.Continue? ==> IndexOk(p, st.outcome.next)
    ensures st.outcome.Continue? ==> st.outcome.next.lastKey == Some(key)
    ensures st.outcome.Selected? ==>
              && key.key == Enter
              && s.index < |PageItems(p, s.input)|
              && st.outcome.item == PageItems(p, s.input)[s.index]
              && IsMatch(p, st.outcome.item, s.input)
              && p.converter(st.outcome.item) == PageOf(p, s)[s.index]
  {
    var page := PageOf(p, s);
    var s' := s.(lastKey := Some(key));
    match Decode(cls, key, |s.input|, s.index, |page|)
    case DeleteChar =>
      Step(Continue(s'.(index := 0, input := s.input[..|s.input| - 1], reRender := true)), [ClearScreen])
    case MoveDown =>
      Step(Continue(s'.(index := s.index + 1)), DownRedraw(page, s.index + 1))
    case MoveUp =>
      if s.index < |page| then
        Step(Continue(s'.(index := s.index - 1)), UpRedraw(page, s.index - 1))
      else
        Step(Fault, ClearRow(s.index + 1))
    case Confirm =>
      if |page| == 0 then Step(Continue(s'), [])
      else
        var items := PageItems(p, s.input);
        if s.index < |items| then Step(Selected(items[s.index]), []) else Step(Fault, [])
    case AppendChar(c) =>
      Step(Continue(s'.(index := 0, input := s.input + [c])), [ClearScreen])
    case Ignore =>
      Step(Continue(s'), [])
  }

  /** One whole iteration: the conditional redraw, then the key. Without a
      redraw it is just the key's effect. */
  function Iteration<T>(policy: RedrawPolicy, p: SearchPrompt<T>, cls: CharClasses, s: LoopState, key: KeyInfo)
    : (st: Step<T>)
    ensures IndexOk(p, s) ==> !st.outcome.Fault?
    ensures IndexOk(p, s) && st.outcome.Continue? ==> IndexOk(p, st.outcome.next)
    ensures st.outcome.Continue? ==> st.outcome.next.lastKey == Some(key)
    ensures st.outcome.Selected? ==> key.key == Enter && IsMatch(p, st.outcome.item, s.input)
    ensures !RedrawDue(policy, cls, s) ==> st == HandleKey(p, cls, s, key)
  {
    var (s1, drawn) := TopOfLoop(policy, p, cls, s);
    var st := HandleKey(p, cls, s1, key);
    Step(st.outcome, drawn + st.output)
  }

  /** When a redraw is due, the whole frame comes first in an iteration's
      output, and the key then acts on the state with the flag cleared. */
  lemma IterationDrawsFrameFirst<T>(policy: RedrawPolicy, p: SearchPrompt<T>, cls: CharClasses, s: LoopState, key: KeyInfo)
    requires RedrawDue(policy, cls, s)
    ensures var st := Iteration(policy, p, cls, s, key);
      var frame := FullRedraw(s.input, PageOf(p, s), s.index);
      var rest := HandleKey(p, cls, s.(reRender := false), key);
      && st.output == frame + rest.output
      && st.outcome == rest.outcome
  {
  }

  /** Typing a character that no earlier test claims appends it to the
      query, moves the selection to the first row and clears the screen. */
  lemma TypingAppends<T>(p: SearchPrompt<T>, cls: CharClasses, s: LoopState, key: KeyInfo)
    requires Decode(cls, key, |s.input|, s.index, |PageOf(p, s)|).AppendChar?
    ensures var st := HandleKey(p, cls, s, key);
      && st.outcome.Continue?
      && st.outcome.next.input == s.input + [key.keyChar]
      && st.outcome.next.input[..|s.input|] == s.input
      && st.outcome.next.index == 0
      && st.output == [ClearScreen]
  {
  }

  /** Backspace on a non-empty query removes exactly its last character,
      selects the first row and asks for a redraw. On an empty query a
      Backspace carrying its control character changes nothing but the
      remembered key, and draws nothing. */
  lemma BackspaceDeletesLast<T>(p: SearchPrompt<T>, cls: CharClasses, s: LoopState, key: KeyInfo)
    requires key.key == Backspace && Conventional(cls, key)
    ensures var st := HandleKey(p, cls, s, key);
      && st.outcome.Continue?
      && (|s.input| > 0 ==>
            && st.outcome.next.input + [s.input[|s.input| - 1]] == s.input
            && st.outcome.next.index == 0
            && st.outcome.next.reRender
            && st.output == [ClearScreen])
      && (|s.input| == 0 ==>
            st.outcome.next == s.(lastKey := Some(key)) && st.output == [])
  {
    if |s.input| > 0 {
      var st := HandleKey(p, cls, s, key);
      assert st.outcome.next.input == s.input[..|s.input| - 1];
      assert s.input == s.input[..|s.input| - 1] + [s.input[|s.input| - 1]];
    }
  }

  /** Down moves the selection one row down if there is a row below, and
      otherwise does nothing; either way the query is untouched. */
  lemma DownSaturates<T>(p: SearchPrompt<T>, cls: CharClasses, s: LoopState, key: KeyInfo)
    requires key.key == DownArrow && Conventional(cls, key) && IndexOk(p, s)
    ensures var st := HandleKey(p, cls, s, key);
      && st.outcome.Continue?
      && st.outcome.next.input == s.input
      && st.outcome.next.reRender == s.reRender
      && st.outcome.next.index == (if s.index + 1 < |PageOf(p, s)| then s.index + 1 else s.index)
      && (s.index + 1 >= |PageOf(p, s)| ==> st.output == [])
  {
  }

  /** Up moves the selection one row up unless it is on the first row, and
      otherwise does nothing; either way the query is untouched. */
  lemma UpSaturates<T>(p: SearchPrompt<T>, cls: CharClasses, s: LoopState, key: KeyInfo)
    requires key.key == UpArrow && Conventional(cls, key) && IndexOk(p, s)
    ensures var st := HandleKey(p, cls, s, key);
      && st.outcome.Continue?
      && st.outcome.next.input == s.input
      && st.outcome.next.reRender == s.reRender
      && st.outcome.next.index == (if s.index > 0 then s.index - 1 else 0)
      && (s.index == 0 ==> st.output == [])
  {
  }

  /** Enter on an empty page is refused: the loop goes on with nothing
      changed but the remembered key. On a non-empty page it returns the
      selected choice. */
  lemma EnterConfirmsOnlyNonEmptyPage<T>(p: SearchPrompt<T>, cls: CharClasses, s: LoopState, key: KeyInfo)
    requires key.key == Enter && IndexOk(p, s)
    ensures var st := HandleKey(p, cls, s, key);
      && (|PageOf(p, s)| == 0 <==> st.outcome.Continue?)
      && (|PageOf(p, s)| == 0 ==> st.outcome.next == s.(lastKey := Some(key)) && st.output == [])
      && (|PageOf(p, s)| > 0 ==> st.outcome.Selected?)
  {
  }

  /** The result of feeding the loop a finite run of keys: a chosen item
      (with the query and row it was chosen at and the number of keys read),
      the state the loop waits in for the next key, or a thrown fault. */
  datatype RunResult<T> =
    | Chosen(item: T, query: string, row: nat, keysRead: nat)
    | Waiting(state: LoopState)
    | Crashed

  datatype Trace<T> = Trace(result: RunResult<T>, output: seq<Action>)

  /** Runs iterations from `s` over `keys`. When the keys run out the loop
      has drawn the top of its next iteration and is blocked reading a key. */
  function Run<T>(policy: RedrawPolicy, p: SearchPrompt<T>, cls: CharClasses, s: LoopState, keys: seq<KeyInfo>)
    : (tr: Trace<T>)
    ensures IndexOk(p, s) ==> !tr.result.Crashed?
    ensures IndexOk(p, s) && tr.result.Waiting? ==> IndexOk(p, tr.result.state)
    ensures tr.result.Chosen? ==>
              && 0 < tr.result.keysRead <= |keys|
              && keys[tr.result.keysRead - 1].key == Enter
              && tr.result.row < |PageItems(p, tr.result.query)|
              && tr.result.item == PageItems(p, tr.result.query)[tr.result.row]
              && IsMatch(p, tr.result.item, tr.result.query)
              && p.converter(tr.result.item) == Page(p, tr.result.query)[tr.result.row]
    decreases |keys|
  {
    if |keys| == 0 then
      var (s1, drawn) := TopOfLoop(policy, p, cls, s);
      Trace(Waiting(s1), drawn)
    else
      var (s1, _) := TopOfLoop(policy, p, cls, s);
      var st := Iteration(policy, p, cls, s, keys[0]);
      match st.outcome
      case Selected(item) => Trace(Chosen(item, s1.input, s1.index, 1), st.output)
      case Fault => Trace(Crashed, st.output)
      case Continue(next) =>
        var rest := Run(policy, p, cls, next, keys[1..]);
        var result := match rest.result
          case Chosen(item, query, row, n) => Chosen(item, query, row, n + 1)
          case other => other;
        Trace(result, st.output + rest.output)
  }

  /** The whole prompt: clear the screen, then loop from the empty query. */
  function Show<T>(policy: RedrawPolicy, p: SearchPrompt<T>, cls: CharClasses, keys: seq<KeyInfo>)
    : (tr: Trace<T>)
    ensures !tr.result.Crashed?
    ensures tr.result.Waiting? ==> IndexOk(p, tr.result.state)
    ensures tr.result.Chosen? ==>
              && 0 < tr.result.keysRead <= |keys|
              && keys[tr.result.keysRead - 1].key == Enter
              && tr.result.row < |PageItems(p, tr.result.query)|
              && tr.result.item == PageItems(p, tr.result.query)[tr.result.row]
              && IsMatch(p, tr.result.item, tr.result.query)
              && p.converter(tr.result.item) == Page(p, tr.result.query)[tr.result.row]
    ensures |tr.output| > 0 && tr.output[0] == ClearScreen
  {
    var tr := Run(policy, p, cls, Initial, keys);
    Trace(tr.result, [ClearScreen] + tr.output)
  }

  /** The corrected rule redraws only where the rule as written does, and
      the two differ exactly on a key that is neither one of the four
      frame-keeping keys nor typeable. */
  lemma CorrectedRedrawsLess(cls: CharClasses, s: LoopState)
    ensures RedrawDue(Corrected, cls, s) ==> RedrawDue(AsWritten, cls, s)
    ensures RedrawDue(AsWritten, cls, s) != RedrawDue(Corrected, cls, s) <==>
              && s.lastKey.Some? && !s.reRender
              && !KeepsFrame(s.lastKey.value.key) && !IsTypeable(cls, s.lastKey.value.keyChar)
  {
  }

  /** The redraw rule decides only what is drawn: both rules take every
      iteration to the same outcome. */
  lemma RulesAgreeOnOutcome<T>(p: SearchPrompt<T>, cls: CharClasses, s: LoopState, key: KeyInfo)
    ensures Iteration(AsWritten, p, cls, s, key).outcome == Iteration(Corrected, p, cls, s, key).outcome
  {
  }

  /** Hence both rules give the same result on every run of keys. */
  lemma {:induction false} RulesAgreeOnRun<T>(p: SearchPrompt<T>, cls: CharClasses, s: LoopState, keys: seq<KeyInfo>)
    ensures Run(AsWritten, p, cls, s, keys).result == Run(Corrected, p, cls, s, keys).result
    decreases |keys|
  {
    if |keys| > 0 {
      RulesAgreeOnOutcome(p, cls, s, keys[0]);
      var st := Iteration(AsWritten, p, cls, s, keys[0]);
      if st.outcome.Continue? {
        RulesAgreeOnRun(p, cls, st.outcome.next, keys[1..]);
      }
    }
  }
}
