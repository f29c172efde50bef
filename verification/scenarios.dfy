/** Concrete sessions with the prompt, worked through the model. */
module Scenarios {
  import opened Wrappers
  import opened Prompt
  import opened PromptExtensions
  import opened Loop

  /** Lower-case ASCII letters are letters; nothing else is typeable. */
  const Letters: CharClasses :=
    CharClasses(c => 'a' <= c <= 'z', c => false, c => false, c => false)

  function Typed(c: char): KeyInfo {
    KeyInfo(OtherKey, c)
  }

  const DownKey: KeyInfo := KeyInfo(DownArrow, 0 as char)
  const EnterKey: KeyInfo := KeyInfo(Enter, '\r')
  const BackspaceKey: KeyInfo := KeyInfo(Backspace, 8 as char)

  function Fruits(): SearchPrompt<string> {
    SearchPrompt(["apple", "apricot", "banana"], (s: string) => s, DefaultComparer, DefaultPageSize)
  }

  /** The fruit prompt is what the builder produces. */
  lemma FruitsBuilt()
    ensures AddChoices(NewSearchPrompt((s: string) => s), ["apple", "apricot", "banana"]) == Fruits()
  {
  }

  /** The default comparer keeps the two choices starting with "ap", in
      store order. */
  lemma FruitsPage()
    ensures Page(Fruits(), "ap") == ["apple", "apricot"]
    ensures PageItems(Fruits(), "ap") == ["apple", "apricot"]
  {
    var p := Fruits();
    assert p.choices == ["apple", "apricot", "banana"];
    assert "banana"[0] == 'b';
    assert IsMatch(p, "apple", "ap") && IsMatch(p, "apricot", "ap") && !IsMatch(p, "banana", "ap");
    assert Matches(p, "ap") == ["apple", "apricot"] by {
      var test := MatchTest(p, "ap");
      assert p.choices[1..] == ["apricot", "banana"];
      assert p.choices[1..][1..] == ["banana"];
      assert Matches(p, "ap") == [p.choices[0]] + Enumerable.Where(p.choices[1..], test);
      assert Enumerable.Where(p.choices[1..], test) == [p.choices[1]] + Enumerable.Where(p.choices[1..][1..], test);
      assert Enumerable.Where(p.choices[1..][1..], test) == [] + Enumerable.Where(p.choices[1..][1..][1..], test);
    }
  }

  /** An iteration's outcome is the key's effect on the state with the
      re-render flag cleared. */
  lemma IterationOutcome<T>(policy: RedrawPolicy, p: SearchPrompt<T>, s: LoopState, key: KeyInfo)
    ensures Iteration(policy, p, Letters, s, key).outcome == HandleKey(p, Letters, s.(reRender := false), key).outcome
  {
    assert TopOfLoop(policy, p, Letters, s).0 == s.(reRender := false);
  }

  /** A run that goes on after its first key continues from the next state. */
  lemma RunStep<T>(policy: RedrawPolicy, p: SearchPrompt<T>, s: LoopState, keys: seq<KeyInfo>, next: LoopState)
    requires |keys| > 0 && Iteration(policy, p, Letters, s, keys[0]).outcome == Continue(next)
    ensures var rest := Run(policy, p, Letters, next, keys[1..]).result;
      Run(policy, p, Letters, s, keys).result
      == match rest
         case Chosen(item, query, row, n) => Chosen(item, query, row, n + 1)
         case other => other
  {
  }

  lemma ApricotStep1(policy: RedrawPolicy)
    ensures Iteration(policy, Fruits(), Letters, Initial, Typed('a')).outcome
            == Continue(LoopState("a", 0, false, Some(Typed('a'))))
  {
    assert [] + ['a'] == "a";
    IterationOutcome(policy, Fruits(), Initial, Typed('a'));
    TypingAppends(Fruits(), Letters, Initial, Typed('a'));
  }

  lemma ApricotStep2(policy: RedrawPolicy)
    ensures Iteration(policy, Fruits(), Letters, LoopState("a", 0, false, Some(Typed('a'))), Typed('p')).outcome
            == Continue(LoopState("ap", 0, false, Some(Typed('p'))))
  {
    var s1 := LoopState("a", 0, false, Some(Typed('a')));
    assert "a" + ['p'] == "ap";
    IterationOutcome(policy, Fruits(), s1, Typed('p'));
    TypingAppends(Fruits(), Letters, s1, Typed('p'));
  }

  lemma ApricotStep3(policy: RedrawPolicy)
    ensures Iteration(policy, Fruits(), Letters, LoopState("ap", 0, false, Some(Typed('p'))), DownKey).outcome
            == Continue(LoopState("ap", 1, false, Some(DownKey)))
  {
    var s2 := LoopState("ap", 0, false, Some(Typed('p')));
    FruitsPage();
    IterationOutcome(policy, Fruits(), s2, DownKey);
    DownSaturates(Fruits(), Letters, s2, DownKey);
  }

  lemma ApricotStep4(policy: RedrawPolicy)
    ensures Iteration(policy, Fruits(), Letters, LoopState("ap", 1, false, Some(DownKey)), EnterKey).outcome
            == Selected("apricot")
  {
    var s3 := LoopState("ap", 1, false, Some(DownKey));
    FruitsPage();
    IterationOutcome(policy, Fruits(), s3, EnterKey);
    EnterConfirmsOnlyNonEmptyPage(Fruits(), Letters, s3, EnterKey);
  }

  lemma ApricotRun3(policy: RedrawPolicy)
    ensures Run(policy, Fruits(), Letters, LoopState("ap", 1, false, Some(DownKey)), [EnterKey]).result
            == Chosen("apricot", "ap", 1, 1)
  {
    var s3 := LoopState("ap", 1, false, Some(DownKey));
    ApricotStep4(policy);
    assert TopOfLoop(policy, Fruits(), Letters, s3).0.input == "ap";
  }

  lemma ApricotRun2(policy: RedrawPolicy)
    ensures Run(policy, Fruits(), Letters, LoopState("ap", 0, false, Some(Typed('p'))), [DownKey, EnterKey]).result
            == Chosen("apricot", "ap", 1, 2)
  {
    var keys := [DownKey, EnterKey];
    ApricotStep3(policy);
    ApricotRun3(policy);
    assert keys[1..] == [EnterKey];
    RunStep(policy, Fruits(), LoopState("ap", 0, false, Some(Typed('p'))), keys, LoopState("ap", 1, false, Some(DownKey)));
  }

  lemma ApricotRun1(policy: RedrawPolicy)
    ensures Run(policy, Fruits(), Letters, LoopState("a", 0, false, Some(Typed('a'))), [Typed('p'), DownKey, EnterKey]).result
            == Chosen("apricot", "ap", 1, 3)
  {
    var keys := [Typed('p'), DownKey, EnterKey];
    ApricotStep2(policy);
    ApricotRun2(policy);
    assert keys[1..] == [DownKey, EnterKey];
    RunStep(policy, Fruits(), LoopState("a", 0, false, Some(Typed('a'))), keys, LoopState("ap", 0, false, Some(Typed('p'))));
  }

  /** Typing "ap", pressing Down and then Enter returns "apricot". */
  lemma TypeDownEnterSelectsApricot(policy: RedrawPolicy)
    ensures Show(policy, Fruits(), Letters, [Typed('a'), Typed('p'), DownKey, EnterKey]).result
            == Chosen("apricot", "ap", 1, 4)
  {
    var keys := [Typed('a'), Typed('p'), DownKey, EnterKey];
    ApricotStep1(policy);
    ApricotRun1(policy);
    assert keys[1..] == [Typed('p'), DownKey, EnterKey];
    RunStep(policy, Fruits(), Initial, keys, LoopState("a", 0, false, Some(Typed('a'))));
  }

  /** A query nothing matches refuses Enter; Backspace then brings the
      unfiltered page back. */
  lemma EnterRefusedUntilBackspace(policy: RedrawPolicy)
    ensures var p := AddChoices(NewSearchPrompt((s: string) => s), ["apple"]);
      && Page(p, "z") == []
      && Page(p, "") == ["apple"]
      && Show(policy, p, Letters, [Typed('z'), EnterKey, BackspaceKey]).result
         == Waiting(LoopState("", 0, false, Some(BackspaceKey)))
  {
    var p := AddChoices(NewSearchPrompt((s: string) => s), ["apple"]);
    assert p.choices == ["apple"];
    assert "apple"[0] == 'a';
    assert !IsMatch(p, "apple", "z") && IsMatch(p, "apple", "");
    assert Matches(p, "z") == [] + Enumerable.Where(p.choices[1..], MatchTest(p, "z"));
    assert Matches(p, "") == ["apple"] + Enumerable.Where(p.choices[1..], MatchTest(p, ""));
    var keys := [Typed('z'), EnterKey, BackspaceKey];
    var s1 := LoopState("z", 0, false, Some(Typed('z')));
    var s2 := LoopState("z", 0, false, Some(EnterKey));
    var s3 := LoopState("", 0, true, Some(BackspaceKey));
    assert [] + ['z'] == "z";
    IterationOutcome(policy, p, Initial, Typed('z'));
    TypingAppends(p, Letters, Initial, Typed('z'));
    IterationOutcome(policy, p, s1, EnterKey);
    EnterConfirmsOnlyNonEmptyPage(p, Letters, s1, EnterKey);
    IterationOutcome(policy, p, s2, BackspaceKey);
    BackspaceDeletesLast(p, Letters, s2, BackspaceKey);
    assert "z"[..0] == "";
    assert Run(policy, p, Letters, s3, keys[3..]).result == Waiting(s3.(reRender := false));
    RunStep(policy, p, s2, keys[2..], s3);
    assert keys[2..][1..] == keys[3..];
    RunStep(policy, p, s1, keys[1..], s2);
    assert keys[1..][1..] == keys[2..];
    RunStep(policy, p, Initial, keys, s1);
  }

  /** With no choices at all, no run of keys ends the prompt: every page is
      empty, so Enter is always refused. */
  lemma EmptyStoreNeverConfirms<T>(policy: RedrawPolicy, toString: T -> string, cls: CharClasses, keys: seq<KeyInfo>)
    ensures !Show(policy, NewSearchPrompt(toString), cls, keys).result.Chosen?
  {
  }
}
