/** The fluent configuration methods of the search prompt. Each returns the
    prompt it was given, updated; here that is a new record. */
module PromptExtensions {
  import opened Wrappers
  import opened Enumerable
  import opened Prompt

  /** The argument error a rejected configuration value raises. */
  datatype ConfigError = ArgumentError(paramName: string)

  /** Adds the given choices one at a time, in enumeration order. */
  function AddChoices<T>(p: SearchPrompt<T>, items: seq<T>): (r: SearchPrompt<T>)
    ensures r.choices == p.choices + items
    ensures r.converter == p.converter && r.comparer == p.comparer && r.pageSize == p.pageSize
    decreases |items|
  {
    if |items| == 0 then p
    else
      var r := AddChoices(AddChoice(p, items[0]), items[1..]);
      assert p.choices + items == p.choices + [items[0]] + items[1..];
      r
  }

  /** Adding choices never disturbs the matches already present: the matches
      of the result are the old matches followed by the matches among the
      added choices, in the order they were added. */
  lemma {:induction false} AddChoicesAppendsMatches<T>(p: SearchPrompt<T>, items: seq<T>, q: string)
    ensures Matches(AddChoices(p, items), q) == Matches(p, q) + Where(items, MatchTest(p, q))
    decreases |items|
  {
    if |items| > 0 {
      var p1 := AddChoice(p, items[0]);
      AddChoicesAppendsMatches(p1, items[1..], q);
      assert MatchTest(p1, q) == MatchTest(p, q);
      assert Where(items, MatchTest(p, q))
          == (if IsMatch(p, items[0], q) then [items[0]] else []) + Where(items[1..], MatchTest(p, q));
    }
  }

  /** Replaces the converter and nothing else. */
  function UseConverter<T>(p: SearchPrompt<T>, displaySelector: T -> string): (r: SearchPrompt<T>)
    ensures r.converter == displaySelector
    ensures r.choices == p.choices && r.comparer == p.comparer && r.pageSize == p.pageSize
  {
    p.(converter := displaySelector)
  }

  /** Because the default comparer reads the converter when it runs, after
      `UseConverter` it matches on the NEW converter's output, while a custom
      comparer is unaffected. */
  lemma UseConverterRetargetsDefaultComparer<T>(p: SearchPrompt<T>, displaySelector: T -> string, x: T, q: string)
    ensures p.comparer == DefaultComparer ==>
              (IsMatch(UseConverter(p, displaySelector), x, q) <==> StartsWith(displaySelector(x), q))
    ensures p.comparer.CustomComparer? ==>
              IsMatch(UseConverter(p, displaySelector), x, q) == IsMatch(p, x, q)
  {
  }

  /** Replaces the comparer and nothing else. */
  function UseComparer<T>(p: SearchPrompt<T>, comparer: (T, string) -> bool): (r: SearchPrompt<T>)
    ensures r.choices == p.choices && r.converter == p.converter && r.pageSize == p.pageSize
    ensures r.comparer == CustomComparer(comparer)
  {
    p.(comparer := CustomComparer(comparer))
  }

  /** After `UseComparer`, matching is decided by the given function alone,
      whatever converter is installed afterwards. */
  lemma UseComparerDecidesMatching<T>(p: SearchPrompt<T>, comparer: (T, string) -> bool,
                                      displaySelector: T -> string, x: T, q: string)
    ensures IsMatch(UseComparer(p, comparer), x, q) == comparer(x, q)
    ensures IsMatch(UseConverter(UseComparer(p, comparer), displaySelector), x, q) == comparer(x, q)
  {
  }

  /** Sets the page size; a size of zero or less is rejected with an
      argument error and the prompt is left as it was. */
  function WithPageSize<T>(p: SearchPrompt<T>, pageSize: int): (r: Result<SearchPrompt<T>, ConfigError>)
    ensures r.Failure? <==> pageSize <= 0
    ensures r.Failure? ==> r.error == ArgumentError("pageSize")
    ensures r.Success? ==> r.value.pageSize == pageSize
    ensures r.Success? ==> r.value.choices == p.choices && r.value.converter == p.converter
                           && r.value.comparer == p.comparer
  {
    if pageSize <= 0 then Failure(ArgumentError("pageSize"))
    else Success(p.(pageSize := pageSize))
  }

  /** An accepted page size bounds every page the prompt can show, and a
      page holds fewer rows than that exactly when fewer choices match. */
  lemma WithPageSizeBoundsPage<T>(p: SearchPrompt<T>, pageSize: int, q: string)
    requires WithPageSize(p, pageSize).Success?
    ensures var p' := WithPageSize(p, pageSize).value;
      && |Page(p', q)| <= pageSize
      && (|Page(p', q)| < pageSize <==> |Matches(p', q)| < pageSize)
  {
  }
}
