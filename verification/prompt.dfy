/** The configuration of a search prompt (its choices, converter, comparer
    and page size) and the page of choices the prompt shows for a query. */
module Prompt {
  import opened Enumerable

  /** Which matching test the prompt uses. The default one is not a stored
      function: it reads the prompt's converter each time it runs, so
      replacing the converter later also changes what the default matches. */
  datatype Comparer<!T> =
    | DefaultComparer
    | CustomComparer(test: (T, string) -> bool)

  datatype SearchPrompt<!T> = SearchPrompt(
    choices: seq<T>,
    converter: T -> string,
    comparer: Comparer<T>,
    pageSize: int)

  const DefaultPageSize: int := 10

  /** Ordinal prefix test on strings. */
  predicate StartsWith(s: string, prefix: string) {
    prefix <= s
  }

  /** The comparer, given the converter it reads, as a test on choices for
      the query `input`. */
  function Test<T>(converter: T -> string, comparer: Comparer<T>, input: string): T -> bool {
    choice =>
      match comparer
      case DefaultComparer => StartsWith(converter(choice), input)
      case CustomComparer(test) => test(choice, input)
  }

  /** The default comparer is the prefix test on what the converter makes
      of the choice, and a custom comparer is asked directly. */
  lemma TestFollowsComparer<T>(converter: T -> string, comparer: Comparer<T>, input: string, x: T)
    ensures comparer == DefaultComparer ==> (Test(converter, comparer, input)(x) <==> StartsWith(converter(x), input))
    ensures comparer.CustomComparer? ==> Test(converter, comparer, input)(x) == comparer.test(x, input)
  {
  }

  /** The prompt's own comparer as a test on choices, for filtering. */
  function MatchTest<T>(p: SearchPrompt<T>, input: string): T -> bool {
    Test(p.converter, p.comparer, input)
  }

  /** Whether `choice` matches the query `input` under the prompt's comparer. */
  predicate IsMatch<T>(p: SearchPrompt<T>, choice: T, input: string) {
    MatchTest(p, input)(choice)
  }

  /** A fresh prompt. `toString` stands for the item type's own string
      conversion, which is the default converter. */
  function NewSearchPrompt<T>(toString: T -> string): (p: SearchPrompt<T>)
    ensures p.choices == [] && p.pageSize == DefaultPageSize
  {
    SearchPrompt([], toString, DefaultComparer, DefaultPageSize)
  }

  /** A fresh prompt matches a choice when the choice's string form starts
      with the query, and it starts with no choices, so every page is empty. */
  lemma NewPromptMatchesByPrefix<T>(toString: T -> string, x: T, q: string)
    ensures IsMatch(NewSearchPrompt(toString), x, q) <==> StartsWith(toString(x), q)
    ensures Page(NewSearchPrompt(toString), q) == []
  {
  }

  /** Appends one choice. The new choice becomes the last candidate for every
      query it matches, and the earlier matches keep their order. */
  function AddChoice<T>(p: SearchPrompt<T>, item: T): (r: SearchPrompt<T>)
    ensures r.converter == p.converter && r.comparer == p.comparer && r.pageSize == p.pageSize
    ensures r.choices == p.choices + [item]
    ensures forall q :: Matches(r, q) == Matches(p, q) + (if IsMatch(p, item, q) then [item] else [])
  {
    var r := p.(choices := p.choices + [item]);
    assert forall q :: Matches(r, q) == Matches(p, q) + (if IsMatch(p, item, q) then [item] else []) by {
      forall q ensures Matches(r, q) == Matches(p, q) + (if IsMatch(p, item, q) then [item] else []) {
        WhereAppend(p.choices, [item], MatchTest(p, q));
        assert Where([item], MatchTest(p, q))
            == (if IsMatch(p, item, q) then [item] else []) + Where([item][1..], MatchTest(p, q));
      }
    }
    r
  }

  /** All choices matching `input`, in store order. */
  function Matches<T>(p: SearchPrompt<T>, input: string): seq<T> {
    Where(p.choices, MatchTest(p, input))
  }

  /** The items on the page: the first `pageSize` matches. */
  function PageItems<T>(p: SearchPrompt<T>, input: string): (r: seq<T>)
    ensures p.pageSize <= 0 ==> r == []
    ensures p.pageSize >= 0 ==> |r| <= p.pageSize
    ensures |r| <= |Matches(p, input)|
  {
    Take(Matches(p, input), p.pageSize)
  }

  /** Every page item matches the query. */
  lemma PageItemsMatch<T>(p: SearchPrompt<T>, input: string)
    ensures forall i :: 0 <= i < |PageItems(p, input)| ==> IsMatch(p, PageItems(p, input)[i], input)
  {
  }

  /** The rows the prompt displays: the converted matches, cut to the page
      size after conversion. */
  function Page<T>(p: SearchPrompt<T>, input: string): (r: seq<string>)
    ensures |r| == |PageItems(p, input)|
  {
    TakeSelect(Matches(p, input), p.converter, p.pageSize);
    Take(Select(Matches(p, input), p.converter), p.pageSize)
  }

  /** Row `i` of the display is the display string of page item `i`: cutting
      after conversion picks the same choices as cutting before it. */
  lemma PageShowsItems<T>(p: SearchPrompt<T>, input: string)
    ensures |Page(p, input)| == |PageItems(p, input)|
    ensures forall i :: 0 <= i < |Page(p, input)| ==> Page(p, input)[i] == p.converter(PageItems(p, input)[i])
  {
  }

  /** A matching choice is on the page exactly when fewer than `pageSize`
      matching choices come before it, and then it sits at that position. */
  lemma PageHoldsFirstMatches<T>(p: SearchPrompt<T>, input: string, i: nat)
    requires i < |p.choices| && IsMatch(p, p.choices[i], input)
    ensures var k := Rank(p.choices, MatchTest(p, input), i);
      && (k < |PageItems(p, input)| <==> k < p.pageSize)
      && (k < |PageItems(p, input)| ==>
            PageItems(p, input)[k] == p.choices[i]
            && Page(p, input)[k] == p.converter(p.choices[i]))
  {
    assert MatchTest(p, input)(p.choices[i]);
    WhereRank(p.choices, MatchTest(p, input), i);
  }

  /** Every page item is a matching choice, and its position on the page is
      the number of matching choices that precede it in the store. */
  lemma PageItemsComeFromChoices<T>(p: SearchPrompt<T>, input: string, j: nat)
    requires j < |PageItems(p, input)|
    ensures exists i :: 0 <= i < |p.choices| && IsMatch(p, p.choices[i], input)
                        && Rank(p.choices, MatchTest(p, input), i) == j
                        && PageItems(p, input)[j] == p.choices[i]
  {
    WhereSource(p.choices, MatchTest(p, input), j);
    var i :| 0 <= i < |p.choices| && MatchTest(p, input)(p.choices[i])
             && Rank(p.choices, MatchTest(p, input), i) == j
             && Matches(p, input)[j] == p.choices[i];
    assert IsMatch(p, p.choices[i], input);
  }

  /** With the default comparer, extending the query only narrows the
      matches: the matches of the longer query are the matches of the shorter
      one filtered again, and neither the matches nor the page grow. */
  lemma DefaultComparerMonotone<T>(p: SearchPrompt<T>, q1: string, q2: string)
    requires p.comparer == DefaultComparer && StartsWith(q2, q1)
    ensures Matches(p, q2) == Where(Matches(p, q1), MatchTest(p, q2))
    ensures |Matches(p, q2)| <= |Matches(p, q1)|
    ensures |Page(p, q2)| <= |Page(p, q1)|
  {
    forall i | 0 <= i < |p.choices| && MatchTest(p, q2)(p.choices[i])
      ensures MatchTest(p, q1)(p.choices[i])
    {
      var s := p.converter(p.choices[i]);
      assert q2 <= s;
      assert q1 == q2[..|q1|] == s[..|q1|];
    }
    WhereNarrow(p.choices, MatchTest(p, q1), MatchTest(p, q2));
  }
}
