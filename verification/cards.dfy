/**
 * Locating and filtering markets. The search page's cards are numbered from
 * 1 in the order the page lists them; a card whose title cannot be read is
 * skipped without giving its number away. The titles the completion service
 * calls relevant are then matched, case-insensitively and ignoring blanks at
 * the ends, against the readable cards.
 */
module Cards {
  import opened Wrappers
  import opened Text

  /** One readable card: its title text and its 1-based position among all
      cards on the page. */
  datatype MarketRef = MarketRef(title: string, index: nat)

  /** The specification of the enumeration: every readable card, numbered by
      its position in `cards` (`None` is a card whose title could not be
      read). */
  function Enumerated(cards: seq<Option<string>>): (refs: seq<MarketRef>)
    ensures |refs| <= |cards|
    ensures forall j :: 0 <= j < |refs| ==>
      1 <= refs[j].index <= |cards| && cards[refs[j].index - 1] == Some(refs[j].title)
    decreases |cards|
  {
    if cards == [] then []
    else
      var n := |cards|;
      var prev := Enumerated(cards[..n - 1]);
      match cards[n - 1]
      case Some(title) => prev + [MarketRef(title, n)]
      case None => prev
  }

  /** Card numbers only grow along the enumeration. */
  lemma {:induction false} EnumeratedIncreasing(cards: seq<Option<string>>)
    ensures forall i, j :: 0 <= i < j < |Enumerated(cards)| ==>
      Enumerated(cards)[i].index < Enumerated(cards)[j].index
    decreases |cards|
  {
    if cards != [] {
      EnumeratedIncreasing(cards[..|cards| - 1]);
    }
  }

  /** Position `k + 1` is recorded exactly when card `k` has a readable title:
      unreadable cards leave gaps and shift nothing. */
  lemma {:induction false} EnumeratedPositions(cards: seq<Option<string>>, k: nat)
    requires k < |cards|
    ensures cards[k].Some? <==>
      exists j :: 0 <= j < |Enumerated(cards)| && Enumerated(cards)[j].index == k + 1
    decreases |cards|
  {
    var n := |cards|;
    var prev := Enumerated(cards[..n - 1]);
    if k < n - 1 {
      EnumeratedPositions(cards[..n - 1], k);
      if cards[k].Some? {
        var j :| 0 <= j < |prev| && prev[j].index == k + 1;
        assert Enumerated(cards)[j] == prev[j];
      }
    } else if cards[k].Some? {
      assert Enumerated(cards)[|prev|].index == k + 1;
    }
  }

  /** The loop at the top of the run that lists the readable cards. */
  method EnumerateCards(cards: seq<Option<string>>) returns (marketTitles: seq<MarketRef>)
    ensures marketTitles == Enumerated(cards)
  {
    marketTitles := [];
    var idx := 1;
    while idx <= |cards|
      invariant 1 <= idx <= |cards| + 1
      invariant marketTitles == Enumerated(cards[..idx - 1])
    {
      assert cards[..idx][..idx - 1] == cards[..idx - 1];
      if cards[idx - 1].Some? {
        marketTitles := marketTitles + [MarketRef(cards[idx - 1].value, idx)];
      }
      // an unreadable title skips the card but still uses up its number
      idx := idx + 1;
    }
    assert cards[..|cards|] == cards;
  }

  /** The comparison key: lower-cased, then stripped. */
  function MatchKey(s: string): string {
    Strip(Lower(s))
  }

  /** Where the first market whose key equals `title`'s sits, or
      `|marketTitles|` when none does. */
  function FirstMatchIndex(title: string, marketTitles: seq<MarketRef>): (j: nat)
    ensures j <= |marketTitles|
    ensures forall i :: 0 <= i < j ==> MatchKey(marketTitles[i].title) != MatchKey(title)
    ensures j < |marketTitles| ==> MatchKey(marketTitles[j].title) == MatchKey(title)
    decreases |marketTitles|
  {
    if marketTitles == [] then 0
    else if MatchKey(title) == MatchKey(marketTitles[0].title) then 0
    else
      var rest := marketTitles[1..];
      var j := FirstMatchIndex(title, rest);
      assert forall i :: 1 <= i <= j ==> marketTitles[i] == rest[i - 1];
      1 + j
  }

  /** The specification of the filter: for each returned title, in the
      order returned, the first market it matches, if any. */
  function Matched(relevantTitles: seq<string>, marketTitles: seq<MarketRef>): seq<MarketRef>
    decreases |relevantTitles|
  {
    if relevantTitles == [] then []
    else
      var n := |relevantTitles|;
      var j := FirstMatchIndex(relevantTitles[n - 1], marketTitles);
      Matched(relevantTitles[..n - 1], marketTitles)
        + (if j < |marketTitles| then [marketTitles[j]] else [])
  }

  /** No returned title matches any market. */
  predicate NoTitleMatches(relevantTitles: seq<string>, marketTitles: seq<MarketRef>) {
    forall t, m :: 0 <= t < |relevantTitles| && 0 <= m < |marketTitles| ==>
      MatchKey(relevantTitles[t]) != MatchKey(marketTitles[m].title)
  }

  /** Each entry of the filter's result is a market that was enumerated, and
      is the first market matching one of the returned titles; so its key
      equals that title's key. */
  lemma {:induction false} MatchedSound(relevantTitles: seq<string>, marketTitles: seq<MarketRef>)
    ensures |Matched(relevantTitles, marketTitles)| <= |relevantTitles|
    ensures forall k :: 0 <= k < |Matched(relevantTitles, marketTitles)| ==>
      exists t :: 0 <= t < |relevantTitles|
        && FirstMatchIndex(relevantTitles[t], marketTitles) < |marketTitles|
        && Matched(relevantTitles, marketTitles)[k]
           == marketTitles[FirstMatchIndex(relevantTitles[t], marketTitles)]
    decreases |relevantTitles|
  {
    if relevantTitles != [] {
      var n := |relevantTitles|;
      var front := relevantTitles[..n - 1];
      MatchedSound(front, marketTitles);
      var out := Matched(relevantTitles, marketTitles);
      var prev := Matched(front, marketTitles);
      forall k | 0 <= k < |out|
        ensures exists t :: 0 <= t < n
                  && FirstMatchIndex(relevantTitles[t], marketTitles) < |marketTitles|
                  && out[k] == marketTitles[FirstMatchIndex(relevantTitles[t], marketTitles)]
      {
        if k < |prev| {
          var t :| 0 <= t < |front|
            && FirstMatchIndex(front[t], marketTitles) < |marketTitles|
            && prev[k] == marketTitles[FirstMatchIndex(front[t], marketTitles)];
          assert front[t] == relevantTitles[t];
          assert out[k] == prev[k];
        } else {
          assert out[k] == marketTitles[FirstMatchIndex(relevantTitles[n - 1], marketTitles)];
        }
      }
    }
  }

  /** The result follows the order of the returned titles: filtering a
      concatenation concatenates the results. */
  lemma {:induction false} MatchedAppend(a: seq<string>, b: seq<string>, marketTitles: seq<MarketRef>)
    ensures Matched(a + b, marketTitles) == Matched(a, marketTitles) + Matched(b, marketTitles)
    decreases |b|
  {
    if b == [] {
      assert a + b == a;
    } else {
      var n := |b|;
      assert (a + b)[..|a + b| - 1] == a + b[..n - 1];
      MatchedAppend(a, b[..n - 1], marketTitles);
    }
  }

  /** The result keeps the order in which the titles were returned, not the
      order of the cards; matching ignores case and blanks at the ends. */
  lemma ReplyOrderKept()
    ensures Matched(["b ", "A"], [MarketRef("A", 1), MarketRef("B", 2)])
            == [MarketRef("B", 2), MarketRef("A", 1)]
  {
    var refs := [MarketRef("A", 1), MarketRef("B", 2)];
    assert MatchKey("b ") == "b" == MatchKey("B");
    assert MatchKey("A") == "a" != MatchKey("B");
    assert ["b ", "A"][..1] == ["b "];
    assert FirstMatchIndex("b ", refs) == 1;
    assert FirstMatchIndex("A", refs) == 0;
  }

  /** The filter comes back empty exactly when no returned title matches any
      market. */
  lemma {:induction false} MatchedEmptyIff(relevantTitles: seq<string>, marketTitles: seq<MarketRef>)
    ensures Matched(relevantTitles, marketTitles) == [] <==> NoTitleMatches(relevantTitles, marketTitles)
    decreases |relevantTitles|
  {
    if relevantTitles != [] {
      var n := |relevantTitles|;
      var front := relevantTitles[..n - 1];
      MatchedEmptyIff(front, marketTitles);
      var j := FirstMatchIndex(relevantTitles[n - 1], marketTitles);
      if j < |marketTitles| {
        assert MatchKey(relevantTitles[n - 1]) == MatchKey(marketTitles[j].title);
      } else if NoTitleMatches(front, marketTitles) {
        forall t, m | 0 <= t < n && 0 <= m < |marketTitles|
          ensures MatchKey(relevantTitles[t]) != MatchKey(marketTitles[m].title)
        {
          if t < n - 1 {
            assert relevantTitles[t] == front[t];
          }
        }
      } else {
        var t, m :| 0 <= t < |front| && 0 <= m < |marketTitles|
          && MatchKey(front[t]) == MatchKey(marketTitles[m].title);
        assert relevantTitles[t] == front[t];
      }
    }
  }

  /** The nested loop that matches each returned title to the first market
      with the same key (the inner loop stops at the first hit). */
  method MatchRelevant(relevantTitles: seq<string>, marketTitles: seq<MarketRef>)
    returns (relevantMarkets: seq<MarketRef>)
    ensures relevantMarkets == Matched(relevantTitles, marketTitles)
  {
    relevantMarkets := [];
    var t := 0;
    while t < |relevantTitles|
      invariant 0 <= t <= |relevantTitles|
      invariant relevantMarkets == Matched(relevantTitles[..t], marketTitles)
    {
      var title := relevantTitles[t];
      assert relevantTitles[..t + 1][..t] == relevantTitles[..t];
      var m := 0;
      while m < |marketTitles|
        invariant 0 <= m <= |marketTitles|
        invariant forall i :: 0 <= i < m ==> MatchKey(marketTitles[i].title) != MatchKey(title)
        invariant relevantMarkets == Matched(relevantTitles[..t], marketTitles)
      {
        if MatchKey(title) == MatchKey(marketTitles[m].title) {
          relevantMarkets := relevantMarkets + [marketTitles[m]];
          break;
        }
        m := m + 1;
      }
      t := t + 1;
    }
    assert relevantTitles[..|relevantTitles|] == relevantTitles;
  }

  /** Card enumeration followed by the filter. `None` is the early end of
      the run when nothing matched; otherwise the markets to visit, in the
      order the completion service named them. */
  method SelectMarkets(cards: seq<Option<string>>, relevantTitles: seq<string>)
    returns (selected: Option<seq<MarketRef>>)
    ensures selected.None? <==> NoTitleMatches(relevantTitles, Enumerated(cards))
    ensures selected.Some? ==>
      selected.value == Matched(relevantTitles, Enumerated(cards)) && selected.value != []
  {
    var marketTitles := EnumerateCards(cards);
    var relevantMarkets := MatchRelevant(relevantTitles, marketTitles);
    MatchedEmptyIff(relevantTitles, marketTitles);
    if relevantMarkets == [] {
      selected := None;
    } else {
      selected := Some(relevantMarkets);
    }
  }
}
