/**
 * Reading the outcome table of a market's detail page. The page is given as
 * the text of each element the scraper may look for; an element that is not
 * on the page has no entry. Two layouts are tried in turn:
 *
 *   State A, the multi-outcome layout: outcome slots 3 and 4 are visited in
 *   order. A slot whose title element cannot be located (or scrolled to)
 *   raises, which abandons the remaining slots and moves to State B. A slot
 *   whose title text is empty yields nothing and the walk goes on.
 *
 *   State B, the single-outcome layout: one outcome, built from the
 *   page-level title and the single-layout fields, when both the title and
 *   the percentage have text.
 *
 * Outcomes collected in State A are kept when State B runs.
 */
module Outcomes {
  import opened Wrappers
  import opened Text

  /** The first outcome slot of the multi-outcome layout (the page's first
      two slots hold the header and the summary). */
  const FirstSlot: int := 3
  /** One past the last slot visited. */
  const EndSlot: int := 5

  /** What one slot of the multi-outcome layout shows. */
  datatype Field = Title | Volume | Percentage | BuyYes | BuyNo

  /** What the single-outcome layout shows. `OutcomeType` is read but never
      used. */
  datatype SingleField = MarketTitle | SinglePercentage | OutcomeType | SingleBuyYes | SingleBuyNo

  /** The detail page: the raw text of each element present in the
      multi-outcome layout, keyed by slot and field; the raw text of each
      element present in the single-outcome layout; and the slots whose title
      element is present but cannot be scrolled into view. */
  datatype Page = Page(
    multi: map<(int, Field), string>,
    single: map<SingleField, string>,
    unscrollable: set<int>)

  /** One row of the outcome table. Every field but the title may be absent
      (`null` in the written report). */
  datatype Outcome = Outcome(
    title: string,
    volume: Option<string>,
    percentage: Option<string>,
    buyYesPrice: Option<string>,
    buyNoPrice: Option<string>)

  /** Reading an element's text: the stripped text when the element is on
      the page, `None` when it is not. */
  function ElementText<K>(elements: map<K, string>, key: K): (r: Option<string>)
    ensures r.None? <==> key !in elements
    ensures r.Some? ==> r.value == Strip(elements[key])
    ensures r.Some? ==> IsStripped(r.value) && (r.value == [] <==> AllSpace(elements[key]))
  {
    if key in elements then
      StripSpec(elements[key]);
      Some(Strip(elements[key]))
    else None
  }

  /** Python truthiness of a text read: present and non-empty. */
  predicate HasText(text: Option<string>) {
    text.Some? && text.value != []
  }

  /** Locating and scrolling to the slot's title element succeeds. */
  predicate TitleLocatable(page: Page, slot: int) {
    (slot, Title) in page.multi && slot !in page.unscrollable
  }

  /** What a slot that did not raise contributes: one outcome made of the
      slot's five texts when its title has text, nothing otherwise. */
  function SlotOutcome(page: Page, slot: int): seq<Outcome> {
    var title := ElementText(page.multi, (slot, Title));
    if HasText(title) then
      [Outcome(title.value,
               ElementText(page.multi, (slot, Volume)),
               ElementText(page.multi, (slot, Percentage)),
               ElementText(page.multi, (slot, BuyYes)),
               ElementText(page.multi, (slot, BuyNo)))]
    else []
  }

  /** What State B contributes. */
  function SingleOutcome(page: Page): seq<Outcome> {
    var title := ElementText(page.single, MarketTitle);
    var percentage := ElementText(page.single, SinglePercentage);
    if HasText(title) && HasText(percentage) then
      [Outcome(title.value, Some("N/A"), percentage,
               ElementText(page.single, SingleBuyYes),
               ElementText(page.single, SingleBuyNo))]
    else []
  }

  /** The first slot from `slot` on whose title cannot be located, or
      `EndSlot` when there is none. */
  function FirstFailureFrom(page: Page, slot: int): (f: int)
    requires FirstSlot <= slot <= EndSlot
    ensures slot <= f <= EndSlot
    ensures forall k :: slot <= k < f ==> TitleLocatable(page, k)
    ensures f < EndSlot ==> !TitleLocatable(page, f)
    decreases EndSlot - slot
  {
    if slot == EndSlot then EndSlot
    else if !TitleLocatable(page, slot) then slot
    else FirstFailureFrom(page, slot + 1)
  }

  /** The slot at which State A gives up, or `EndSlot` when it never does. */
  function FirstFailure(page: Page): int {
    FirstFailureFrom(page, FirstSlot)
  }

  /** The outcomes State A collects from the slots before `slot`. */
  function Collected(page: Page, slot: int): seq<Outcome>
    requires FirstSlot <= slot <= EndSlot
    decreases slot - FirstSlot
  {
    if slot == FirstSlot then [] else Collected(page, slot - 1) + SlotOutcome(page, slot - 1)
  }

  /** The specification of the extraction: State A's outcomes up to the
      first slot that raised, followed by State B's when one did. */
  function Extracted(page: Page): seq<Outcome> {
    var f := FirstFailure(page);
    Collected(page, f) + (if f < EndSlot then SingleOutcome(page) else [])
  }

  /** The state of the extraction: visiting a slot of the multi-outcome
      layout, reading the single-outcome layout, or finished. */
  datatype State = A(slot: int) | B | Done

  function Rank(state: State): nat {
    match state
    case A(slot) => if slot < EndSlot then EndSlot - slot + 1 else 1
    case B => 1
    case Done => 0
  }

  /** The extraction as the scraper runs it: a walk over the states in which
      a raised lookup in State A is the move to State B. */
  method ExtractOutcomes(page: Page) returns (outcomes: seq<Outcome>)
    ensures outcomes == Extracted(page)
    ensures |outcomes| <= 2
    ensures forall i :: 0 <= i < |outcomes| ==> outcomes[i].title != []
  {
    outcomes := [];
    var state := A(FirstSlot);
    while !state.Done?
      invariant state.A? ==>
        FirstSlot <= state.slot < EndSlot
        && (forall k :: FirstSlot <= k < state.slot ==> TitleLocatable(page, k))
        && outcomes == Collected(page, state.slot)
      invariant state.B? ==>
        FirstFailure(page) < EndSlot && outcomes == Collected(page, FirstFailure(page))
      invariant state.Done? ==> outcomes == Extracted(page)
      decreases Rank(state)
    {
      match state
      case A(slot) =>
        if !TitleLocatable(page, slot) {
          // the title element is missing or cannot be scrolled to: raise
          state := B;
        } else {
          var title := ElementText(page.multi, (slot, Title));
          var volume := ElementText(page.multi, (slot, Volume));
          var percentage := ElementText(page.multi, (slot, Percentage));
          var buyYes := ElementText(page.multi, (slot, BuyYes));
          var buyNo := ElementText(page.multi, (slot, BuyNo));
          if HasText(title) {
            outcomes := outcomes + [Outcome(title.value, volume, percentage, buyYes, buyNo)];
          }
          state := if slot + 1 < EndSlot then A(slot + 1) else Done;
        }
      case B =>
        var title := ElementText(page.single, MarketTitle);
        var percentage := ElementText(page.single, SinglePercentage);
        var outcomeType := ElementText(page.single, OutcomeType);
        var buyYes := ElementText(page.single, SingleBuyYes);
        var buyNo := ElementText(page.single, SingleBuyNo);
        if HasText(title) && HasText(percentage) {
          outcomes := outcomes + [Outcome(title.value, Some("N/A"), percentage, buyYes, buyNo)];
        }
        state := Done;
    }
    ExtractedAtMostTwo(page);
    ExtractedTitlesNonEmpty(page);
  }

  /** State A contributes at most one outcome per slot visited. */
  lemma {:induction false} CollectedLength(page: Page, slot: int)
    requires FirstSlot <= slot <= EndSlot
    ensures |Collected(page, slot)| <= slot - FirstSlot
    decreases slot - FirstSlot
  {
    if slot > FirstSlot {
      CollectedLength(page, slot - 1);
    }
  }

  /** At most two outcomes come back. */
  lemma ExtractedAtMostTwo(page: Page)
    ensures |Extracted(page)| <= 2
  {
    CollectedLength(page, FirstFailure(page));
  }

  /** Every outcome State A collects before `slot` is the outcome of one of
      those slots. */
  lemma {:induction false} CollectedFromSlots(page: Page, slot: int)
    requires FirstSlot <= slot <= EndSlot
    ensures forall i :: 0 <= i < |Collected(page, slot)| ==>
      exists k :: FirstSlot <= k < slot && SlotOutcome(page, k) == [Collected(page, slot)[i]]
    decreases slot - FirstSlot
  {
    if slot > FirstSlot {
      CollectedFromSlots(page, slot - 1);
      var prev := Collected(page, slot - 1);
      var all := Collected(page, slot);
      forall i | 0 <= i < |Collected(page, slot)|
        ensures exists k :: FirstSlot <= k < slot && SlotOutcome(page, k) == [Collected(page, slot)[i]]
      {
        if i < |prev| {
          var k :| FirstSlot <= k < slot - 1 && SlotOutcome(page, k) == [prev[i]];
          assert all[i] == prev[i];
        } else {
          assert SlotOutcome(page, slot - 1) == [all[i]];
          assert FirstSlot <= slot - 1 < slot;
        }
      }
    } else {
      assert Collected(page, slot) == [];
    }
  }

  /** Every outcome has a non-empty title: a slot's own title text, or the
      page-level title. */
  lemma ExtractedTitlesNonEmpty(page: Page)
    ensures forall i :: 0 <= i < |Extracted(page)| ==> Extracted(page)[i].title != []
  {
    var f := FirstFailure(page);
    CollectedFromSlots(page, f);
    var a := Collected(page, f);
    forall i | 0 <= i < |Extracted(page)| ensures Extracted(page)[i].title != [] {
      if i < |a| {
        var k :| FirstSlot <= k < f && SlotOutcome(page, k) == [a[i]];
        assert Extracted(page)[i] == a[i];
      }
    }
  }

  /** Both slots' title elements present: the single-outcome layout is never
      read, and each slot yields its own outcome. */
  lemma NoFallbackWhenBothLocatable(page: Page)
    requires TitleLocatable(page, 3) && TitleLocatable(page, 4)
    ensures Extracted(page) == SlotOutcome(page, 3) + SlotOutcome(page, 4)
  {
  }

  /** Slot 3's title element missing: State A is abandoned before collecting
      anything, and only the single-outcome layout counts. */
  lemma FallbackFromFirstSlot(page: Page)
    requires !TitleLocatable(page, 3)
    ensures Extracted(page) == SingleOutcome(page)
  {
  }

  /** Slot 4's title element missing: slot 3's outcome is kept and State B's
      outcome follows it. */
  lemma FallbackKeepsEarlierOutcomes(page: Page)
    requires TitleLocatable(page, 3) && !TitleLocatable(page, 4)
    ensures Extracted(page) == SlotOutcome(page, 3) + SingleOutcome(page)
  {
  }

  /** A slot yields an outcome exactly when its title has text, and that
      outcome is made of the slot's own five texts. */
  lemma SlotOutcomeSpec(page: Page, slot: int)
    ensures |SlotOutcome(page, slot)| <= 1
    ensures |SlotOutcome(page, slot)| == 1 <==>
      (slot, Title) in page.multi && !AllSpace(page.multi[(slot, Title)])
    ensures |SlotOutcome(page, slot)| == 1 ==>
      var o := SlotOutcome(page, slot)[0];
      Some(o.title) == ElementText(page.multi, (slot, Title))
      && o.volume == ElementText(page.multi, (slot, Volume))
      && o.percentage == ElementText(page.multi, (slot, Percentage))
      && o.buyYesPrice == ElementText(page.multi, (slot, BuyYes))
      && o.buyNoPrice == ElementText(page.multi, (slot, BuyNo))
  {
  }

  /** State B yields an outcome exactly when both the page title and the
      percentage have text; its volume is "N/A" and its title is the page
      title. */
  lemma SingleOutcomeSpec(page: Page)
    ensures |SingleOutcome(page)| <= 1
    ensures |SingleOutcome(page)| == 1 <==>
      MarketTitle in page.single && !AllSpace(page.single[MarketTitle])
      && SinglePercentage in page.single && !AllSpace(page.single[SinglePercentage])
    ensures |SingleOutcome(page)| == 1 ==>
      var o := SingleOutcome(page)[0];
      o.volume == Some("N/A")
      && Some(o.title) == ElementText(page.single, MarketTitle)
      && o.percentage == ElementText(page.single, SinglePercentage)
      && o.buyYesPrice == ElementText(page.single, SingleBuyYes)
      && o.buyNoPrice == ElementText(page.single, SingleBuyNo)
  {
  }

  /** A page with no locatable title in either layout (slot 3's title
      missing or not scrollable, and no page title) gives no outcomes, and
      no error, whatever slot 4 holds. */
  lemma NoTitlesNoOutcomes(page: Page)
    requires !TitleLocatable(page, 3)
    requires MarketTitle !in page.single
    ensures Extracted(page) == []
  {
  }
}
