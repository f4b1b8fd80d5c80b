# Prediction-market scraper: the decision logic, modelled in Dafny

The scraper (`app/main.py`) turns a question into a search keyword, lists the
market cards on the search page, keeps the cards whose titles the completion
service calls relevant, and reads each chosen market's outcome table from
its detail page. The browser and the completion service are plain inputs
here. What remains is three pieces of decision logic:

- **Keyword normalisation** (`keyword.dfy`, module `Keyword`). The reply's
  `"keyword"` value is stripped. An empty keyword becomes `None`. Anything
  else is cut to its first whitespace-separated word.
- **Card enumeration and relevance matching** (`cards.dfy`, module `Cards`).
  Cards are numbered from 1 in page order. A card whose title cannot be read
  is skipped, but its number is not given to another card. Each returned
  title is matched to the first card whose title is equal after lower-casing
  and stripping both sides. Titles that match nothing are dropped. An empty
  result ends the run.
- **Outcome extraction** (`outcomes.dfy`, module `Outcomes`). The detail
  page is a map from (slot, field) and from single-layout field to the
  element's raw text. `ElementText` reads it as `get_element_text` does:
  stripped text, or `None` when the element is missing. `ExtractOutcomes`
  is a loop over an explicit state `A(slot) | B | Done`. State A visits
  slots 3 and 4. A slot whose title element is missing, or cannot be
  scrolled to, raises and moves to State B, the single-outcome layout.
  Outcomes already collected in State A are kept.

`text.dfy` (module `Text`) models the Python string operations involved:
`strip()`, `lower()` and `split()`. `wrappers.dfy` holds `Option`.

Each loop of the source is a method proved against a specification
function. `EnumerateCards` is proved against `Enumerated`. `MatchRelevant`
is proved against `Matched`. `ExtractOutcomes` is proved against
`Extracted`. The lemmas state the properties of those functions.

The filter's result follows the order in which the titles were returned,
not the order of the cards: the code (lines 374-378) walks the returned
titles and appends the first card matching each. A title returned twice
lists its market twice. `Cards.ReplyOrderKept` shows a reply that reverses
the card order and comes back reversed.

## Model

| member | source | states |
|---|---|---|
| `Keyword.NormaliseKeyword` | app/main.py:69-71 | `None` exactly when the keyword is all whitespace (an absent field reads as ""). Otherwise the result is non-empty and has no whitespace. It is the longest whitespace-free prefix of the stripped keyword. A keyword that is one word once stripped comes back whole. |
| `Keyword.NormaliseKeywordIdempotent` | app/main.py:69-71 | Normalising a derived keyword again gives the same keyword. |
| `Text.TrimLeftSpec` | app/main.py:69 | Leading-whitespace removal leaves a suffix that is empty or starts with a non-blank. Everything removed is whitespace. |
| `Text.TrimRightSpec` | app/main.py:69 | Trailing-whitespace removal leaves a prefix that is empty or ends with a non-blank. Everything removed is whitespace. |
| `Text.StripSpec` | app/main.py:179 | `strip()` leaves no whitespace at either end. It is empty exactly when the input is all whitespace. |
| `Text.StripRemovesOnlyOuterSpace` | app/main.py:69 | The stripped string is a contiguous piece of the input with only whitespace before and after it. |
| `Text.StripKeepsStripped` | app/main.py:69 | A string with no whitespace at either end is unchanged by `strip()`. |
| `Text.Token` | app/main.py:71 | The longest prefix without whitespace: it has no whitespace, and what follows it is whitespace or the end. |
| `Text.Words` | app/main.py:71 | `split()` gives non-empty, whitespace-free words. It gives none exactly when the string is all whitespace. Otherwise the first word is the longest whitespace-free prefix of what follows the leading whitespace. |
| `Text.FirstWord` | app/main.py:71 | On a string starting with a non-blank, the first word is the longest whitespace-free prefix. |
| `Text.SingleWord` | app/main.py:71 | A non-empty string without whitespace splits into itself alone. |
| `Cards.Enumerated` | app/main.py:352-361 | No more entries than cards. Each entry's index is a 1-based position in the card list, and the card there has that title. |
| `Cards.EnumeratedIncreasing` | app/main.py:353-357 | Recorded indices are strictly increasing. |
| `Cards.EnumeratedPositions` | app/main.py:353-361 | Position `k + 1` is recorded iff card `k` has a readable title. Unreadable cards leave gaps and shift nothing. |
| `Cards.EnumerateCards` | app/main.py:352-361 | The enumeration loop computes exactly `Enumerated(cards)`. |
| `Cards.FirstMatchIndex` | app/main.py:375-378 | The position of the first market whose key `MatchKey` (the title lower-cased by `Text.Lower`, then stripped) equals the returned title's key. No earlier market matches. The result is the list length when none matches. |
| `Cards.MatchedSound` | app/main.py:374-378 | The result has no more entries than there are returned titles. Each entry is the first market matching one of the returned titles. |
| `Cards.MatchedAppend` | app/main.py:374-378 | Filtering concatenated title lists concatenates the results, so the output follows the order of the returned titles. |
| `Cards.ReplyOrderKept` | app/main.py:374-378 | Titles returned as "b ", "A" against cards A (1), B (2) give B then A. Case and outer blanks are ignored. |
| `Cards.MatchedEmptyIff` | app/main.py:374-383 | The filter is empty exactly when no returned title matches any market. |
| `Cards.MatchRelevant` | app/main.py:368-378 | The nested matching loop with its `break` computes exactly `Matched`. |
| `Cards.SelectMarkets` | app/main.py:352-383 | The run ends early (`None`) exactly when no returned title matches a readable card. Otherwise the markets to visit are `Matched` over the enumeration, and there is at least one. |
| `Outcomes.ElementText` | app/main.py:173-182 | `None` exactly when the element is missing. Otherwise the text is the element's own text stripped; it has no whitespace at either end, and is empty exactly when the raw text is all whitespace. |
| `Outcomes.FirstFailureFrom` | app/main.py:210-231 | The first slot from the given one whose title element cannot be located or scrolled to, or 5 when there is none. Every slot before it is locatable. |
| `Outcomes.ExtractOutcomes` | app/main.py:201-287 | The state-machine loop returns exactly `Extracted(page)`: at most two outcomes, each with a non-empty title. |
| `Outcomes.CollectedLength` | app/main.py:210-248 | State A adds at most one outcome per slot visited. |
| `Outcomes.ExtractedAtMostTwo` | app/main.py:204-283 | The outcome list never has more than two entries. |
| `Outcomes.CollectedFromSlots` | app/main.py:210-248 | Every outcome State A collects is the outcome of one of the slots it visited. |
| `Outcomes.ExtractedTitlesNonEmpty` | app/main.py:240-280 | Every returned outcome has a non-empty title. |
| `Outcomes.NoFallbackWhenBothLocatable` | app/main.py:210-256 | With both slots' title elements present, the single-outcome layout is never read. The result is slot 3's outcome followed by slot 4's. |
| `Outcomes.FallbackFromFirstSlot` | app/main.py:225-256 | With slot 3's title element missing, the result is exactly the single-outcome layout's outcome, if any. |
| `Outcomes.FallbackKeepsEarlierOutcomes` | app/main.py:204-280 | With slot 3 present and slot 4's title missing, slot 3's outcome is kept and the single-outcome result follows it. |
| `Outcomes.SlotOutcomeSpec` | app/main.py:233-248 | A slot yields one outcome iff its title element has non-blank text. The outcome's five fields are exactly that slot's texts. |
| `Outcomes.SingleOutcomeSpec` | app/main.py:265-280 | The single-outcome layout yields one outcome iff the page title and the percentage both have non-blank text. Its volume is "N/A", its title is the page title, and its other fields are the layout's texts. |
| `Outcomes.NoTitlesNoOutcomes` | app/main.py:204-287 | A page with no locatable title in either layout (slot 3's title missing or not scrollable, no page title) gives an empty list, whatever slot 4 holds. |

## Left out

- The completion-service calls (`transform_query_to_keywords`, `analyze_market_relevance`, `analyze_final`) are foreign network calls. So are their prompts and the JSON parsing of their replies. The model takes the parsed `"keyword"` value and the parsed list of titles as inputs. A reply that does not parse, a keyword that is not a string, and a reply that is not a list (read as an empty list, line 371) are the caller's concern. A list holding a non-string entry makes `title.lower()` raise and ends the run through the handler at line 451; that is not modelled.
- The browser driver is replaced by the page map: waits, `find_element(s)`, scrolling, clicks, `back`, `get` and `sleep`. The 15-second wait in `get_element_text` becomes "the element is in the map". The page does not change while it is read. A title element found by `find_element` is therefore still there for `get_element_text`.
- The CSS selector strings are replaced by (slot, field) keys and single-layout field names.
- `extract_market_details` (lines 184-199) makes three independent reads with no logic, and is not modelled.
- `click_market_card`, the per-market loop with its reload-on-error recovery (lines 389-417), the final analysis, the environment-variable check, writing `market_analysis.json`, and all printing are browser and file side effects. They are not modelled.
- The handler at lines 285-287 cannot be reached in the model. `get_element_text` catches every error itself, and building an outcome cannot fail.
- The single-outcome layout's outcome-type text (line 268) is read and never used. The model reads it too and drops it.
- Python's full Unicode `str.strip()`, `str.lower()` and `str.split()` are not modelled. Whitespace is the ASCII set `isspace()` accepts: blank, \t, \n, \v, \f, \r and \x1c to \x1f. Lower-casing maps A-Z only.
