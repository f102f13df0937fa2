# Global search of the CRM: a Dafny model

This project models the global search box of a small CRM web application
(`src/components/GlobalSearch.tsx`). The box takes a free-text query. It looks it up in
the store's deals and contacts and returns at most five of each.

- **Matcher**: the `searchResults` computation. A query shorter than two UTF-16 code units
  gives no results. Otherwise the query is lower-cased once. A contact matches on its full name,
  its email or its raw phone number. A deal matches on its title, or because one of its
  contact ids belongs to a matching contact. This second rule is the cross-reference join.
  The deals are de-duplicated by id. Both lists are cut to five.
- **Session**: the component's state. It holds the query, the input focus and the two
  "create" modal flags. Its click, focus, typing and outside-mousedown handlers change that
  state. The panel it renders is derived from it: hidden, result lists, or "no results"
  with create buttons.

Files:

- `text.dfy` (module `Text`): ASCII lower-casing and `String.prototype.includes`.
- `entities.dfy` (modules `Wrappers`, `Entities`): contacts, deals, and id sets.
- `matcher.dfy` (module `Matcher`): the search function and its properties.
- `session.dfy` (module `SearchSession`): the panel function and the `GlobalSearch` class.

The matcher is written as functions over sequences, because the source builds it only from
`filter`, `some`, `Set`, `Map` and `slice`. The session is a class whose methods update the
component's fields. The two calls that leave the component are appended to an `effects`
field instead of being performed: the router's `navigate` and the store's
`showContactDetail`.

De-duplication goes through `new Map(deals.map(d => [d.id, d])).values()`. The model keeps
JavaScript `Map` semantics. An id keeps the position of its FIRST deal, but holds the value
of its LAST deal, because `Map.set` overwrites the value and leaves the key where it is
(`UniqueByIdLastWins`, `ScenarioDuplicateIds`). Described more loosely, de-duplication
"keeps the first occurrence". That holds for positions only. The model follows the code.
The source's comment says a deal could otherwise appear twice, once by title and once by
contact. But the filter tests each deal once, so duplicates can only come from repeated ids
in the store. When store ids are distinct, de-duplication is the identity
(`UniqueByIdOfDistinct`).

`query.length` counts UTF-16 code units, but a Dafny string is a sequence of Unicode
characters. So the two-character gate and `showResults` use `Utf16Length`, which counts a
character above U+FFFF as two. A single emoji therefore passes the gate, as it does in the
browser (`ScenarioAstralQuery`).

Email and phone are tested only when they are truthy in JavaScript, that is, present and
not empty (`Truthy`). The phone is compared unchanged against the already lower-cased
query.

## Model

| member | source | states |
|---|---|---|
| Text.LowerSpec | src/components/GlobalSearch.tsx:21 | lower-casing keeps the length, turns each capital into its own small letter, leaves no capital and changes no other character |
| Text.Utf16Length | src/components/GlobalSearch.tsx:19 | `length` counts between one and two code units per character |
| Text.LowerUtf16Length | src/components/GlobalSearch.tsx:21 | lower-casing keeps the JavaScript length of a string |
| Text.LowerIdempotent | src/components/GlobalSearch.tsx:21 | lower-casing an already lower-cased string changes nothing |
| Entities.ContactIds | src/components/GlobalSearch.tsx:31 | the id set holds exactly the ids of the given contacts |
| Matcher.MatchingContacts | src/components/GlobalSearch.tsx:24-28 | a contact is in the filtered list iff it is in the store and its lower-cased full name, truthy lower-cased email or truthy raw phone contains the lower-cased query; the list is no longer than the store |
| Matcher.MatchingContactsAppend | src/components/GlobalSearch.tsx:24-28 | the contact filter distributes over concatenation, so matches keep store order |
| Matcher.MatchingDeals | src/components/GlobalSearch.tsx:34-37 | a deal is in the filtered list iff it is in the store and its lower-cased title contains the query or one of its contact ids is in the id set; distinct store ids stay distinct |
| Matcher.MatchingDealsAppend | src/components/GlobalSearch.tsx:34-37 | the deal filter distributes over concatenation, so matches keep store order |
| Matcher.JoinCorrect | src/components/GlobalSearch.tsx:31-37 | a deal passes iff its title matches or one of its contact ids is the id of a matching contact of the whole, uncapped collection; dangling ids never match |
| Matcher.IndexOfId | src/components/GlobalSearch.tsx:40 | Map key lookup: the position of the first entry with that id, or -1 when no entry has it |
| Matcher.MapSet | src/components/GlobalSearch.tsx:40 | Map.set adds the deal, adds exactly its id, introduces no other value, keeps every entry with another id, keeps ids distinct, and leaves the new deal as the only entry with its id |
| Matcher.UniqueById | src/components/GlobalSearch.tsx:40 | the Map's values have pairwise distinct ids, the same id set as the input, and only input deals |
| Matcher.UniqueByIdOfDistinct | src/components/GlobalSearch.tsx:40 | with distinct input ids de-duplication returns its input unchanged |
| Matcher.UniqueByIdLastWins | src/components/GlobalSearch.tsx:40 | a deal that no later deal shares an id with survives, and it is the only survivor with its id |
| Matcher.MapSetKeepsOrder | src/components/GlobalSearch.tsx:40 | one Map.set step keeps entries in first-occurrence order of their ids |
| Matcher.UniqueByIdFirstOccurrenceOrder | src/components/GlobalSearch.tsx:40 | surviving entries are ordered by the first position of their id in the input |
| Matcher.ScenarioDuplicateIds | src/components/GlobalSearch.tsx:40 | deals [a "First", b, a "Second"] collapse to [a "Second", b] |
| Matcher.Take | src/components/GlobalSearch.tsx:43-44 | slice(0, n) yields a prefix of length at most n, and the whole list when the list is shorter |
| Matcher.Search | src/components/GlobalSearch.tsx:18-46 | a query under 2 UTF-16 code units gives empty lists; otherwise at most 5 of each, every contact from the store and matching, every deal from the store and matching by title or join, deal ids distinct |
| Matcher.SearchContactsAreFirstMatches | src/components/GlobalSearch.tsx:44 | returned contacts are exactly the first min(5, n) of the n matching contacts, in store order |
| Matcher.SearchDealsAreFirstMatches | src/components/GlobalSearch.tsx:43 | returned deals are exactly the first min(5, n) of the n de-duplicated matching deals |
| Matcher.SearchDealsOfDistinctStore | src/components/GlobalSearch.tsx:40-43 | with distinct store ids the returned deals are the first min(5, n) filtered deals in store order |
| Matcher.JoinIgnoresContactCap | src/components/GlobalSearch.tsx:31-44 | a deal linked to any matching contact, even one beyond the first five, is among the de-duplicated deal matches |
| Matcher.SearchCaseInsensitive | src/components/GlobalSearch.tsx:19-37 | two queries with the same lower-casing give identical results |
| Matcher.SearchLowerCased | src/components/GlobalSearch.tsx:21 | searching the lower-cased query gives the same results as the query |
| Matcher.ScenarioJoinAndTitle | src/components/GlobalSearch.tsx:18-46 | "alice" finds contact Alice Nguyen, deal Renewal through her id, and deal "Alice Follow-up" by title, in store order |
| Matcher.ScenarioUpperCaseQuery | src/components/GlobalSearch.tsx:21 | "ALICE" gives the same results as "alice" |
| Matcher.ScenarioAstralQuery | src/components/GlobalSearch.tsx:19-28 | the one-character query U+1F600 has length 2, passes the gate and finds a contact with that first name |
| Matcher.ScenarioPunctuatedPhone | src/components/GlobalSearch.tsx:27 | the punctuated query "010-99" finds a contact by its raw phone "+1 (555) 010-9999" |
| SearchSession.ShowResults | src/components/GlobalSearch.tsx:80 | shown only when focused with a non-empty query; always shown for a focused query of at least 2 characters; never for one under 2 code units |
| SearchSession.HasResults | src/components/GlobalSearch.tsx:82 | there are results iff the results are not both empty |
| SearchSession.PanelFor | src/components/GlobalSearch.tsx:80-103 | the panel is hidden iff unfocused or the query is under 2 code units; "no results" iff shown and both lists are empty; otherwise it shows the two lists |
| SearchSession.NoResultsMeansNothingMatches | src/components/GlobalSearch.tsx:82-103 | when "no results" is shown, no store contact matches the query and no store deal title contains it |
| SearchSession.ShortQueryHidesPanel | src/components/GlobalSearch.tsx:19-80 | a query under 2 code units hides the panel whatever the focus and the store |
| SearchSession.GlobalSearch.constructor | src/components/GlobalSearch.tsx:11-14 | empty query, unfocused, both modals closed, no effects issued |
| SearchSession.GlobalSearch.DealModal | src/components/GlobalSearch.tsx:153-156 | the add-deal modal is open iff its flag is set, and its initial title is the current query |
| SearchSession.GlobalSearch.Type | src/components/GlobalSearch.tsx:94 | typing sets the query and changes nothing else |
| SearchSession.GlobalSearch.Focus | src/components/GlobalSearch.tsx:95 | focusing sets the focus flag and changes nothing else |
| SearchSession.GlobalSearch.MouseDown | src/components/GlobalSearch.tsx:49-53 | a mousedown outside a mounted component clears the focus; any other mousedown changes nothing; nothing else changes |
| SearchSession.GlobalSearch.DealClick | src/components/GlobalSearch.tsx:58-62 | appends exactly one navigation to "/deals/" + id, clears the query and focus, leaves the modals, and hides the panel |
| SearchSession.GlobalSearch.ContactClick | src/components/GlobalSearch.tsx:64-68 | appends exactly one show-detail effect for the id, clears the query and focus, leaves the modals, and hides the panel |
| SearchSession.GlobalSearch.CreateDealClick | src/components/GlobalSearch.tsx:70-73 | opens the add-deal modal with the unchanged query as its initial title, clears the focus, and hides the panel |
| SearchSession.GlobalSearch.CreateContactClick | src/components/GlobalSearch.tsx:75-78 | opens the add-contact modal, clears the focus, keeps the query, and hides the panel |
| SearchSession.GlobalSearch.CloseDealModal | src/components/GlobalSearch.tsx:155 | closing the add-deal modal only clears its flag |
| SearchSession.GlobalSearch.CloseContactModal | src/components/GlobalSearch.tsx:160 | closing the add-contact modal only clears its flag |

## Left out

- Rendering (JSX, CSS classes, icons) is left out. Only the choice of branch is modelled, by `PanelFor`.
- Registering the document `mousedown` listener with `useEffect` is left out. This is browser plumbing. `MouseDown` takes two booleans as parameters: whether `searchRef.current` is set, and whether the `contains` hit test succeeds.
- The code of `useCrm`, `useNavigate`, `AddDealModal` and `AddEditContactModal` is not part of this model. Their calls are recorded in `effects`, and the deal modal's props are given by `DealModal`.
- Text.LowerSpec: covers ASCII letters only. `toLowerCase` applies Unicode case mapping, which can change a string's length. That mapping is not modelled.
- Strings are sequences of Unicode characters. `includes` is modelled on characters, not on UTF-16 code units. The two agree because a Dafny string cannot hold a lone surrogate, and the search never builds one.
- Memoisation (`useMemo` and its dependencies) is left out. `Search` is recomputed from its inputs on every query.
- The `onContactAdded` callback does nothing, so it has no model.
- React batches the state updates inside one handler. Each handler method is modelled as one atomic update, and render timing is ignored.
