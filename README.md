# playGreen swipe decisions, modelled in Dafny

playGreen is a mobile app in which a signed-in user swipes through a deck of
sport cards: right (or the heart button) likes a sport, left (or the cross
button) dislikes it. Each decision is stored per user in two collections,
"liked" and "unliked". A history screen lists both collections in one list.
This project models the three pieces of logic in those screens:

- the swipe reconciler of the home screen (`handleSwipe`): for a left swipe,
  delete the first liked entry with the sport's `idSport`, then add the sport
  to "unliked" unless an entry with that id is already there; a right swipe is
  the mirror image; both queries answer from the state before the swipe;
  nothing happens without a signed-in user;
- the deck index advance `(prev + 1) % sports.length` after each swipe;
- the history merge: for each position `i` below the longer length, the liked
  entry `i` tagged `heart`, then the unliked entry `i` tagged `close`.

Files: `wrappers.dfy` (an Option type), `sports.dfy` (the sport record),
`decisions.dfy` (the pure reconciler `Reconcile`, its invariants, and the class
`DecisionStore` whose method `Swipe` performs the queries, the delete and the
add step by step), `deck.dfy` (the index advance as written and guarded, and the
class `HomeScreen`), `history.dfy` (the interleave as a function, the in-place
tagging loop `BuildHistory` over arrays, and the class `HistoryView`).

The remote store is modelled in memory: each collection is a `seq<Sport>` in
the order its query returns it, a query for an id is `FirstIndex`/`Contains`,
`deleteDoc` of the first result is `RemoveAt`, `addDoc` appends. The signed-in
user is a boolean parameter `signedIn`; the catalog response is a parameter of
`HomeScreen.LoadCatalog`.

The main properties proved: the collection a sport leaves loses exactly its
first entry with that id and keeps the rest in order; the target collection
gains the sport at its end exactly when it had no entry with that id; swipes
keep "at most one entry per id across both collections"; from a consistent
state (for instance a new user's), after any sequence of swipes, the last swipe
on a sport decides its classification, and a repeated swipe changes nothing; the guarded index stays in range and
cycles through the deck;
the history holds `|liked| + |unliked|` entries, pairs `liked[i]`, `unliked[i]`
at positions `2i`, `2i+1`, and read by icon gives back each collection whole
and in order.

## Model

| member | source | states |
|---|---|---|
| `Decisions.FirstIndex` | src/Components/HomePage.tsx:63-73 | the query for an id is empty iff no entry has that id; otherwise its first document is the first entry with that id |
| `Decisions.RemoveAt` | src/Components/HomePage.tsx:73-74 | deleting one document keeps every other entry in order and shortens the collection by one |
| `Decisions.Reconcile` | src/Components/HomePage.tsx:57-116 | a swipe removes exactly the first entry with the sport's id from the collection the sport leaves (or leaves it unchanged if there is none) and appends the sport to the target collection iff that collection had no entry with the id; both tests read the pre-swipe state |
| `Decisions.ReconcileCounts` | src/Components/HomePage.tsx:68-83 | for every id, a swipe takes one entry off the source collection only for the swiped id when it was present, and adds one to the target only for the swiped id when it was absent |
| `Decisions.ReconcileOtherIds` | src/Components/HomePage.tsx:63-66 | in both collections, the entries of every other sport id are the same records in the same order after a swipe, and so their number is unchanged |
| `Decisions.ReconcilePreservesExclusive` | src/Components/HomePage.tsx:57-116 | if every id has at most one entry across both collections before a swipe, the same holds afterwards, and the swiped id sits exactly once in the target collection and not in the other |
| `Decisions.ReconcileIdempotent` | src/Components/HomePage.tsx:57-116 | a second swipe in the same direction on the same sport leaves both collections as the first left them, whenever the source collection held at most one entry for the id |
| `Decisions.ReconcileIdempotentWhenExclusive` | src/Components/HomePage.tsx:57-116 | from a consistent state, a second swipe in the same direction on the same sport changes nothing |
| `Decisions.IdempotenceNeedsSingleEntry` | src/Components/HomePage.tsx:68-76 | without that hypothesis idempotence fails: only the first of two liked entries for an id is deleted per swipe |
| `Decisions.Replay` | src/Components/HomePage.tsx:55-122 | swipes applied one after another, each finishing before the next; from a consistent state the result is consistent |
| `Decisions.LastSwipeDecides` | src/Components/HomePage.tsx:55-122 | after any sequence of swipes from a consistent state, a sport is filed once, under the direction of its last swipe, and nowhere else |
| `Decisions.EmptyIsExclusive` | src/Components/HomePage.tsx:61-62 | a user with no decisions is in a consistent state |
| `Decisions.ScenarioRightOnEmpty` | src/Components/HomePage.tsx:110-116 | a right swipe on an empty history gives liked = [sport], unliked = [] |
| `Decisions.ScenarioLeftOnLiked` | src/Components/HomePage.tsx:68-83 | a left swipe on a sport whose one liked entry has its id gives liked = [], unliked = [sport] |
| `Decisions.ToggleLeftThenRight` | src/Components/HomePage.tsx:57-116 | a left swipe then a right swipe on a sport leave it in "liked" only |
| `Decisions.DecisionStore.Swipe` | src/Components/HomePage.tsx:55-122 | with a signed-in user the collections become `Reconcile` of the old ones; without one they are unchanged |
| `Deck.JsRemIsTruncatedRemainder` | src/Components/HomePage.tsx:128 | for a non-zero divisor, JavaScript's `%` is zero or has the dividend's sign, is smaller in magnitude than the divisor, and differs from the dividend by a multiple of the divisor |
| `Deck.JsAdvance` | src/Components/HomePage.tsx:128 | the updater as written: NaN on a NaN index or an empty deck; an index inside the deck for a non-negative index and a non-empty deck |
| `Deck.ShowsCard` | src/Components/HomePage.tsx:210 | a card is on top only at a non-negative integer index, never at NaN |
| `Deck.EmptyDeckIndexIsLost` | src/Components/HomePage.tsx:123-130 | as written, advancing on an empty deck makes the index NaN, it stays NaN under every later advance, and then no card is on top |
| `Deck.NextIndex` | src/Components/HomePage.tsx:128 | the guarded advance: on a non-empty deck the next index is below the length, is `prev + 1` before the last card and wraps to 0 after it; an empty deck keeps index 0 |
| `Deck.NextIndexAgrees` | src/Components/HomePage.tsx:128 | on every non-empty deck the guarded advance equals the source's `(prev + 1) % length` |
| `Deck.NextIndexCycles` | src/Components/HomePage.tsx:128 | after `k` advances from an index in range, the index is `(prev + k) mod length`, so the deck is visited in order and round again |
| `Deck.HomeScreen.constructor` | src/Components/HomePage.tsx:19-20 | the screen starts with an empty deck at index 0 |
| `Deck.HomeScreen.LoadCatalog` | src/Components/HomePage.tsx:167-178 | the catalog answer replaces the deck and leaves the index alone |
| `Deck.HomeScreen.HandleSwipe` | src/Components/HomePage.tsx:55-131 | the decision for the top card is reconciled (not when no user is signed in or no card is on top), then the index advances with `NextIndex` and stays inside a non-empty deck (the guarded advance; the code as written gives NaN on an empty deck, see ## Findings) |
| `History.Interleave` | src/Components/HistoryPage.tsx:35-47 | the merged history, round by round; it holds exactly `|liked| + |unliked|` entries |
| `History.InterleavePairs` | src/Components/HistoryPage.tsx:38-46 | for `i` below both lengths, position `2i` is `liked[i]` with a heart and `2i+1` is `unliked[i]` with a cross |
| `History.InterleaveWithIcon` | src/Components/HistoryPage.tsx:38-47 | the entries with a heart are exactly the liked documents, in order, and those with a cross exactly the unliked ones |
| `History.InterleaveTagged` | src/Components/HistoryPage.tsx:40-44 | every history entry carries an icon |
| `History.InterleaveOneSided` | src/Components/HistoryPage.tsx:38-47 | with "unliked" empty the history is "liked" tagged with hearts, and with "liked" empty it is "unliked" tagged with crosses |
| `History.BuildHistory` | src/Components/HistoryPage.tsx:35-47 | the loop pushes exactly `Interleave` of the two document lists and leaves every document of each list tagged in place |
| `History.HistoryView.constructor` | src/Components/HistoryPage.tsx:13 | the history list starts empty |
| `History.HistoryView.FetchData` | src/Components/HistoryPage.tsx:26-57 | with a signed-in user the list becomes the interleaving of the two collections' data; without one it is unchanged |
| `History.NoUserHistoryIsEmpty` | src/Components/HistoryPage.tsx:28 | with no signed-in user the history screen keeps its initial empty list |

## Findings

| source | as written | input that shows it | evidently intended | confidence | as-written member | corrected member |
|---|---|---|---|---|---|---|
| src/Components/HomePage.tsx:128 | the index becomes `(prev + 1) % sports.length`, and the heart and cross buttons (src/Components/HomePage.tsx:184-187) call the swipe handler even when the deck is empty | press either button before the catalog has loaded (or after its GET failed): `(0 + 1) % 0` is NaN, and since no card index ever equals NaN the deck stays blank after the catalog arrives | an empty deck keeps index 0 | medium, not executed | `Deck.EmptyDeckIndexIsLost` | `Deck.NextIndex` |

## Left out

- Firestore, Firebase Auth and axios calls are remote I/O: the collections are in-memory sequences, the current user is the `signedIn` parameter, and the catalog response is the argument of `LoadCatalog`.
- Store failures: every remote call is treated as succeeding. The source catches and logs any failure; a failure between the delete and the add would leave a sport in neither collection, which the model does not capture.
- Document order: Firestore returns query results ordered by document id, and `addDoc` picks a random id. The model appends new entries, while the store puts a new document where its random id sorts, so the model's "first entry" and the history's positional pairing follow insertion order, not the store's order.
- `async`/`await` interleaving with other swipes, and the stale `sports` array captured by the index updater's closure: swipes are modelled one at a time, each finishing before the next.
- The `ho: any` field of the sport record, and the dynamic type of `idSport` (modelled as a string).
- Swiping with no card on top while signed in: `sport` is undefined and the handler's query throws inside the `try`; the model leaves the store unchanged, which is what the caught error leads to.
- Gestures and animation (`PanResponder`, the 120-pixel thresholds, `Animated.timing`/`spring`), rendering, the modal, dark mode and all styles: presentation.
- Sign-out (`handleLogOut`) and App.tsx (login, sign-up, navigation): thin wrappers over Firebase Auth and React Navigation; App.tsx is not part of this model.
- The tags are the icon names `heart` and `close` that the code writes, modelled as `Heart` and `Close`.
- The code does not check that `idSport` is non-empty, and the model does not require it.
