# RandomUserApp list logic, modelled in Dafny

RandomUserApp is a small React Native app. It fetches a batch of random user profiles,
caches them on the device, and shows them in a list. The list can be filtered by gender,
searched by name and sorted by name or by country. Users can be marked as favourites, and
a second screen shows the cached users whose email is a favourite.

This project models the parts of the two screens that compute something:

- the filter/sort effect of the list screen;
- the favourite toggle and the `isFavorite` test;
- the start-up load, which shows the cached list before it fetches, and the refresh handler `onReresh`;
- the favourites screen's `onlyFavorites` view.

Files, one module each:

- `users.dfy` (`Users`): the user record and the `"first last"` name.
- `seqs.dfy` (`Seqs`): `Keep`, the order-preserving filter that `Array.prototype.filter` performs, and its lemmas.
- `text.dfy` (`Text`): ASCII lower-casing and `includes`.
- `user_sort.dfy` (`UserSort`): the two sort keys, the sort, and its properties.
- `user_list.dfy` (`UserList`): the list screen. The pure derivation and toggle are functions. The screen's state is a class whose methods update it.
- `favorites.dfy` (`Favorites`): the favourites view and the favourites screen's state.
- `scenarios.dfy` (`Scenarios`): two concrete runs.
- `optional.dfy` (`Optional`): `Option`, standing for a storage read that can yield `null`.

Assumptions about the platform:

- `localeCompare` is the parameter `leq`. `leq(a, b)` stands for `a.localeCompare(b) <= 0`. The model assumes only that it is a total preorder (`UserSort.TotalPreorder`).
- `toLowerCase` lower-cases ASCII letters only.
- `Array.prototype.sort` is modelled as a stable insertion sort. Stability is required of the engine by ECMAScript 2019 (section 22.1.3.27 of ECMA-262, 10th edition). `UserSort.StableSortIsUnique` proves that every sort that leaves the list sorted and is stable gives this same list, so the choice of algorithm does not matter.

Storage and the network are inputs:

- What `loadUsers`, `loadFavorites` and `fetchUsers` deliver is passed in as a parameter.
- `loadFavorites` is assumed to resolve with a list of strings and never to reject; `saveFavorites` is assumed never to reject.
- A fetch is `Fetched(batch)` or `FetchFailed`. `Fetched(batch)` stands only for a fetch that resolved with a response body carrying a `results` list of users.
- What is handed to `saveUsers` or `saveFavorites` is returned. `None` means the save was not called.

Four behaviours of the code may surprise a reader who expects a conventional user-list app. The model follows the code:

- The list is always sorted, because the sort key starts as `'name'`. With no filter active, the result is a sorted permutation of the users. It is not the users in their original order. `UserList.DefaultCriteriaOnlySort` proves that the result equals the input exactly when the input is already sorted.
- The code has only the gender filter and the name search. It has no age, country, city or registration-year filter.
- Favourites are a list, not a set. Toggling an email on and then off restores the list exactly. Toggling it off and then on moves it to the end, so only membership is restored (`UserList.ToggleTwice`).
- The code has no export or import of favourites.

## Model

| member | source | states |
|---|---|---|
| `Seqs.Keep` | app/screens/UserListScreen.tsx:104-113 | `filter` keeps exactly the elements that pass the callback and is never longer than its input |
| `Text.Lower` | app/screens/UserListScreen.tsx:110-112 | `toLowerCase` keeps the length and leaves no upper-case ASCII letter; each character is kept or replaced by its lower-case letter |
| `Text.ContainsIffOccurs` | app/screens/UserListScreen.tsx:112 | `includes` holds exactly when the part occurs at some position of the text |
| `UserSort.Sort` | app/screens/UserListScreen.tsx:116-126 | sorting yields a permutation of its input, of the same length |
| `UserSort.SortSorted` | app/screens/UserListScreen.tsx:116-126 | after the sort, the list is non-decreasing by `"first last"` (sort by name) or by `location.country` (sort by country) under any total preorder |
| `UserSort.SortStable` | app/screens/UserListScreen.tsx:116-126 | users whose keys compare equal keep their input order |
| `UserSort.SortOfSorted` | app/screens/UserListScreen.tsx:116-126 | sorting a list that is already sorted leaves it unchanged |
| `UserSort.StableSortIsUnique` | app/screens/UserListScreen.tsx:116-126 | any list that is sorted and agrees with the input block by block equals the model's sort |
| `UserList.Derive` | app/screens/UserListScreen.tsx:99-129 | the list the effect stores in `filtered` holds exactly the loaded users that pass the gender test and the case-insensitive name test, and is no longer than `users` |
| `UserList.DeriveIsFilterThenSort` | app/screens/UserListScreen.tsx:100-113 | the gender pass followed by the name pass is one filter by both tests; `'all'` excludes no one |
| `UserList.DeriveCounts` | app/screens/UserListScreen.tsx:100-128 | each user is displayed as often as it occurs in `users` when it passes both tests, and not at all otherwise |
| `UserList.DeriveSpec` | app/screens/UserListScreen.tsx:99-129 | a user is displayed exactly when it is in `users` and passes the gender test and the case-insensitive name test; each is displayed as often as in `users`; the list is no longer than `users`, is sorted by the chosen key, and is stable |
| `UserList.EmptySearchKeepsAll` | app/screens/UserListScreen.tsx:109-113 | with an empty search text, only the gender test decides |
| `UserList.DeriveIdempotent` | app/screens/UserListScreen.tsx:99-129 | running the effect on its own output with the same criteria changes nothing |
| `UserList.DefaultCriteriaOnlySort` | app/screens/UserListScreen.tsx:99-129 | with all genders and an empty search, the result is the sorted `users`; it equals `users` exactly when `users` is already sorted |
| `UserList.FilterUsers` | app/screens/UserListScreen.tsx:99-128 | the effect body (copy, gender filter, lower-cased search, sort) computes the list `DeriveSpec` describes: passing users only, sorted, a permutation of the passing users |
| `UserList.Toggle` | app/screens/UserListScreen.tsx:131-134 | membership of the toggled email flips; membership of every other email is unchanged |
| `UserList.ToggleEffect` | app/screens/UserListScreen.tsx:132-134 | a present email is removed everywhere, and the other emails keep their order and multiplicity; an absent email is appended at the end |
| `UserList.ToggleTwice` | app/screens/UserListScreen.tsx:131-140 | toggling twice restores the membership of every email; if the email was absent, it restores the list exactly |
| `UserList.ToggleKeepsDistinct` | app/screens/UserListScreen.tsx:131-134 | a duplicate-free favourites list stays duplicate-free |
| `UserList.UserListScreen.constructor` | app/screens/UserListScreen.tsx:45-55 | initial state: empty lists, empty search, spinner on, all genders, sorted by name |
| `UserList.UserListScreen.IsFavorite` | app/screens/UserListScreen.tsx:140 | `isFavorite` holds exactly when the email occurs at some position of the favourites list |
| `UserList.UserListScreen.ShowCache` | app/screens/UserListScreen.tsx:58-67 | favourites are set from storage; a non-empty cached list becomes both `users` and `filtered` and the spinner comes down; an absent or empty cache changes neither the list nor the spinner |
| `UserList.UserListScreen.SettleFetch` | app/screens/UserListScreen.tsx:69-78 | a fetched batch replaces the list and is the value handed to `saveUsers`; a failed fetch keeps the list and saves nothing; the spinner comes down either way |
| `UserList.UserListScreen.LoadData` | app/screens/UserListScreen.tsx:57-79 | run to completion: favourites are set from storage; a fetched batch replaces the list and is the only value ever saved; on a failed fetch the cached list stays when it was non-empty, and otherwise the list is unchanged; loading ends either way |
| `UserList.UserListScreen.Refresh` | app/screens/UserListScreen.tsx:85-97 | `onReresh`: a fetched batch replaces the list and is saved; a failed fetch keeps the current list and saves nothing; refreshing ends either way |
| `UserList.UserListScreen.ApplyFilters` | app/screens/UserListScreen.tsx:99-129 | one run of the effect makes `filtered` the derivation of the current users and criteria |
| `UserList.UserListScreen.SetSearch` | app/screens/UserListScreen.tsx:148-153 | new search text, then the effect re-runs |
| `UserList.UserListScreen.SetGenderFilter` | app/screens/UserListScreen.tsx:158-160 | new gender filter, then the effect re-runs |
| `UserList.UserListScreen.SetSortBy` | app/screens/UserListScreen.tsx:165-166 | new sort key, then the effect re-runs |
| `UserList.UserListScreen.ToggleFavorite` | app/screens/UserListScreen.tsx:131-140 | the stored favourites become the toggled list, which is also the value handed to `saveFavorites`; `isFavorite` flips for the toggled email and for no other |
| `Favorites.OnlyFavorites` | app/screens/FavoritesScreen.tsx:28-30 | a cached user is in the view exactly when its email is a favourite; favourite emails with no user are dropped; the view is never longer than the cached list |
| `Favorites.ViewIsSubsequence` | app/screens/FavoritesScreen.tsx:28-30 | the view is the cached list with users deleted, in the cached order, with each favourite user as often as in the cache |
| `Favorites.ViewDependsOnMembershipOnly` | app/screens/FavoritesScreen.tsx:28-30 | the order and duplicates of the favourite emails do not affect the view |
| `Favorites.ViewIdempotent` | app/screens/FavoritesScreen.tsx:28-30 | filtering the view again by the same favourites returns it unchanged |
| `Favorites.ToggleThenView` | app/screens/FavoritesScreen.tsx:28-30 | after a toggle on the list screen, the view gains or loses exactly the cached users with the toggled email |
| `Favorites.FavoritesScreen.constructor` | app/screens/FavoritesScreen.tsx:18 | the view starts empty |
| `Favorites.FavoritesScreen.LoadData` | app/screens/FavoritesScreen.tsx:22-33 | when `loadUsers` yields `null`, the view is left as it was; otherwise it becomes `onlyFavorites` of the cached list, and an empty cached list empties it |
| `Scenarios.SearchBo` | app/screens/UserListScreen.tsx:109-113 | searching "bo" among Ann Lee and Bo Kim leaves Bo Kim alone, whatever the collation |
| `Scenarios.ToggleOnOff` | app/screens/UserListScreen.tsx:131-134 | toggling "ann@x.com" on an empty list adds it, and toggling again removes it |

## Left out

- Rendering, layout, the grid/list view mode, navigation, the focus listener that runs the favourites screen's `loadData`, the animated heart and the notification plumbing: these are platform UI with no computation.
- `fetchUsers`, `loadUsers`, `saveUsers`, `loadFavorites` and `saveFavorites`: these are network and AsyncStorage calls. Their results are parameters and their arguments are return values. JSON serialisation is taken to round-trip. `loadFavorites` and `saveFavorites` are not defined in app/utilities/storage.ts; the model assumes `loadFavorites` resolves with a list of strings and that neither rejects.
- `UserList.UserListScreen.LoadData`: a rejected `loadFavorites` (line 59, outside the `try`) would end the load before the cache step and leave the spinner on; this path is not modelled.
- `Favorites.FavoritesScreen.LoadData`: a rejected `loadFavorites` ends the handler at the `await` on line 25 of app/screens/FavoritesScreen.tsx and leaves the view as it was. A `loadFavorites` that yields `null` makes the handler throw at `includes` on the first cached user, leaving the view; when the cached list is `[]` the callback never runs, nothing throws and the view is emptied. Neither path is modelled.
- `UserList.UserListScreen.ToggleFavorite`: a rejected `saveFavorites` (line 137) is an unhandled rejection after the new list is already stored; it is not modelled.
- `UserList.FetchOutcome`: `fetchUsers` (app/api/fetchUsers.ts:3-7) never checks the HTTP status and returns `json.results` unchecked, so a body without `results` resolves with `undefined`. The handlers then store and save `undefined` and the next run of the filter effect throws at the copy on line 100. `Fetched(batch)` cannot express this; the proved fall-back to the previous list covers rejected fetches only.
- `UserList.UserListScreen.LoadData`: the ensures speak of the state after the handler has finished. The intermediate state after the cache step, with the cache shown and the spinner down while the fetch is pending, is stated separately by `UserList.UserListScreen.ShowCache`.
- `UserList.UserListScreen.Refresh`: `onReresh` (app/screens/UserListScreen.tsx:85) is a local constant of the component and is referenced nowhere in app/screens/UserListScreen.tsx; the `FlatList` at app/screens/UserListScreen.tsx:182-190 has no `onRefresh` or `refreshing` prop, so the handler cannot run. It is modelled as the handler it would be if it were wired up.
- Asynchrony: the model runs each handler to completion in program order. It does not capture the stale `favoriteEmails` closure in `toggleFavorite`, the un-awaited `saveUsers` in `loadData`, or a refresh overlapping the start-up load. The moment between showing the cache and the fetch completing is the state `UserList.UserListScreen.ShowCache` leaves; no other interleaving is modelled.
- React effect scheduling: `ApplyFilters` is one run of the effect. The setters run it after their change. `LoadData` and `Refresh` leave `filtered` as the raw list, exactly as the code does, until the caller runs the effect again.
- `UserSort.Sort`: models the result of `Array.prototype.sort` on a sequence, not the engine's in-place algorithm. It assumes the engine's sort is stable.
- `Text.Lower`: lower-cases ASCII letters only; Unicode case mapping is not modelled.
- The `leq` parameter: locale collation (ICU) is not modelled beyond being a total preorder.
- `console.warn` and `console.error` messages, and error values caught and discarded, are not modelled.
