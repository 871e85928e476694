/** The list screen: the derivation of the displayed list from the loaded users and the
    filter criteria, the favourite toggle, the start-up load with its cache step, and the
    refresh handler. Storage and the network are not modelled: what `loadUsers`,
    `loadFavorites` and `fetchUsers` deliver comes in as parameters, and what would be
    handed to `saveUsers` or `saveFavorites` is returned. */
module UserList {
  import opened Optional
  import opened Users
  import opened Text
  import opened Seqs
  import opened UserSort

  /** The gender buttons: 'all', 'male' or 'female'. */
  datatype GenderFilter = All | Only(gender: Gender)

  /** Result of one `fetchUsers` call: the list of users it resolved with, or a rejection. */
  datatype FetchOutcome = Fetched(batch: seq<User>) | FetchFailed

  // ---------------------------------------------------------------------------
  // The filter/sort effect

  /** The gender test; 'all' lets everyone through. */
  predicate GenderPasses(genderFilter: GenderFilter, u: User) {
    genderFilter.All? || u.gender == genderFilter.gender
  }

  /** The name test: the lower-cased "first last" includes the lower-cased search text. */
  predicate NameMatches(search: string, u: User) {
    Contains(Lower(FullName(u)), Lower(search))
  }

  /** Both tests of the effect. */
  predicate Passes(genderFilter: GenderFilter, search: string, u: User) {
    GenderPasses(genderFilter, u) && NameMatches(search, u)
  }

  function HasGender(g: Gender): User -> bool {
    (u: User) => u.gender == g
  }

  /** The search callback, given the already lower-cased query. */
  function NameIncludes(query: string): User -> bool {
    (u: User) => Contains(Lower(FullName(u)), query)
  }

  function PassesAll(genderFilter: GenderFilter, search: string): User -> bool {
    (u: User) => Passes(genderFilter, search, u)
  }

  /** The list the effect stores in `filtered`: gender filter, name search, then sort. It
      holds exactly the loaded users that pass both tests, and is no longer than `users`. */
  function Derive(users: seq<User>, genderFilter: GenderFilter, search: string, sortBy: SortKey,
                  leq: (string, string) -> bool): (r: seq<User>)
    ensures |r| <= |users|
    ensures forall u :: u in r <==> u in users && Passes(genderFilter, search, u)
  {
    var byGender := if genderFilter.All? then users else Keep(users, HasGender(genderFilter.gender));
    var named := Keep(byGender, NameIncludes(Lower(search)));
    SortKeepsMembers(named, sortBy, leq);
    Sort(named, sortBy, leq)
  }

  /** The two filter passes amount to one filter by the combined test. */
  lemma DeriveIsFilterThenSort(users: seq<User>, genderFilter: GenderFilter, search: string,
                               sortBy: SortKey, leq: (string, string) -> bool)
    ensures Derive(users, genderFilter, search, sortBy, leq)
         == Sort(Keep(users, PassesAll(genderFilter, search)), sortBy, leq)
  {
    var query := NameIncludes(Lower(search));
    if genderFilter.All? {
      KeepCongruent(users, query, PassesAll(genderFilter, search));
    } else {
      KeepCompose(users, HasGender(genderFilter.gender), query, PassesAll(genderFilter, search));
    }
  }

  /** Each user is displayed as often as it occurs in `users` if it passes both tests, and
      not at all otherwise. */
  lemma DeriveCounts(users: seq<User>, genderFilter: GenderFilter, search: string,
                     sortBy: SortKey, leq: (string, string) -> bool)
    ensures forall u :: multiset(Derive(users, genderFilter, search, sortBy, leq))[u]
                     == if Passes(genderFilter, search, u) then multiset(users)[u] else 0
  {
    DeriveIsFilterThenSort(users, genderFilter, search, sortBy, leq);
    forall u ensures multiset(Derive(users, genderFilter, search, sortBy, leq))[u]
                  == if Passes(genderFilter, search, u) then multiset(users)[u] else 0 {
      KeepCount(users, PassesAll(genderFilter, search), u);
    }
  }

  /** What the displayed list is: exactly the users that pass both tests, each as often as
      in `users` and no others; no longer than `users`; sorted by the chosen key; and,
      within a block of equal keys, in the order of `users`. */
  lemma DeriveSpec(users: seq<User>, genderFilter: GenderFilter, search: string,
                   sortBy: SortKey, leq: (string, string) -> bool)
    requires TotalPreorder(leq)
    ensures var r := Derive(users, genderFilter, search, sortBy, leq);
      && (forall u :: u in r <==> u in users && Passes(genderFilter, search, u))
      && (forall u :: multiset(r)[u] == if Passes(genderFilter, search, u) then multiset(users)[u] else 0)
      && |r| <= |users|
      && Sorted(r, sortBy, leq)
      && SameBlocks(r, Keep(users, PassesAll(genderFilter, search)), sortBy, leq)
  {
    var passing := Keep(users, PassesAll(genderFilter, search));
    var r := Derive(users, genderFilter, search, sortBy, leq);
    DeriveIsFilterThenSort(users, genderFilter, search, sortBy, leq);
    assert r == Sort(passing, sortBy, leq);
    DeriveCounts(users, genderFilter, search, sortBy, leq);
    forall u ensures u in r <==> u in users && Passes(genderFilter, search, u) {
      assert u in r <==> multiset(r)[u] > 0;
      assert u in users <==> multiset(users)[u] > 0;
    }
    SortSorted(passing, sortBy, leq);
    forall k ensures Keep(r, SameKey(sortBy, leq, k)) == Keep(passing, SameKey(sortBy, leq, k)) {
      SortStable(passing, sortBy, leq, k);
    }
  }

  /** An empty search text keeps everyone: only the gender test remains. */
  lemma EmptySearchKeepsAll(users: seq<User>, genderFilter: GenderFilter, sortBy: SortKey,
                            leq: (string, string) -> bool)
    requires TotalPreorder(leq)
    ensures forall u :: u in Derive(users, genderFilter, "", sortBy, leq) <==> u in users && GenderPasses(genderFilter, u)
  {
    DeriveSpec(users, genderFilter, "", sortBy, leq);
    forall u ensures NameMatches("", u) {
      assert Lower("") == "";
      assert StartsWith(Lower(FullName(u)), "");
    }
  }

  /** Running the derivation on its own output, with the same criteria, changes nothing. */
  lemma DeriveIdempotent(users: seq<User>, genderFilter: GenderFilter, search: string,
                         sortBy: SortKey, leq: (string, string) -> bool)
    requires TotalPreorder(leq)
    ensures var r := Derive(users, genderFilter, search, sortBy, leq);
      Derive(r, genderFilter, search, sortBy, leq) == r
  {
    var r := Derive(users, genderFilter, search, sortBy, leq);
    DeriveSpec(users, genderFilter, search, sortBy, leq);
    DeriveIsFilterThenSort(r, genderFilter, search, sortBy, leq);
    KeepAllPass(r, PassesAll(genderFilter, search));
    SortOfSorted(r, sortBy, leq);
  }

  /** With the initial criteria (all genders, empty search) the screen still sorts: the
      result is `users` itself exactly when `users` is already sorted. */
  lemma DefaultCriteriaOnlySort(users: seq<User>, sortBy: SortKey, leq: (string, string) -> bool)
    requires TotalPreorder(leq)
    ensures Derive(users, All, "", sortBy, leq) == Sort(users, sortBy, leq)
    ensures Derive(users, All, "", sortBy, leq) == users <==> Sorted(users, sortBy, leq)
  {
    assert Lower("") == "";
    forall u | u in users ensures NameIncludes("")(u) {
      assert StartsWith(Lower(FullName(u)), "");
    }
    KeepAllPass(users, NameIncludes(""));
    SortSorted(users, sortBy, leq);
    if Sorted(users, sortBy, leq) {
      SortOfSorted(users, sortBy, leq);
    }
  }

  /** The effect body, step by step: copy, filter by gender, filter by name, sort. */
  method FilterUsers(users: seq<User>, genderFilter: GenderFilter, search: string,
                     sortBy: SortKey, leq: (string, string) -> bool)
    returns (filteredData: seq<User>)
    requires TotalPreorder(leq)
    ensures filteredData == Derive(users, genderFilter, search, sortBy, leq)
    ensures forall u :: u in filteredData <==> u in users && Passes(genderFilter, search, u)
    ensures |filteredData| <= |users|
    ensures Sorted(filteredData, sortBy, leq)
    ensures multiset(filteredData) == multiset(Keep(users, PassesAll(genderFilter, search)))
  {
    filteredData := users;
    if genderFilter != All {
      filteredData := Keep(filteredData, HasGender(genderFilter.gender));
    }
    var query := Lower(search);
    filteredData := Keep(filteredData, NameIncludes(query));
    filteredData := Sort(filteredData, sortBy, leq);
    DeriveSpec(users, genderFilter, search, sortBy, leq);
    DeriveIsFilterThenSort(users, genderFilter, search, sortBy, leq);
  }

  // ---------------------------------------------------------------------------
  // Favourites

  function Differs(email: string): string -> bool {
    (e: string) => e != email
  }

  /** The list `toggleFavorite` stores: every occurrence of `email` removed if it is present,
      otherwise `email` appended. Membership of `email` flips, and only of `email`. */
  function Toggle(favoriteEmails: seq<string>, email: string): (updated: seq<string>)
    ensures (email in updated) == (email !in favoriteEmails)
    ensures forall e :: e != email ==> (e in updated <==> e in favoriteEmails)
  {
    if email in favoriteEmails then Keep(favoriteEmails, Differs(email))
    else favoriteEmails + [email]
  }

  /** Removing keeps the other emails, each as often as before and in their order; adding
      puts `email` at the end. */
  lemma ToggleEffect(favoriteEmails: seq<string>, email: string)
    ensures var updated := Toggle(favoriteEmails, email);
      if email in favoriteEmails then
        && email !in updated
        && Subsequence(updated, favoriteEmails)
        && (forall e :: e != email ==> multiset(updated)[e] == multiset(favoriteEmails)[e])
      else
        updated == favoriteEmails + [email]
  {
    if email in favoriteEmails {
      KeepIsSubsequence(favoriteEmails, Differs(email));
      forall e | e != email ensures multiset(Toggle(favoriteEmails, email))[e] == multiset(favoriteEmails)[e] {
        KeepCount(favoriteEmails, Differs(email), e);
      }
    }
  }

  /** Toggling twice gives every email its old membership back, and when `email` was not a
      favourite it restores the list exactly. */
  lemma ToggleTwice(favoriteEmails: seq<string>, email: string)
    ensures forall e :: e in Toggle(Toggle(favoriteEmails, email), email) <==> e in favoriteEmails
    ensures email !in favoriteEmails ==> Toggle(Toggle(favoriteEmails, email), email) == favoriteEmails
  {
    if email !in favoriteEmails {
      KeepAppend(favoriteEmails, [email], Differs(email));
      KeepAllPass(favoriteEmails, Differs(email));
      assert Keep([email], Differs(email)) == [];
    }
  }

  /** A list without duplicates stays without duplicates. */
  lemma ToggleKeepsDistinct(favoriteEmails: seq<string>, email: string)
    requires Distinct(favoriteEmails)
    ensures Distinct(Toggle(favoriteEmails, email))
  {
    if email in favoriteEmails {
      KeepDistinct(favoriteEmails, Differs(email));
    } else {
      var updated := favoriteEmails + [email];
      forall i, j | 0 <= i < j < |updated| ensures updated[i] != updated[j] {
        if j == |favoriteEmails| {
          assert updated[i] == favoriteEmails[i];
        } else {
          assert updated[i] == favoriteEmails[i] && updated[j] == favoriteEmails[j];
        }
      }
    }
  }

  // ---------------------------------------------------------------------------
  // The screen's state

  class UserListScreen {
    var users: seq<User>
    var filtered: seq<User>
    var favoriteEmails: seq<string>
    var search: string
    var loading: bool
    var refreshing: bool
    var genderFilter: GenderFilter
    var sortBy: SortKey

    /** The initial state: nothing loaded, spinner on, all genders, sorted by name. */
    constructor ()
      ensures users == [] && filtered == [] && favoriteEmails == [] && search == ""
      ensures loading && !refreshing
      ensures genderFilter == All && sortBy == ByName
    {
      users, filtered, favoriteEmails, search := [], [], [], "";
      loading, refreshing := true, false;
      genderFilter, sortBy := All, ByName;
    }

    /** `isFavorite`: the email occurs at some position of the favourites list. */
    predicate IsFavorite(email: string): (b: bool)
      reads this
      ensures b <==> exists i :: 0 <= i < |favoriteEmails| && favoriteEmails[i] == email
    {
      email in favoriteEmails
    }

    /** `filtered` is what the filter effect computes from the current state. */
    ghost predicate Displayed(leq: (string, string) -> bool)
      reads this
    {
      filtered == Derive(users, genderFilter, search, sortBy, leq)
    }

    /** The first half of the start-up load, up to the fetch: the favourites from storage
        are set, and a non-empty cached list is shown at once, taking the spinner down. An
        absent or empty cache leaves the list and the spinner as they were. */
    method ShowCache(storedFavorites: seq<string>, cached: Option<seq<User>>)
      modifies this`favoriteEmails, this`users, this`filtered, this`loading
      ensures favoriteEmails == storedFavorites
      ensures cached.Some? && cached.value != [] ==>
                users == cached.value && filtered == cached.value && !loading
      ensures cached.None? || cached.value == [] ==>
                users == old(users) && filtered == old(filtered) && loading == old(loading)
    {
      favoriteEmails := storedFavorites;
      if cached.Some? && |cached.value| > 0 {
        users := cached.value;
        filtered := cached.value;
        loading := false;
      }
    }

    /** The second half of the start-up load: a fetched batch replaces the list and is
        handed to `saveUsers` (returned; `None` when it was not called); a failed fetch
        leaves the list the cache step showed. The spinner comes down either way. */
    method SettleFetch(outcome: FetchOutcome) returns (saved: Option<seq<User>>)
      modifies this`users, this`filtered, this`loading
      ensures !loading
      ensures saved == if outcome.Fetched? then Some(outcome.batch) else None
      ensures outcome.Fetched? ==> users == outcome.batch && filtered == outcome.batch
      ensures outcome.FetchFailed? ==> users == old(users) && filtered == old(filtered)
    {
      saved := None;
      match outcome {
        case Fetched(batch) =>
          users := batch;
          filtered := batch;
          saved := Some(batch);
        case FetchFailed =>
      }
      loading := false;
    }

    /** The whole start-up load, run to completion: the cache step, then the fetch. A
        fetched batch is the only value ever saved. */
    method LoadData(storedFavorites: seq<string>, cached: Option<seq<User>>, outcome: FetchOutcome)
      returns (saved: Option<seq<User>>)
      modifies this`favoriteEmails, this`users, this`filtered, this`loading
      ensures favoriteEmails == storedFavorites
      ensures !loading
      ensures saved == if outcome.Fetched? then Some(outcome.batch) else None
      ensures outcome.Fetched? ==> users == outcome.batch && filtered == outcome.batch
      ensures outcome.FetchFailed? && cached.Some? && cached.value != [] ==>
                users == cached.value && filtered == cached.value
      ensures outcome.FetchFailed? && (cached.None? || cached.value == []) ==>
                users == old(users) && filtered == old(filtered)
    {
      ShowCache(storedFavorites, cached);
      saved := SettleFetch(outcome);
    }

    /** `onReresh`: a fetched batch replaces the list and is saved; a failed fetch leaves
        the current list as it is and saves nothing. The cache is not read. */
    method Refresh(outcome: FetchOutcome) returns (saved: Option<seq<User>>)
      modifies this`users, this`filtered, this`refreshing
      ensures !refreshing
      ensures outcome.Fetched? ==>
                users == outcome.batch && filtered == outcome.batch && saved == Some(outcome.batch)
      ensures outcome.FetchFailed? ==>
                users == old(users) && filtered == old(filtered) && saved == None
    {
      refreshing := true;
      saved := None;
      match outcome {
        case Fetched(batch) =>
          users := batch;
          filtered := batch;
          saved := Some(batch);
        case FetchFailed =>
      }
      refreshing := false;
    }

    /** One run of the filter effect. */
    method ApplyFilters(leq: (string, string) -> bool)
      requires TotalPreorder(leq)
      modifies this`filtered
      ensures Displayed(leq)
      ensures forall u :: u in filtered <==> u in users && Passes(genderFilter, search, u)
      ensures Sorted(filtered, sortBy, leq)
    {
      filtered := FilterUsers(users, genderFilter, search, sortBy, leq);
    }

    /** Typing in the search box; the effect re-runs because `search` is one of its dependencies. */
    method SetSearch(text: string, leq: (string, string) -> bool)
      requires TotalPreorder(leq)
      modifies this`search, this`filtered
      ensures search == text && Displayed(leq)
    {
      search := text;
      ApplyFilters(leq);
    }

    /** A gender button; the effect re-runs. */
    method SetGenderFilter(g: GenderFilter, leq: (string, string) -> bool)
      requires TotalPreorder(leq)
      modifies this`genderFilter, this`filtered
      ensures genderFilter == g && Displayed(leq)
    {
      genderFilter := g;
      ApplyFilters(leq);
    }

    /** A sort button; the effect re-runs. */
    method SetSortBy(key: SortKey, leq: (string, string) -> bool)
      requires TotalPreorder(leq)
      modifies this`sortBy, this`filtered
      ensures sortBy == key && Displayed(leq)
    {
      sortBy := key;
      ApplyFilters(leq);
    }

    /** `toggleFavorite`: the new list is stored first and then handed to `saveFavorites`
        (returned here). Exactly the membership of `email` flips. */
    method ToggleFavorite(email: string) returns (persisted: seq<string>)
      modifies this`favoriteEmails
      ensures favoriteEmails == Toggle(old(favoriteEmails), email)
      ensures persisted == favoriteEmails
      ensures IsFavorite(email) == !old(IsFavorite(email))
      ensures forall e :: e != email ==> IsFavorite(e) == old(IsFavorite(e))
    {
      var updated := Toggle(favoriteEmails, email);
      favoriteEmails := updated;
      persisted := updated;
    }
  }
}
