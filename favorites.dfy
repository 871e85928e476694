/** The favourites screen: on every focus it reloads the cached users and the favourite
    emails and shows the cached users whose email is a favourite. */
module Favorites {
  import opened Optional
  import opened Users
  import opened Seqs
  import UserList

  /** The filter callback: `favoriteEmails.includes(user.email)`. */
  function IsListed(favoriteEmails: seq<string>): User -> bool {
    (u: User) => u.email in favoriteEmails
  }

  /** `onlyFavorites`: the cached users whose email is among the favourites. Emails that
      match no user contribute nothing, so the view is never longer than the user list. */
  function OnlyFavorites(allUsers: seq<User>, favoriteEmails: seq<string>): (view: seq<User>)
    ensures |view| <= |allUsers|
    ensures forall u :: u in view <==> u in allUsers && u.email in favoriteEmails
  {
    Keep(allUsers, IsListed(favoriteEmails))
  }

  /** The view keeps the users' order: it is `allUsers` with some users deleted, and each
      favourite user appears as often as it does in `allUsers`. */
  lemma ViewIsSubsequence(allUsers: seq<User>, favoriteEmails: seq<string>)
    ensures Subsequence(OnlyFavorites(allUsers, favoriteEmails), allUsers)
    ensures forall u :: multiset(OnlyFavorites(allUsers, favoriteEmails))[u]
                     == if u.email in favoriteEmails then multiset(allUsers)[u] else 0
  {
    KeepIsSubsequence(allUsers, IsListed(favoriteEmails));
    forall u ensures multiset(OnlyFavorites(allUsers, favoriteEmails))[u]
                  == if u.email in favoriteEmails then multiset(allUsers)[u] else 0 {
      KeepCount(allUsers, IsListed(favoriteEmails), u);
    }
  }

  /** Only which emails are favourites matters, not their order or repetitions. */
  lemma ViewDependsOnMembershipOnly(allUsers: seq<User>, favoriteEmails: seq<string>, others: seq<string>)
    requires forall e :: e in favoriteEmails <==> e in others
    ensures OnlyFavorites(allUsers, favoriteEmails) == OnlyFavorites(allUsers, others)
  {
    KeepCongruent(allUsers, IsListed(favoriteEmails), IsListed(others));
  }

  /** Filtering the view again by the same favourites changes nothing. */
  lemma ViewIdempotent(allUsers: seq<User>, favoriteEmails: seq<string>)
    ensures OnlyFavorites(OnlyFavorites(allUsers, favoriteEmails), favoriteEmails)
         == OnlyFavorites(allUsers, favoriteEmails)
  {
    KeepAllPass(OnlyFavorites(allUsers, favoriteEmails), IsListed(favoriteEmails));
  }

  /** A favourite toggled on the list screen shows up in, or drops out of, the view on the
      next focus, together with every other cached user of that email; nobody else changes. */
  lemma ToggleThenView(allUsers: seq<User>, favoriteEmails: seq<string>, email: string)
    ensures forall u :: u in OnlyFavorites(allUsers, UserList.Toggle(favoriteEmails, email)) <==>
      u in allUsers && (if u.email == email then email !in favoriteEmails else u.email in favoriteEmails)
  {
  }

  class FavoritesScreen {
    var favorites: seq<User>

    constructor ()
      ensures favorites == []
    {
      favorites := [];
    }

    /** The focus handler. `allUsers` is what `loadUsers` yielded (`None` for `null`); an
        empty cached list is still a list, so it empties the view. */
    method LoadData(allUsers: Option<seq<User>>, favoriteEmails: seq<string>)
      modifies this
      ensures allUsers.None? ==> favorites == old(favorites)
      ensures allUsers.Some? ==> favorites == OnlyFavorites(allUsers.value, favoriteEmails)
    {
      if allUsers.Some? {
        var onlyFavorites := OnlyFavorites(allUsers.value, favoriteEmails);
        favorites := onlyFavorites;
      }
    }
  }
}
