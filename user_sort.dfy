/** The two orders the user list can be sorted by, and the sort itself.

    The list screen sorts with `Array.prototype.sort` and a comparator built on
    `String.prototype.localeCompare`. The collation of the device's locale is not
    modelled: it is the parameter `leq`, where `leq(a, b)` holds when
    `a.localeCompare(b) <= 0`, and all that is assumed of it is that it is a total
    preorder. The engine's sort is stable (required of `Array.prototype.sort` since
    ECMAScript 2019); it is modelled here by a stable insertion sort, and
    `StableSortIsUnique` shows that every stable sort yields the same list. */
module UserSort {
  import opened Users
  import opened Seqs

  datatype SortKey = ByName | ByCountry

  /** The string the comparator of each sort option compares. */
  function Key(sortBy: SortKey, u: User): string {
    match sortBy
    case ByName => FullName(u)
    case ByCountry => u.location.country
  }

  /** What a consistent `localeCompare` provides: any two strings are comparable, and
      the order is transitive. Distinct strings may compare equal. */
  ghost predicate TotalPreorder(leq: (string, string) -> bool) {
    && (forall a, b :: leq(a, b) || leq(b, a))
    && (forall a, b, c :: leq(a, b) && leq(b, c) ==> leq(a, c))
  }

  /** Non-decreasing by the chosen key. */
  ghost predicate Sorted(s: seq<User>, sortBy: SortKey, leq: (string, string) -> bool) {
    forall i, j :: 0 <= i < j < |s| ==> leq(Key(sortBy, s[i]), Key(sortBy, s[j]))
  }

  /** Users whose key compares equal to `k` (both ways): one block of equal keys. */
  function SameKey(sortBy: SortKey, leq: (string, string) -> bool, k: string): User -> bool {
    u => leq(Key(sortBy, u), k) && leq(k, Key(sortBy, u))
  }

  /** Insert `x` before the first element whose key is not below its own. */
  function Insert(x: User, s: seq<User>, sortBy: SortKey, leq: (string, string) -> bool): (r: seq<User>)
    ensures multiset(r) == multiset(s) + multiset{x}
    decreases |s|
  {
    if s == [] then [x]
    else if leq(Key(sortBy, x), Key(sortBy, s[0])) then [x] + s
    else
      assert s == [s[0]] + s[1..];
      [s[0]] + Insert(x, s[1..], sortBy, leq)
  }

  /** The list the sort call leaves behind. */
  function Sort(s: seq<User>, sortBy: SortKey, leq: (string, string) -> bool): (r: seq<User>)
    ensures multiset(r) == multiset(s)
    ensures |r| == |s|
    decreases |s|
  {
    if s == [] then []
    else
      assert s == [s[0]] + s[1..];
      Insert(s[0], Sort(s[1..], sortBy, leq), sortBy, leq)
  }

  /** Sorting neither adds nor drops a user. */
  lemma SortKeepsMembers(s: seq<User>, sortBy: SortKey, leq: (string, string) -> bool)
    ensures forall u :: u in Sort(s, sortBy, leq) <==> u in s
  {
    forall u ensures u in Sort(s, sortBy, leq) <==> u in s {
      assert u in Sort(s, sortBy, leq) <==> u in multiset(Sort(s, sortBy, leq));
    }
  }

  /** A user no greater than any user of a sorted list can go in front of it. */
  lemma SortedPrepend(y: User, s: seq<User>, sortBy: SortKey, leq: (string, string) -> bool)
    requires Sorted(s, sortBy, leq)
    requires forall z :: z in s ==> leq(Key(sortBy, y), Key(sortBy, z))
    ensures Sorted([y] + s, sortBy, leq)
  {
  }

  /** Dropping the first user keeps a list sorted. */
  lemma SortedTail(s: seq<User>, sortBy: SortKey, leq: (string, string) -> bool)
    requires s != [] && Sorted(s, sortBy, leq)
    ensures Sorted(s[1..], sortBy, leq)
  {
  }

  lemma {:induction false} InsertSorted(x: User, s: seq<User>, sortBy: SortKey, leq: (string, string) -> bool)
    requires TotalPreorder(leq)
    requires Sorted(s, sortBy, leq)
    ensures Sorted(Insert(x, s, sortBy, leq), sortBy, leq)
    decreases |s|
  {
    if s == [] {
    } else if leq(Key(sortBy, x), Key(sortBy, s[0])) {
      forall z | z in s ensures leq(Key(sortBy, x), Key(sortBy, z)) {
        var j :| 0 <= j < |s| && s[j] == z;
        if j > 0 {
          assert leq(Key(sortBy, s[0]), Key(sortBy, s[j]));
        }
      }
      SortedPrepend(x, s, sortBy, leq);
    } else {
      var t := s[1..];
      SortedTail(s, sortBy, leq);
      InsertSorted(x, t, sortBy, leq);
      var rest := Insert(x, t, sortBy, leq);
      forall z | z in rest ensures leq(Key(sortBy, s[0]), Key(sortBy, z)) {
        assert z in multiset(rest);
        if z != x {
          assert z in multiset(t);
          var j :| 0 <= j < |t| && t[j] == z;
          assert s[j + 1] == z;
        }
      }
      SortedPrepend(s[0], rest, sortBy, leq);
    }
  }

  /** The sorted list is non-decreasing by the chosen key. */
  lemma {:induction false} SortSorted(s: seq<User>, sortBy: SortKey, leq: (string, string) -> bool)
    requires TotalPreorder(leq)
    ensures Sorted(Sort(s, sortBy, leq), sortBy, leq)
    decreases |s|
  {
    if s != [] {
      SortSorted(s[1..], sortBy, leq);
      InsertSorted(s[0], Sort(s[1..], sortBy, leq), sortBy, leq);
    }
  }

  /** Inserting `x` puts it in front of every user with a key equal to its own. */
  lemma {:induction false} InsertBlock(x: User, s: seq<User>, sortBy: SortKey, leq: (string, string) -> bool, k: string)
    requires TotalPreorder(leq)
    ensures Keep(Insert(x, s, sortBy, leq), SameKey(sortBy, leq, k))
         == if SameKey(sortBy, leq, k)(x) then [x] + Keep(s, SameKey(sortBy, leq, k))
            else Keep(s, SameKey(sortBy, leq, k))
    decreases |s|
  {
    var p := SameKey(sortBy, leq, k);
    if s == [] {
    } else if leq(Key(sortBy, x), Key(sortBy, s[0])) {
      assert ([x] + s)[1..] == s;
    } else {
      InsertBlock(x, s[1..], sortBy, leq, k);
      var r := [s[0]] + Insert(x, s[1..], sortBy, leq);
      assert r[1..] == Insert(x, s[1..], sortBy, leq);
      assert p(x) ==> !p(s[0]);
    }
  }

  /** Stability: within each block of equal keys, the users keep their input order. */
  lemma {:induction false} SortStable(s: seq<User>, sortBy: SortKey, leq: (string, string) -> bool, k: string)
    requires TotalPreorder(leq)
    ensures Keep(Sort(s, sortBy, leq), SameKey(sortBy, leq, k)) == Keep(s, SameKey(sortBy, leq, k))
    decreases |s|
  {
    if s != [] {
      SortStable(s[1..], sortBy, leq, k);
      InsertBlock(s[0], Sort(s[1..], sortBy, leq), sortBy, leq, k);
    }
  }

  /** Sorting a list that is already sorted leaves it as it is. */
  lemma {:induction false} SortOfSorted(s: seq<User>, sortBy: SortKey, leq: (string, string) -> bool)
    requires Sorted(s, sortBy, leq)
    ensures Sort(s, sortBy, leq) == s
    decreases |s|
  {
    if s != [] {
      var t := s[1..];
      SortedTail(s, sortBy, leq);
      SortOfSorted(t, sortBy, leq);
      assert s == [s[0]] + t;
    }
  }

  /** A user is in a list exactly when it is in the block of its own key. */
  lemma InOwnBlock(x: User, s: seq<User>, sortBy: SortKey, leq: (string, string) -> bool)
    requires TotalPreorder(leq)
    ensures x in s <==> x in Keep(s, SameKey(sortBy, leq, Key(sortBy, x)))
  {
  }

  /** `t` and `u` hold the same users in each block of equal keys, in the same order. */
  ghost predicate SameBlocks(t: seq<User>, u: seq<User>, sortBy: SortKey, leq: (string, string) -> bool) {
    forall k :: Keep(t, SameKey(sortBy, leq, k)) == Keep(u, SameKey(sortBy, leq, k))
  }

  /** Two non-empty sorted lists that agree block by block start with the same user. */
  lemma SameFirst(t: seq<User>, u: seq<User>, sortBy: SortKey, leq: (string, string) -> bool)
    requires TotalPreorder(leq)
    requires t != [] && u != []
    requires Sorted(t, sortBy, leq) && Sorted(u, sortBy, leq)
    requires SameBlocks(t, u, sortBy, leq)
    ensures t[0] == u[0]
  {
    var a, b := t[0], u[0];
    var ka, kb := Key(sortBy, a), Key(sortBy, b);
    var pa, pb := SameKey(sortBy, leq, ka), SameKey(sortBy, leq, kb);
    assert Keep(t, pa) == Keep(u, pa);
    assert Keep(t, pb) == Keep(u, pb);
    InOwnBlock(a, t, sortBy, leq);
    InOwnBlock(b, u, sortBy, leq);
    assert a in u;
    assert b in t;
    var i :| 0 <= i < |u| && u[i] == a;
    var j :| 0 <= j < |t| && t[j] == b;
    if i > 0 { assert leq(kb, Key(sortBy, u[i])); }
    if j > 0 { assert leq(ka, Key(sortBy, t[j])); }
    assert pa(b);
    assert Keep(t, pa)[0] == a;
    assert Keep(u, pa)[0] == b;
  }

  /** Removing the same first user from two lists that agree block by block keeps them agreeing. */
  lemma SameBlocksAfterFirst(t: seq<User>, u: seq<User>, sortBy: SortKey, leq: (string, string) -> bool)
    requires t != [] && u != [] && t[0] == u[0]
    requires SameBlocks(t, u, sortBy, leq)
    ensures SameBlocks(t[1..], u[1..], sortBy, leq)
  {
    forall k ensures Keep(t[1..], SameKey(sortBy, leq, k)) == Keep(u[1..], SameKey(sortBy, leq, k)) {
      var p := SameKey(sortBy, leq, k);
      assert Keep(t, p) == Keep(u, p);
      if p(t[0]) {
        assert Keep(t[1..], p) == Keep(t, p)[1..];
        assert Keep(u[1..], p) == Keep(u, p)[1..];
      }
    }
  }

  /** Two sorted lists that agree block by block are the same list. */
  lemma {:induction false} BlocksDetermineSorted(t: seq<User>, u: seq<User>, sortBy: SortKey, leq: (string, string) -> bool)
    requires TotalPreorder(leq)
    requires Sorted(t, sortBy, leq) && Sorted(u, sortBy, leq)
    requires SameBlocks(t, u, sortBy, leq)
    ensures t == u
    decreases |t| + |u|
  {
    if t == [] || u == [] {
      var w := if t == [] then u else t;
      if w != [] {
        InOwnBlock(w[0], w, sortBy, leq);
      }
    } else {
      SameFirst(t, u, sortBy, leq);
      SameBlocksAfterFirst(t, u, sortBy, leq);
      SortedTail(t, sortBy, leq);
      SortedTail(u, sortBy, leq);
      BlocksDetermineSorted(t[1..], u[1..], sortBy, leq);
      assert t == [t[0]] + t[1..] && u == [u[0]] + u[1..];
    }
  }

  /** Any sort that is stable and leaves the list sorted produces exactly `Sort`: the model
      does not depend on which stable algorithm the engine uses. */
  lemma StableSortIsUnique(s: seq<User>, r: seq<User>, sortBy: SortKey, leq: (string, string) -> bool)
    requires TotalPreorder(leq)
    requires Sorted(r, sortBy, leq)
    requires SameBlocks(r, s, sortBy, leq)
    ensures r == Sort(s, sortBy, leq)
  {
    SortSorted(s, sortBy, leq);
    forall k ensures Keep(r, SameKey(sortBy, leq, k)) == Keep(Sort(s, sortBy, leq), SameKey(sortBy, leq, k)) {
      SortStable(s, sortBy, leq, k);
    }
    BlocksDetermineSorted(r, Sort(s, sortBy, leq), sortBy, leq);
  }
}
