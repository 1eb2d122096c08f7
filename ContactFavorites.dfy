/** The favorites store: an ordered list of contact ids, loaded once from
    key-value storage under a fixed key and written back in full after every
    change.  Storage holds the decoded id list, not its JSON text. */
module ContactFavorites {

  const FavoriteContactsKey: string := "favorite_contacts"

  /** The list with every occurrence of `id` filtered out. */
  function Remove(favs: seq<int>, id: int): (r: seq<int>)
    ensures forall x :: x in r <==> x in favs && x != id
    ensures |r| <= |favs|
  {
    if favs == [] then []
    else if favs[0] == id then Remove(favs[1..], id)
    else [favs[0]] + Remove(favs[1..], id)
  }

  /** The filter works element by element: it commutes with concatenation,
      so the ids it keeps stay in their relative order. */
  lemma {:induction false} RemoveConcat(a: seq<int>, b: seq<int>, id: int)
    ensures Remove(a + b, id) == Remove(a, id) + Remove(b, id)
  {
    if a != [] {
      assert (a + b)[0] == a[0] && (a + b)[1..] == a[1..] + b;
      RemoveConcat(a[1..], b, id);
      if a[0] != id {
        assert [a[0]] + (Remove(a[1..], id) + Remove(b, id)) == ([a[0]] + Remove(a[1..], id)) + Remove(b, id);
      }
    } else {
      assert a + b == b;
    }
  }

  lemma {:induction false} RemoveAbsent(favs: seq<int>, id: int)
    requires id !in favs
    ensures Remove(favs, id) == favs
  {
    if favs != [] {
      RemoveAbsent(favs[1..], id);
      assert favs == [favs[0]] + favs[1..];
    }
  }

  /** No id appears twice. */
  predicate NoDuplicates(s: seq<int>) {
    forall i, j :: 0 <= i < j < |s| ==> s[i] != s[j]
  }

  lemma {:induction false} RemoveNoDuplicates(favs: seq<int>, id: int)
    requires NoDuplicates(favs)
    ensures NoDuplicates(Remove(favs, id))
  {
    if favs != [] {
      var tail := favs[1..];
      assert NoDuplicates(tail) by {
        forall i, j | 0 <= i < j < |tail| ensures tail[i] != tail[j] {
          assert tail[i] == favs[i + 1] && tail[j] == favs[j + 1];
        }
      }
      RemoveNoDuplicates(tail, id);
      if favs[0] != id {
        var r := Remove(tail, id);
        assert favs[0] !in tail;
        assert favs[0] !in r;
        var res := [favs[0]] + r;
        forall i, j | 0 <= i < j < |res| ensures res[i] != res[j] {
          assert res[j] == r[j - 1];
          if i > 0 { assert res[i] == r[i - 1]; }
        }
      }
    }
  }

  /** The `toggleFavorite` update: filter the id out if present, otherwise
      append it. */
  function Toggled(favs: seq<int>, id: int): seq<int> {
    if id in favs then Remove(favs, id) else favs + [id]
  }

  /** Toggling flips the id's membership and no other id's. */
  lemma ToggleFlipsMembership(favs: seq<int>, id: int)
    ensures id in Toggled(favs, id) <==> id !in favs
    ensures forall x :: x != id ==> (x in Toggled(favs, id) <==> x in favs)
  {
  }

  /** A non-member goes to the end, after the unchanged earlier ids. */
  lemma ToggleAppendsNonMember(favs: seq<int>, id: int)
    requires id !in favs
    ensures |Toggled(favs, id)| == |favs| + 1
    ensures Toggled(favs, id)[..|favs|] == favs && Toggled(favs, id)[|favs|] == id
  {
  }

  lemma {:induction false} RemoveOnceFromNoDuplicates(favs: seq<int>, id: int, k: int)
    requires NoDuplicates(favs) && 0 <= k < |favs| && favs[k] == id
    ensures Remove(favs, id) == favs[..k] + favs[k + 1..]
  {
    var before, after := favs[..k], favs[k + 1..];
    assert favs == before + [id] + after;
    assert id !in before by {
      forall i | 0 <= i < |before| ensures before[i] != id {
        assert before[i] == favs[i];
      }
    }
    assert id !in after by {
      forall i | 0 <= i < |after| ensures after[i] != id {
        assert after[i] == favs[k + 1 + i];
      }
    }
    RemoveConcat(before + [id], after, id);
    RemoveConcat(before, [id], id);
    assert Remove([id], id) == [];
    RemoveAbsent(before, id);
    RemoveAbsent(after, id);
  }

  /** A member is taken out; the remaining ids keep their order. */
  lemma ToggleRemovesMember(favs: seq<int>, id: int, k: int)
    requires NoDuplicates(favs) && 0 <= k < |favs| && favs[k] == id
    ensures Toggled(favs, id) == favs[..k] + favs[k + 1..]
  {
    RemoveOnceFromNoDuplicates(favs, id, k);
  }

  /** Toggle keeps a list free of duplicates. */
  lemma ToggleKeepsNoDuplicates(favs: seq<int>, id: int)
    requires NoDuplicates(favs)
    ensures NoDuplicates(Toggled(favs, id))
  {
    if id in favs {
      RemoveNoDuplicates(favs, id);
    }
  }

  /** Adding an id and toggling it again restores the list. */
  lemma ToggleTwiceRestoresNonMember(favs: seq<int>, id: int)
    requires id !in favs
    ensures Toggled(Toggled(favs, id), id) == favs
  {
    RemoveConcat(favs, [id], id);
    RemoveAbsent(favs, id);
  }

  /** Removing a member and toggling it back puts it at the end: the same
      set of ids, and the same list only when the id was already last. */
  lemma ToggleTwiceMovesMemberToEnd(favs: seq<int>, id: int, k: int)
    requires NoDuplicates(favs) && 0 <= k < |favs| && favs[k] == id
    ensures Toggled(Toggled(favs, id), id) == favs[..k] + favs[k + 1..] + [id]
    ensures k == |favs| - 1 ==> Toggled(Toggled(favs, id), id) == favs
  {
    RemoveOnceFromNoDuplicates(favs, id, k);
    assert id !in Remove(favs, id);
    if k == |favs| - 1 {
      assert favs == favs[..k] + [id];
    }
  }

  lemma ToggleTwiceReorders()
    ensures Toggled(Toggled([1, 2], 1), 1) == [2, 1]
  {
    ToggleTwiceMovesMemberToEnd([1, 2], 1, 0);
  }

  /** The hook's state: the current list and the storage it persists to. */
  class Favorites {
    var favorites: seq<int>
    var storage: map<string, seq<int>>

    /** After every change, storage under the fixed key is the list itself. */
    predicate Persisted()
      reads this
    {
      FavoriteContactsKey in storage && storage[FavoriteContactsKey] == favorites
    }

    /** Mount: start from the stored list when there is one, else empty, and
        persist the result. */
    constructor (stored: map<string, seq<int>>)
      ensures FavoriteContactsKey in stored ==> favorites == stored[FavoriteContactsKey]
      ensures FavoriteContactsKey !in stored ==> favorites == []
      ensures storage == stored[FavoriteContactsKey := favorites]
      ensures Persisted()
    {
      var loaded := if FavoriteContactsKey in stored then stored[FavoriteContactsKey] else [];
      favorites := loaded;
      storage := stored[FavoriteContactsKey := loaded];
    }

    /** The toggle update followed by the persist effect. */
    method Toggle(id: int)
      modifies this
      ensures favorites == Toggled(old(favorites), id)
      ensures storage == old(storage)[FavoriteContactsKey := favorites]
      ensures Persisted()
    {
      favorites := Toggled(favorites, id);
      storage := storage[FavoriteContactsKey := favorites];
    }
  }

  /** The hook's examples: with nothing stored the list starts empty, and
      toggling 1 and then 2 stores [1] and then [1, 2]. */
  method FavoritesScenario() returns (initial: seq<int>, afterOne: seq<int>, afterTwo: seq<int>)
    ensures initial == [] && afterOne == [1] && afterTwo == [1, 2]
  {
    var f := new Favorites(map[]);
    initial := f.favorites;
    f.Toggle(1);
    afterOne := f.storage[FavoriteContactsKey];
    f.Toggle(2);
    afterTwo := f.storage[FavoriteContactsKey];
  }

  /** A stored list is loaded as it is, and toggling 2 out of [1, 2, 3]
      stores [1, 3]. */
  method StoredFavoritesScenario() returns (loaded: seq<int>, removed: seq<int>)
    ensures loaded == [1, 2, 3] && removed == [1, 3]
  {
    var g := new Favorites(map[FavoriteContactsKey := [1, 2, 3]]);
    loaded := g.favorites;
    g.Toggle(2);
    removed := g.storage[FavoriteContactsKey];
    assert removed == [1, 3] by {
      ToggleRemovesMember([1, 2, 3], 2, 1);
    }
  }
}
