/**
 * The record store of `UserProvider`: the collection of users, the three
 * transitions `addUser`, `updateUser`, `deleteUser`, and the saved copy that the
 * persist-on-change effect keeps equal to the collection.
 */
module UserContext {
  import opened Wrappers
  import opened Seqs
  import opened Users

  /** `prev.map(user => user.id === updated.id ? updated : user)`. */
  function ReplaceById(users: seq<User>, updated: User): (r: seq<User>)
    ensures |r| == |users|
    ensures forall i :: 0 <= i < |users| ==> r[i] == if users[i].id == updated.id then updated else users[i]
  {
    if users == [] then []
    else [if users[0].id == updated.id then updated else users[0]] + ReplaceById(users[1..], updated)
  }

  /** `prev.filter(user => user.id !== id)`. */
  function RemoveById(users: seq<User>, id: string): (r: seq<User>)
    ensures forall u :: u in r <==> u in users && u.id != id
    ensures id !in Ids(r)
  {
    FilterMembers(users, (u: User) => u.id != id);
    Filter(users, (u: User) => u.id != id)
  }

  /** An update keeps the identifier at every position, so the set of identifiers in use is unchanged. */
  lemma UpdateKeepsIds(users: seq<User>, updated: User)
    ensures Ids(ReplaceById(users, updated)) == Ids(users)
  {
    var r := ReplaceById(users, updated);
    forall id | id in Ids(r) ensures id in Ids(users) {
      var u :| u in r && u.id == id;
      var i :| 0 <= i < |r| && r[i] == u;
      assert users[i] in users;
    }
    forall id | id in Ids(users) ensures id in Ids(r) {
      var u :| u in users && u.id == id;
      var i :| 0 <= i < |users| && users[i] == u;
      assert r[i] in r;
    }
  }

  /** An update keeps the identifiers distinct. */
  lemma UpdateKeepsDistinct(users: seq<User>, updated: User)
    requires DistinctIds(users)
    ensures DistinctIds(ReplaceById(users, updated))
  {
    var r := ReplaceById(users, updated);
    forall i, j | 0 <= i < j < |r| ensures r[i].id != r[j].id {
      assert r[i].id == users[i].id && r[j].id == users[j].id;
    }
  }

  /** Updating an identifier that is not in the collection changes nothing. */
  lemma UpdateAbsentIsNoop(users: seq<User>, updated: User)
    requires updated.id !in Ids(users)
    ensures ReplaceById(users, updated) == users
  {
    var r := ReplaceById(users, updated);
    forall i | 0 <= i < |users| ensures r[i] == users[i] {
      assert users[i] in users;
    }
  }

  /** Deleting keeps each record with another identifier as often as it was there, and none with that one. */
  lemma DeleteRetainsOthers(users: seq<User>, id: string)
    ensures forall u :: multiset(RemoveById(users, id))[u] == if u.id == id then 0 else multiset(users)[u]
  {
    FilterMultiset(users, (u: User) => u.id != id);
  }

  /** Deleting distributes over concatenation: the remaining records keep their relative order. */
  lemma DeleteKeepsOrder(a: seq<User>, b: seq<User>, id: string)
    ensures RemoveById(a + b, id) == RemoveById(a, id) + RemoveById(b, id)
  {
    FilterConcat(a, b, (u: User) => u.id != id);
  }

  /** Deleting the same identifier twice is deleting it once. */
  lemma DeleteIdempotent(users: seq<User>, id: string)
    ensures RemoveById(RemoveById(users, id), id) == RemoveById(users, id)
  {
    FilterIdempotent(users, (u: User) => u.id != id);
  }

  /** Deleting an identifier that is not in the collection changes nothing. */
  lemma DeleteAbsentIsNoop(users: seq<User>, id: string)
    requires id !in Ids(users)
    ensures RemoveById(users, id) == users
  {
    FilterAll(users, (u: User) => u.id != id);
  }

  /** Deleting keeps the identifiers distinct. */
  lemma DeleteKeepsDistinct(users: seq<User>, id: string)
    requires DistinctIds(users)
    ensures DistinctIds(RemoveById(users, id))
  {
    FilterPairwise(users, (u: User) => u.id != id, (a: User, b: User) => a.id != b.id);
  }

  /** Appending a record whose identifier is not in use keeps the identifiers distinct. */
  lemma AddKeepsDistinct(users: seq<User>, added: User)
    requires DistinctIds(users) && added.id !in Ids(users)
    ensures DistinctIds(users + [added])
  {
    var r := users + [added];
    forall i, j | 0 <= i < j < |r| ensures r[i].id != r[j].id {
      if j == |users| {
        assert r[i] in users;
      } else {
        assert r[i] == users[i] && r[j] == users[j];
      }
    }
  }

  /**
   * `UserProvider`'s state. `persisted` is the `users` slot of local storage; the
   * persist-on-change effect rewrites it after every change, so it always equals
   * the collection between events.
   */
  class UserStore {
    var users: seq<User>
    ghost var persisted: seq<User>

    ghost predicate Valid()
      reads this
    {
      persisted == users
    }

    /**
     * The lazy initial state: the saved collection if local storage holds one,
     * otherwise the seed collection; the effect then saves it.
     */
    constructor (saved: Option<seq<User>>, seed: seq<User>)
      ensures Valid()
      ensures users == if saved.Some? then saved.value else seed
    {
      users := if saved.Some? then saved.value else seed;
      persisted := users;
    }

    /** Appends the supplied fields with the identifier the generator returned. */
    method AddUser(data: UserData, newId: string)
      requires Valid()
      modifies this
      ensures Valid()
      ensures users == old(users) + [WithId(data, newId)]
      ensures DistinctIds(old(users)) && newId !in Ids(old(users)) ==> DistinctIds(users)
    {
      var added := WithId(data, newId);
      if DistinctIds(users) && newId !in Ids(users) {
        AddKeepsDistinct(users, added);
      }
      users := users + [added];
      persisted := users;
    }

    /** Replaces the record carrying `updated.id`, if any, by `updated`. */
    method UpdateUser(updated: User)
      requires Valid()
      modifies this
      ensures Valid()
      ensures users == ReplaceById(old(users), updated)
      ensures updated.id !in Ids(old(users)) ==> users == old(users)
      ensures Ids(users) == Ids(old(users))
      ensures DistinctIds(old(users)) ==> DistinctIds(users)
    {
      UpdateKeepsIds(users, updated);
      if updated.id !in Ids(users) {
        UpdateAbsentIsNoop(users, updated);
      }
      if DistinctIds(users) {
        UpdateKeepsDistinct(users, updated);
      }
      users := ReplaceById(users, updated);
      persisted := users;
    }

    /** Drops every record carrying `id`. */
    method DeleteUser(id: string)
      requires Valid()
      modifies this
      ensures Valid()
      ensures users == RemoveById(old(users), id)
      ensures DistinctIds(old(users)) ==> DistinctIds(users)
    {
      if DistinctIds(users) {
        DeleteKeepsDistinct(users, id);
      }
      users := RemoveById(users, id);
      persisted := users;
    }
  }
}
