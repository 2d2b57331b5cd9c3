/**
 * The user record the directory stores, and the operations on a single record
 * that the store, the edit cells and the add-user form share.
 */
module Users {
  import opened Seqs

  /**
   * One user. Role and status are kept as strings: the store itself never checks
   * them against their enumerations, only the add-user form does.
   */
  datatype User = User(id: string, name: string, email: string, role: string, status: string, profilePhoto: string)

  /** `Omit<User, 'id'>`: what `addUser` receives. */
  datatype UserData = UserData(name: string, email: string, role: string, status: string, profilePhoto: string)

  /** The four text fields a table cell can edit and the list can sort by. */
  datatype Field = Name | Email | Role | Status

  /** `user[field]`. */
  function FieldOf(u: User, f: Field): string {
    match f
    case Name => u.name
    case Email => u.email
    case Role => u.role
    case Status => u.status
  }

  /** `{ ...user, [field]: value }`: only that field changes. */
  function WithField(u: User, f: Field, v: string): (r: User)
    ensures r.id == u.id && r.profilePhoto == u.profilePhoto
    ensures FieldOf(r, f) == v
    ensures forall g :: g != f ==> FieldOf(r, g) == FieldOf(u, g)
  {
    match f
    case Name => u.(name := v)
    case Email => u.(email := v)
    case Role => u.(role := v)
    case Status => u.(status := v)
  }

  /** The record without its identifier. */
  function WithoutId(u: User): UserData {
    UserData(u.name, u.email, u.role, u.status, u.profilePhoto)
  }

  /** `{ ...userData, id }`: a record built from its fields and an identifier. */
  function WithId(d: UserData, id: string): (r: User)
    ensures r.id == id && WithoutId(r) == d
    ensures forall u: User :: u.id == id && WithoutId(u) == d ==> u == r
  {
    User(id, d.name, d.email, d.role, d.status, d.profilePhoto)
  }

  /** The identifiers in use. */
  function Ids(users: seq<User>): set<string> {
    set u | u in users :: u.id
  }

  /** No two positions hold records with the same identifier. */
  ghost predicate DistinctIds(users: seq<User>) {
    Pairwise(users, (a: User, b: User) => a.id != b.id)
  }

  /** With distinct identifiers, every record present occurs exactly once. */
  lemma {:induction false} DistinctOccursOnce(users: seq<User>, u: User)
    requires DistinctIds(users) && u in users
    ensures multiset(users)[u] == 1
  {
    assert users == [users[0]] + users[1..];
    var rest := users[1..];
    assert DistinctIds(rest) by {
      forall i, j | 0 <= i < j < |rest| ensures rest[i].id != rest[j].id {
        assert rest[i] == users[i + 1] && rest[j] == users[j + 1];
      }
    }
    if u == users[0] {
      forall k | 0 <= k < |rest| ensures rest[k] != u {
        assert rest[k] == users[k + 1];
      }
      assert u !in rest;
    } else {
      DistinctOccursOnce(rest, u);
    }
  }
}
