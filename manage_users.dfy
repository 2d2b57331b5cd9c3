/**
 * The Manage Users page: the filtered, stably sorted projection of the store,
 * the confirmation-gated delete, and the single-row inline edit session.
 */
module ManageUsers {
  import opened Wrappers
  import opened Seqs
  import opened Strings
  import opened Users
  import opened UserContext

  // ---------------------------------------------------------------------------
  // Filtering

  /** The three inputs above the table. `"all"` in a filter means "no filter". */
  datatype Query = Query(search: string, roleFilter: string, statusFilter: string)

  const NoFilter: string := "all"

  /** The page's initial inputs: empty search, both filters off. */
  const NoQuery: Query := Query("", NoFilter, NoFilter)

  /** The search text occurs, ignoring case, in the name or in the email. */
  predicate MatchesSearch(u: User, search: string) {
    Includes(ToLower(u.name), ToLower(search)) || Includes(ToLower(u.email), ToLower(search))
  }

  /** The filter callback: search, role and status conditions all hold. */
  predicate Matches(u: User, q: Query) {
    && MatchesSearch(u, q.search)
    && (q.roleFilter == NoFilter || u.role == q.roleFilter)
    && (q.statusFilter == NoFilter || u.status == q.statusFilter)
  }

  function MatchesQuery(q: Query): User -> bool {
    (u: User) => Matches(u, q)
  }

  /** Lower-casing the search text never changes which records match. */
  lemma SearchIgnoresCase(u: User, q: Query)
    ensures Matches(u, q) == Matches(u, q.(search := ToLower(q.search)))
  {
    ToLowerIdempotent(q.search);
  }

  /** Records whose name and email differ only in case match the same queries. */
  lemma RecordCaseIrrelevant(a: User, b: User, q: Query)
    requires SameUpToCase(a.name, b.name) && SameUpToCase(a.email, b.email)
    requires a.role == b.role && a.status == b.status
    ensures Matches(a, q) == Matches(b, q)
  {
    ToLowerIgnoresCase(a.name, b.name);
    ToLowerIgnoresCase(a.email, b.email);
  }

  /** Without search text and with both filters off, every record matches. */
  lemma NoQueryMatchesAll(u: User)
    ensures Matches(u, NoQuery)
  {
    IncludesEmpty(ToLower(u.name));
  }

  // ---------------------------------------------------------------------------
  // Sorting

  datatype Direction = Asc | Desc

  datatype SortConfig = SortConfig(field: Field, direction: Direction)

  /** The page's sort configuration, which nothing changes: name, ascending. */
  const PageSort: SortConfig := SortConfig(Name, Asc)

  /**
   * The comparator `direction * a[field].localeCompare(b[field])` is not positive,
   * so `a` may stay in front of `b`.
   */
  predicate InOrder(a: User, b: User, cfg: SortConfig) {
    match cfg.direction
    case Asc => LexLeq(FieldOf(a, cfg.field), FieldOf(b, cfg.field))
    case Desc => LexLeq(FieldOf(b, cfg.field), FieldOf(a, cfg.field))
  }

  lemma InOrderTotal(a: User, b: User, cfg: SortConfig)
    ensures InOrder(a, b, cfg) || InOrder(b, a, cfg)
  {
    LexTotal(FieldOf(a, cfg.field), FieldOf(b, cfg.field));
  }

  lemma InOrderTransitive(a: User, b: User, c: User, cfg: SortConfig)
    requires InOrder(a, b, cfg) && InOrder(b, c, cfg)
    ensures InOrder(a, c, cfg)
  {
    var ka, kb, kc := FieldOf(a, cfg.field), FieldOf(b, cfg.field), FieldOf(c, cfg.field);
    if cfg.direction == Asc { LexTransitive(ka, kb, kc); } else { LexTransitive(kc, kb, ka); }
  }

  /** Two records compare as equal exactly when their sort keys are equal. */
  lemma InOrderBothWays(a: User, b: User, cfg: SortConfig)
    ensures InOrder(a, b, cfg) && InOrder(b, a, cfg) <==> FieldOf(a, cfg.field) == FieldOf(b, cfg.field)
  {
    var ka, kb := FieldOf(a, cfg.field), FieldOf(b, cfg.field);
    LexReflexive(ka);
    if LexLeq(ka, kb) && LexLeq(kb, ka) { LexAntisymmetric(ka, kb); }
  }

  /** No later row must come before an earlier one. */
  ghost predicate SortedBy(s: seq<User>, cfg: SortConfig) {
    forall i, j :: 0 <= i < j < |s| ==> InOrder(s[i], s[j], cfg)
  }

  function HasKey(f: Field, k: string): User -> bool {
    (u: User) => FieldOf(u, f) == k
  }

  /** The records of `s` whose sort field equals `k`, in their order in `s`. */
  function WithKey(s: seq<User>, f: Field, k: string): seq<User> {
    Filter(s, HasKey(f, k))
  }

  /** Places `x` in front of the first record it may precede; `x` comes earlier than all of `t`. */
  function Insert(x: User, t: seq<User>, cfg: SortConfig): (r: seq<User>)
    ensures multiset(r) == multiset{x} + multiset(t)
  {
    if t == [] || InOrder(x, t[0], cfg) then [x] + t
    else
      assert t == [t[0]] + t[1..];
      [t[0]] + Insert(x, t[1..], cfg)
  }

  lemma {:induction false} InsertSorted(x: User, t: seq<User>, cfg: SortConfig)
    requires SortedBy(t, cfg)
    ensures SortedBy(Insert(x, t, cfg), cfg)
  {
    var r := Insert(x, t, cfg);
    if t == [] || InOrder(x, t[0], cfg) {
      forall i, j | 0 <= i < j < |r| ensures InOrder(r[i], r[j], cfg) {
        if i == 0 && j > 1 {
          InOrderTransitive(x, t[0], t[j - 1], cfg);
        }
      }
    } else {
      InOrderTotal(x, t[0], cfg);
      var rest := Insert(x, t[1..], cfg);
      InsertSorted(x, t[1..], cfg);
      forall k | 0 <= k < |rest| ensures InOrder(t[0], rest[k], cfg) {
        assert rest[k] in multiset(rest);
        if rest[k] != x {
          assert rest[k] in t[1..];
        }
      }
      forall i, j | 0 <= i < j < |r| ensures InOrder(r[i], r[j], cfg) {
        if i > 0 {
          assert r[i] == rest[i - 1] && r[j] == rest[j - 1];
        } else {
          assert r[j] == rest[j - 1];
        }
      }
    }
  }

  /**
   * `Array.prototype.sort` with the page's comparator, which is stable: an
   * insertion sort that puts each record before the later ones it may precede.
   */
  function SortUsers(s: seq<User>, cfg: SortConfig): (r: seq<User>)
    ensures multiset(r) == multiset(s)
    ensures SortedBy(r, cfg)
  {
    if s == [] then []
    else
      assert s == [s[0]] + s[1..];
      InsertSorted(s[0], SortUsers(s[1..], cfg), cfg);
      Insert(s[0], SortUsers(s[1..], cfg), cfg)
  }

  /** Two adjacent records of which at most one is kept by `p` can trade places without changing what `p` keeps. */
  lemma SwapAdjacent(a: User, b: User, s: seq<User>, p: User -> bool)
    requires !(p(a) && p(b))
    ensures Filter([a] + ([b] + s), p) == Filter([b] + ([a] + s), p)
  {
    FilterCons(a, [b] + s, p);
    FilterCons(b, s, p);
    FilterCons(b, [a] + s, p);
    FilterCons(a, s, p);
  }

  /** Inserting keeps the order among the records of each key. */
  lemma {:induction false} InsertStable(x: User, t: seq<User>, cfg: SortConfig, k: string)
    ensures WithKey(Insert(x, t, cfg), cfg.field, k) == WithKey([x] + t, cfg.field, k)
  {
    var p := HasKey(cfg.field, k);
    if t != [] && !InOrder(x, t[0], cfg) {
      var head, tail := t[0], t[1..];
      var rest := Insert(x, tail, cfg);
      assert Insert(x, t, cfg) == [head] + rest;
      assert [head] + tail == t;
      InOrderBothWays(x, head, cfg);
      InsertStable(x, tail, cfg, k);
      FilterCons(head, rest, p);
      FilterCons(head, [x] + tail, p);
      SwapAdjacent(head, x, tail, p);
    }
  }

  /** The sort is stable: records with equal keys keep their original relative order. */
  lemma {:induction false} SortStable(s: seq<User>, cfg: SortConfig, k: string)
    ensures WithKey(SortUsers(s, cfg), cfg.field, k) == WithKey(s, cfg.field, k)
  {
    if s != [] {
      var p := HasKey(cfg.field, k);
      var head, tail := s[0], s[1..];
      var sorted := SortUsers(tail, cfg);
      calc {
        WithKey(SortUsers(s, cfg), cfg.field, k);
        Filter(Insert(head, sorted, cfg), p);
        { InsertStable(head, sorted, cfg, k); }
        Filter([head] + sorted, p);
        { FilterConcat([head], sorted, p); }
        Filter([head], p) + Filter(sorted, p);
        { SortStable(tail, cfg, k); }
        Filter([head], p) + Filter(tail, p);
        { FilterConcat([head], tail, p); assert [head] + tail == s; }
        Filter(s, p);
      }
    }
  }

  // ---------------------------------------------------------------------------
  // The projection

  /** `filteredUsers`: the matching records, sorted by the configured field and direction. */
  function FilteredUsers(users: seq<User>, q: Query, cfg: SortConfig): (rows: seq<User>)
    ensures |rows| <= |users|
    ensures SortedBy(rows, cfg)
    ensures forall u :: u in rows <==> u in users && Matches(u, q)
  {
    var matching := Filter(users, MatchesQuery(q));
    FilterMembers(users, MatchesQuery(q));
    var sorted := SortUsers(matching, cfg);
    assert |sorted| == |multiset(sorted)| == |multiset(matching)| == |matching|;
    assert forall u :: u in sorted <==> u in multiset(matching);
    assert forall u :: MatchesQuery(q)(u) == Matches(u, q);
    sorted
  }

  /**
   * Every row is a matching store record, and every matching store record
   * appears as many times as the store holds it.
   */
  lemma ProjectionRows(users: seq<User>, q: Query, cfg: SortConfig)
    ensures forall u :: multiset(FilteredUsers(users, q, cfg))[u] == if Matches(u, q) then multiset(users)[u] else 0
  {
    FilterMultiset(users, MatchesQuery(q));
  }

  /** With distinct identifiers, each matching record is shown exactly once. */
  lemma ProjectionShowsOnce(users: seq<User>, q: Query, cfg: SortConfig, u: User)
    requires DistinctIds(users) && u in users && Matches(u, q)
    ensures multiset(FilteredUsers(users, q, cfg))[u] == 1
  {
    ProjectionRows(users, q, cfg);
    DistinctOccursOnce(users, u);
  }

  /** With no search text and both filters off, the rows are a permutation of the store. */
  lemma ProjectionOfNoQuery(users: seq<User>, cfg: SortConfig)
    ensures multiset(FilteredUsers(users, NoQuery, cfg)) == multiset(users)
  {
    forall u | u in users ensures MatchesQuery(NoQuery)(u) {
      NoQueryMatchesAll(u);
    }
    FilterAll(users, MatchesQuery(NoQuery));
  }

  /** Matching records with equal sort keys appear in store order. */
  lemma ProjectionStable(users: seq<User>, q: Query, cfg: SortConfig, k: string)
    ensures WithKey(FilteredUsers(users, q, cfg), cfg.field, k)
         == WithKey(Filter(users, MatchesQuery(q)), cfg.field, k)
  {
    SortStable(Filter(users, MatchesQuery(q)), cfg, k);
  }

  /** The projection depends on the search text only through its lower-cased form. */
  lemma ProjectionIgnoresSearchCase(users: seq<User>, q: Query, cfg: SortConfig)
    ensures FilteredUsers(users, q, cfg) == FilteredUsers(users, q.(search := ToLower(q.search)), cfg)
  {
    var q' := q.(search := ToLower(q.search));
    forall u | u in users ensures MatchesQuery(q)(u) == MatchesQuery(q')(u) {
      SearchIgnoresCase(u, q);
    }
    FilterAgree(users, MatchesQuery(q), MatchesQuery(q'));
  }

  // ---------------------------------------------------------------------------
  // The page's state: the edit slot and the staged cell values

  const AllFields: set<Field> := {Name, Email, Role, Status}

  /** The value each cell of a row starts from: `useState(user[field])`. */
  function CellValues(u: User): (cells: map<Field, string>)
    ensures cells.Keys == AllFields
    ensures forall f :: f in cells ==> cells[f] == FieldOf(u, f)
  {
    map[Name := u.name, Email := u.email, Role := u.role, Status := u.status]
  }

  class ManageUsersPage {
    const sortConfig: SortConfig
    /** `editingUser`: the identifier of the one row in edit mode, if any. */
    var editingUser: Option<string>
    /** The `value` state of the edited row's cells. */
    var staged: map<Field, string>

    ghost predicate Valid()
      reads this
    {
      && sortConfig == PageSort
      && (editingUser.None? ==> staged == map[])
      && (editingUser.Some? ==> staged.Keys == AllFields)
    }

    /** Whether a row's cells render as inputs. */
    predicate IsEditing(u: User)
      reads this
    {
      editingUser == Some(u.id)
    }

    constructor ()
      ensures Valid()
      ensures editingUser == None
    {
      sortConfig := PageSort;
      editingUser := None;
      staged := map[];
    }

    /** The rows the table shows for the current store and inputs; nothing changes. */
    method Rows(store: UserStore, q: Query) returns (rows: seq<User>)
      requires Valid()
      ensures rows == FilteredUsers(store.users, q, PageSort)
      ensures forall u :: u in rows <==> u in store.users && Matches(u, q)
    {
      rows := FilteredUsers(store.users, q, sortConfig);
    }

    /**
     * The row's edit button: `setEditingUser(user.id)`. Switching to another row
     * mounts its cells again from the record, so whatever was staged is gone;
     * clicking the row already being edited sets the same value, the page is not
     * rendered again, and the staged values stay.
     */
    method StartEdit(u: User)
      requires Valid()
      modifies this
      ensures Valid()
      ensures editingUser == Some(u.id)
      ensures staged == if old(editingUser) == Some(u.id) then old(staged) else CellValues(u)
      ensures forall v: User :: IsEditing(v) <==> v.id == u.id
    {
      if editingUser != Some(u.id) {
        editingUser := Some(u.id);
        staged := CellValues(u);
      }
    }

    /** An edited cell's `onChange`: only that cell's staged value changes. */
    method Stage(f: Field, value: string)
      requires Valid() && editingUser.Some?
      modifies this
      ensures Valid()
      ensures editingUser == old(editingUser)
      ensures staged == old(staged)[f := value]
    {
      staged := staged[f := value];
    }

    /**
     * `handleSave`: writes the row's record back with only field `f` replaced by
     * its staged value, then leaves edit mode.
     */
    method Save(store: UserStore, user: User, f: Field)
      requires Valid() && store.Valid()
      requires IsEditing(user)
      modifies this, store
      ensures Valid() && store.Valid()
      ensures store.users == ReplaceById(old(store.users), WithField(user, f, old(staged)[f]))
      ensures editingUser == None
    {
      var changed := WithField(user, f, staged[f]);
      store.UpdateUser(changed);
      editingUser := None;
      staged := map[];
    }

    /** The cancel button: leaves edit mode; the store is not touched. */
    method Cancel()
      requires Valid()
      modifies this
      ensures Valid()
      ensures editingUser == None
    {
      editingUser := None;
      staged := map[];
    }

    /** `handleDelete`: deletes only when the confirmation dialog answered yes. */
    method HandleDelete(store: UserStore, id: string, confirmed: bool)
      requires store.Valid()
      modifies store
      ensures store.Valid()
      ensures store.users == if confirmed then RemoveById(old(store.users), id) else old(store.users)
    {
      if confirmed {
        store.DeleteUser(id);
      }
    }
  }

  /**
   * Saving a cell changes exactly that field of exactly the records with the
   * row's identifier; identifiers, positions and every other record stay.
   */
  lemma SaveChangesOneField(users: seq<User>, user: User, f: Field, value: string, i: int)
    requires 0 <= i < |users|
    ensures ReplaceById(users, WithField(user, f, value))[i].id == users[i].id
    ensures users[i].id != user.id ==> ReplaceById(users, WithField(user, f, value))[i] == users[i]
    ensures users[i] == user ==>
      var r := ReplaceById(users, WithField(user, f, value))[i];
      FieldOf(r, f) == value && r.profilePhoto == user.profilePhoto &&
      forall g :: g != f ==> FieldOf(r, g) == FieldOf(user, g)
  {
  }

  lemma SortOne(u: User, cfg: SortConfig)
    ensures SortUsers([u], cfg) == [u]
  {
    assert [u][1..] == [];
  }

  /** A text without the letter 'a' in either case does not contain "an", ignoring case. */
  lemma NoAnWithoutA(hay: string)
    requires forall i :: 0 <= i < |hay| ==> hay[i] !in "aA"
    ensures !Includes(ToLower(hay), ToLower("an"))
  {
    var low := ToLower(hay);
    ToLowerNoCapitals("an");
    forall i | 0 <= i <= |low| - 2 ensures !OccursAt(low, "an", i) {
      assert low[i..i + 2][0] == low[i] != 'a' == "an"[0];
    }
  }

  /** Of two records exactly one of which matches, the projection shows just that one. */
  lemma OneOfTwoMatches(a: User, b: User, q: Query, cfg: SortConfig)
    requires Matches(a, q) != Matches(b, q)
    ensures FilteredUsers([a, b], q, cfg) == if Matches(a, q) then [a] else [b]
  {
    FilterConcat([a], [b], MatchesQuery(q));
    FilterSingleton(a, MatchesQuery(q));
    FilterSingleton(b, MatchesQuery(q));
    assert [a] + [b] == [a, b];
    var kept := if Matches(a, q) then [a] else [b];
    assert Filter([a, b], MatchesQuery(q)) == kept;
    SortOne(a, cfg);
    SortOne(b, cfg);
    assert FilteredUsers([a, b], q, cfg) == SortUsers(kept, cfg);
  }

  lemma AnnMatchesAn(ann: User)
    requires ann == User("1", "Ann", "ann@x.com", "User", "Active", "")
    ensures Matches(ann, Query("an", NoFilter, NoFilter))
  {
    ToLowerNoCapitals("an");
    assert ToLower("Ann")[0] == 'a';
    assert ToLower("Ann") == "ann";
    assert OccursAt("ann", "an", 0);
  }

  /** A record with no letter 'a' in its name or email does not match the search "an". */
  lemma NoAnNoMatch(u: User)
    requires forall i :: 0 <= i < |u.name| ==> u.name[i] !in "aA"
    requires forall i :: 0 <= i < |u.email| ==> u.email[i] !in "aA"
    ensures !MatchesSearch(u, "an")
  {
    NoAnWithoutA(u.name);
    NoAnWithoutA(u.email);
  }

  lemma BobMissesAn(bob: User)
    requires bob == User("2", "Bob", "bob@x.com", "Admin", "Inactive", "")
    ensures !Matches(bob, Query("an", NoFilter, NoFilter))
  {
    NoAnNoMatch(bob);
  }

  /** Searching "an" among Ann and Bob shows only Ann. */
  lemma SearchScenario(ann: User, bob: User)
    requires ann == User("1", "Ann", "ann@x.com", "User", "Active", "")
    requires bob == User("2", "Bob", "bob@x.com", "Admin", "Inactive", "")
    ensures FilteredUsers([ann, bob], Query("an", NoFilter, NoFilter), PageSort) == [ann]
  {
    AnnMatchesAn(ann);
    BobMissesAn(bob);
    OneOfTwoMatches(ann, bob, Query("an", NoFilter, NoFilter), PageSort);
  }

  /** Filtering Ann and Bob by the role "Admin" shows only Bob. */
  lemma RoleFilterScenario(ann: User, bob: User)
    requires ann == User("1", "Ann", "ann@x.com", "User", "Active", "")
    requires bob == User("2", "Bob", "bob@x.com", "Admin", "Inactive", "")
    ensures FilteredUsers([ann, bob], Query("", "Admin", NoFilter), PageSort) == [bob]
  {
    var q := Query("", "Admin", NoFilter);
    NoQueryMatchesAll(bob);
    assert Matches(bob, q);
    OneOfTwoMatches(ann, bob, q, PageSort);
  }

  /**
   * Editing Ann's name to "Anna": cancelling leaves the store as it was,
   * saving replaces her record by one whose only change is the name.
   */
  method EditScenario(store: UserStore, page: ManageUsersPage, ann: User, bob: User, save: bool)
    requires store.Valid() && page.Valid()
    requires ann.id != bob.id && store.users == [ann, bob]
    modifies store, page
    ensures store.Valid() && page.editingUser.None?
    ensures !save ==> store.users == [ann, bob]
    ensures save ==> store.users == [ann.(name := "Anna"), bob]
  {
    page.StartEdit(ann);
    page.Stage(Name, "Anna");
    if save {
      page.Save(store, ann, Name);
    } else {
      page.Cancel();
    }
  }
}
