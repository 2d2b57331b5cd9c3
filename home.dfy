/** The dashboard: the three metric tiles and the profile list with its empty state. */
module Home {
  import opened Seqs
  import opened Users

  const Active: string := "Active"
  const Inactive: string := "Inactive"

  function HasStatus(status: string): User -> bool {
    (u: User) => u.status == status
  }

  /** The numbers on the three tiles. */
  datatype Metrics = Metrics(total: nat, active: nat, inactive: nat)

  /**
   * "Total Users" is the collection length; "Active Users" and "Inactive Users"
   * count the records filtered by that status.
   */
  function DashboardMetrics(users: seq<User>): (m: Metrics)
    ensures m.total == |users|
    ensures m.active + m.inactive <= m.total
    ensures (forall u :: u in users ==> u.status in {Active, Inactive}) ==> m.active + m.inactive == m.total
    ensures m.active == 0 <==> forall u :: u in users ==> u.status != Active
    ensures m.inactive == 0 <==> forall u :: u in users ==> u.status != Inactive
  {
    FilterDisjointLength(users, HasStatus(Active), HasStatus(Inactive));
    FilterMembers(users, HasStatus(Active));
    FilterMembers(users, HasStatus(Inactive));
    var active := Filter(users, HasStatus(Active));
    var inactive := Filter(users, HasStatus(Inactive));
    assert active != [] ==> active[0] in active;
    assert inactive != [] ==> inactive[0] in inactive;
    Metrics(|users|, |active|, |inactive|)
  }

  /** The number of records with the given status, counted one record at a time. */
  function CountWithStatus(users: seq<User>, status: string): nat {
    if users == [] then 0
    else (if users[0].status == status then 1 else 0) + CountWithStatus(users[1..], status)
  }

  lemma {:induction false} FilterCountsStatus(users: seq<User>, status: string)
    ensures |Filter(users, HasStatus(status))| == CountWithStatus(users, status)
  {
    if users != [] {
      FilterCountsStatus(users[1..], status);
    }
  }

  /** The "Active Users" and "Inactive Users" tiles show how many records carry that status. */
  lemma TilesCountRecords(users: seq<User>)
    ensures DashboardMetrics(users).active == CountWithStatus(users, Active)
    ensures DashboardMetrics(users).inactive == CountWithStatus(users, Inactive)
  {
    FilterCountsStatus(users, Active);
    FilterCountsStatus(users, Inactive);
  }

  /**
   * The records a status tile counts: every occurrence of a record with that
   * status, and nothing else.
   */
  lemma StatusCountsOccurrences(users: seq<User>, status: string)
    ensures forall u :: multiset(Filter(users, HasStatus(status)))[u]
                        == if u.status == status then multiset(users)[u] else 0
  {
    FilterMultiset(users, HasStatus(status));
  }

  /** Adding a record raises the total by one and the tile of its status by one. */
  lemma MetricsAfterAdd(users: seq<User>, added: User)
    ensures DashboardMetrics(users + [added]).total == DashboardMetrics(users).total + 1
    ensures DashboardMetrics(users + [added]).active
         == DashboardMetrics(users).active + (if added.status == Active then 1 else 0)
    ensures DashboardMetrics(users + [added]).inactive
         == DashboardMetrics(users).inactive + (if added.status == Inactive then 1 else 0)
  {
    FilterConcat(users, [added], HasStatus(Active));
    FilterConcat(users, [added], HasStatus(Inactive));
    FilterSingleton(added, HasStatus(Active));
    FilterSingleton(added, HasStatus(Inactive));
  }

  /** What `UsersSection` renders: the "No users yet" panel, or one card per record. */
  datatype UsersView = NoUsersYet | Profiles(cards: seq<User>)

  function UsersSection(users: seq<User>): (v: UsersView)
    ensures v.NoUsersYet? <==> |users| == 0
    ensures v.Profiles? ==> |v.cards| == |users| && forall i :: 0 <= i < |users| ==> v.cards[i] == users[i]
  {
    if |users| == 0 then NoUsersYet else Profiles(users)
  }
}
