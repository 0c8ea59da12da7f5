/** The per-request membership cache of allama/auth/credentials.py. */
module MembershipCache {
  import opened Prelude

  const MAX_CACHED_MEMBERSHIPS := 1000

  type UserId = nat
  type WorkspaceId = nat
  type OrgId = nat
  type Role = nat

  datatype Membership = Membership(user: UserId, workspace: WorkspaceId, role: Role)

  /** The membership table, keyed as in the database, and the workspaces' owners. */
  datatype Db = Db(members: map<(UserId, WorkspaceId), Role>, orgs: map<WorkspaceId, OrgId>)

  datatype MembershipWithOrg = MembershipWithOrg(membership: Membership, org: OrgId)

  /** The direct query: the membership joined with its workspace. */
  function GetMembership(db: Db, user: UserId, workspace: WorkspaceId): Option<MembershipWithOrg> {
    if (user, workspace) in db.members && workspace in db.orgs
    then Some(MembershipWithOrg(Membership(user, workspace, db.members[(user, workspace)]), db.orgs[workspace]))
    else None
  }

  /** All memberships of a user by workspace, without the join. */
  function ListUserMemberships(db: Db, user: UserId): map<WorkspaceId, Membership> {
    map key | key in db.members && key.0 == user :: key.1 := Membership(user, key.1, db.members[key])
  }

  datatype Cache = Cache(memberships: map<WorkspaceId, Membership>, checked: bool, userId: Option<UserId>)

  const FRESH_CACHE := Cache(map[], false, None)

  /** What a lookup answers and what it leaves in the cache. */
  function Lookup(db: Db, c: Cache, user: UserId, workspace: WorkspaceId): (Option<MembershipWithOrg>, Cache) {
    if workspace in c.memberships && c.memberships[workspace].user == user then
      (GetMembership(db, user, workspace), c)
    else if !c.checked then
      var all := ListUserMemberships(db, user);
      (GetMembership(db, user, workspace),
       if |all| > MAX_CACHED_MEMBERSHIPS then c else Cache(all, true, Some(user)))
    else if c.userId != Some(user) then
      (GetMembership(db, user, workspace), c)
    else
      (None, c)
  }

  /** The cache attached to a request by the middleware. */
  class RequestState {
    var memberships: map<WorkspaceId, Membership>
    var membershipChecked: bool
    var userId: Option<UserId>

    function Value(): Cache
      reads this
    {
      Cache(memberships, membershipChecked, userId)
    }

    constructor ()
      ensures Value() == FRESH_CACHE
    {
      memberships, membershipChecked, userId := map[], false, None;
    }

    method FindMembership(db: Db, user: UserId, workspace: WorkspaceId) returns (found: Option<MembershipWithOrg>)
      modifies this
      ensures (found, Value()) == Lookup(db, old(Value()), user, workspace)
      ensures old(membershipChecked) ==> Value() == old(Value())
      ensures Value() != old(Value()) ==>
                && membershipChecked && userId == Some(user)
                && (forall w :: w in memberships <==> (user, w) in db.members)
                && (forall w :: w in memberships ==> memberships[w] == Membership(user, w, db.members[(user, w)]))
    {
      forall w
        ensures w in ListUserMemberships(db, user) <==> (user, w) in db.members
      {
        ListedIffMember(db, user, w);
      }
      found := None;
      var cached := if workspace in memberships then Some(memberships[workspace]) else None;
      if cached.Some? && cached.value.user == user {
        found := GetMembership(db, user, workspace);
      } else if !membershipChecked {
        var all := ListUserMemberships(db, user);
        if |all| > MAX_CACHED_MEMBERSHIPS {
          found := GetMembership(db, user, workspace);
        } else {
          userId := Some(user);
          memberships := all;
          membershipChecked := true;
          found := GetMembership(db, user, workspace);
        }
      } else if userId != Some(user) {
        found := GetMembership(db, user, workspace);
      }
    }
  }

  // ------------------------------------------------- one lookup

  /** A cache is either unloaded or holds memberships of one user only. */
  ghost predicate Coherent(c: Cache) {
    if c.checked then c.userId.Some? && forall w :: w in c.memberships ==> c.memberships[w].user == c.userId.value
    else c.memberships == map[]
  }

  /** The cache answers "not a member" on its own. */
  ghost predicate Refuses(c: Cache, user: UserId, workspace: WorkspaceId) {
    c.checked && c.userId == Some(user) && workspace !in c.memberships
  }

  /** Whatever the tables hold by now, the cached path grants only what the direct query
      grants, and it differs from it exactly when the loaded cache refuses a membership
      that has come into being since. */
  lemma LookupAgainstQuery(db: Db, c: Cache, user: UserId, workspace: WorkspaceId)
    requires Coherent(c)
    ensures Coherent(Lookup(db, c, user, workspace).1)
    ensures var (found, _) := Lookup(db, c, user, workspace);
            found.Some? ==>
              && (user, workspace) in db.members && workspace in db.orgs
              && found.value.membership == Membership(user, workspace, db.members[(user, workspace)])
              && found.value.org == db.orgs[workspace]
    ensures var (found, _) := Lookup(db, c, user, workspace);
            found.None? ==> (user, workspace) !in db.members || workspace !in db.orgs || Refuses(c, user, workspace)
    ensures var (found, _) := Lookup(db, c, user, workspace);
            && (found.Some? ==> found == GetMembership(db, user, workspace))
            && (found == GetMembership(db, user, workspace) <==>
                  !(Refuses(c, user, workspace) && GetMembership(db, user, workspace).Some?))
  {
  }

  /** A loaded cache is never changed again. */
  lemma LoadedCacheStays(db: Db, c: Cache, user: UserId, workspace: WorkspaceId)
    requires c.checked
    ensures Lookup(db, c, user, workspace).1 == c
  {
  }

  // ------------------------------------------------- runs of lookups

  /** A lookup against the tables as they are at its time. */
  datatype Request = Request(db: Db, user: UserId, workspace: WorkspaceId)

  ghost function CacheAfter(run: seq<Request>): Cache {
    if run == [] then FRESH_CACHE
    else var r := run[|run| - 1];
         Lookup(r.db, CacheAfter(run[..|run| - 1]), r.user, r.workspace).1
  }

  /** The answer to the `i`-th lookup of a run sharing one cache. */
  ghost function AnswerAt(run: seq<Request>, i: nat): Option<MembershipWithOrg>
    requires i < |run|
  {
    Lookup(run[i].db, CacheAfter(run[..i]), run[i].user, run[i].workspace).0
  }

  /** The cache is as fresh as if the tables had not changed since they were `db`. */
  ghost predicate LoadedFrom(c: Cache, db: Db) {
    Coherent(c) && (c.checked ==> c.memberships == ListUserMemberships(db, c.userId.value))
  }

  lemma {:induction false} CacheStaysCoherent(run: seq<Request>)
    ensures Coherent(CacheAfter(run))
  {
    if run != [] {
      CacheStaysCoherent(run[..|run| - 1]);
    }
  }

  lemma {:induction false} CacheStaysLoaded(run: seq<Request>, db: Db)
    requires forall i :: 0 <= i < |run| ==> run[i].db == db
    ensures LoadedFrom(CacheAfter(run), db)
  {
    if run != [] {
      CacheStaysLoaded(run[..|run| - 1], db);
    }
  }

  lemma ListedIffMember(db: Db, user: UserId, workspace: WorkspaceId)
    ensures workspace in ListUserMemberships(db, user) <==> (user, workspace) in db.members
  {
    if (user, workspace) in db.members {
      assert (user, workspace).0 == user;
    }
  }

  /** As long as the tables do not change, every lookup of a run over any users and
      workspaces answers as the direct query does. */
  lemma CachedRunEqualsQueries(run: seq<Request>, i: nat)
    requires i < |run| && forall k :: 0 <= k < |run| ==> run[k].db == run[0].db
    ensures AnswerAt(run, i) == GetMembership(run[i].db, run[i].user, run[i].workspace)
  {
    var db, c := run[i].db, CacheAfter(run[..i]);
    CacheStaysLoaded(run[..i], db);
    LookupAgainstQuery(db, c, run[i].user, run[i].workspace);
    ListedIffMember(db, run[i].user, run[i].workspace);
  }

  /** Even when the tables change between lookups, no lookup grants what the direct query
      would refuse at that time. */
  lemma CachedRunIsSound(run: seq<Request>, i: nat)
    requires i < |run|
    ensures AnswerAt(run, i).Some? ==>
              AnswerAt(run, i) == GetMembership(run[i].db, run[i].user, run[i].workspace)
  {
    CacheStaysCoherent(run[..i]);
    LookupAgainstQuery(run[i].db, CacheAfter(run[..i]), run[i].user, run[i].workspace);
  }

  /** The lookup can load the cache: its user's memberships fit. */
  ghost predicate Loads(r: Request) {
    |ListUserMemberships(r.db, r.user)| <= MAX_CACHED_MEMBERSHIPS
  }

  ghost function WorkspacesOf(db: Db, user: UserId): set<WorkspaceId> {
    set key | key in db.members && key.0 == user :: key.1
  }

  lemma ListedWorkspaces(db: Db, user: UserId)
    ensures ListUserMemberships(db, user).Keys == WorkspacesOf(db, user)
  {
    forall w
      ensures w in ListUserMemberships(db, user) <==> w in WorkspacesOf(db, user)
    {
      ListedIffMember(db, user, w);
      if w in WorkspacesOf(db, user) {
        var key :| key in db.members && key.0 == user && key.1 == w;
        assert key == (user, w);
      }
      if (user, w) in db.members {
        assert (user, w).0 == user && (user, w).1 == w;
      }
    }
  }

  /** That is, the user has at most 1000. */
  lemma LoadsUpToLimit(r: Request)
    ensures Loads(r) <==> |WorkspacesOf(r.db, r.user)| <= 1000
  {
    ListedWorkspaces(r.db, r.user);
    assert |ListUserMemberships(r.db, r.user)| == |ListUserMemberships(r.db, r.user).Keys|;
  }

  ghost predicate FirstLoad(run: seq<Request>, j: nat) {
    j < |run| && Loads(run[j]) && forall k :: 0 <= k < j ==> !Loads(run[k])
  }

  lemma {:induction false} FreshUntilLoad(run: seq<Request>)
    requires forall k :: 0 <= k < |run| ==> !Loads(run[k])
    ensures CacheAfter(run) == FRESH_CACHE
  {
    if run != [] {
      FreshUntilLoad(run[..|run| - 1]);
    }
  }

  /** The first lookup that can load the cache does, and nothing changes it any more. */
  lemma {:induction false} LoadedByFirst(run: seq<Request>, j: nat)
    requires FirstLoad(run, j)
    ensures CacheAfter(run) == Cache(ListUserMemberships(run[j].db, run[j].user), true, Some(run[j].user))
  {
    var prefix := run[..|run| - 1];
    if j == |run| - 1 {
      FreshUntilLoad(prefix);
    } else {
      LoadedByFirst(prefix, j);
      var r := run[|run| - 1];
      LoadedCacheStays(r.db, CacheAfter(prefix), r.user, r.workspace);
    }
  }

  lemma {:induction false} FindFirstLoad(run: seq<Request>) returns (j: nat)
    ensures FirstLoad(run, j) || (j == |run| && forall k :: 0 <= k < |run| ==> !Loads(run[k]))
  {
    j := 0;
    if run != [] {
      j := FindFirstLoad(run[..|run| - 1]);
      if j == |run| - 1 && !Loads(run[j]) {
        j := |run|;
      }
    }
  }

  /** After a run the cache refuses a membership on its own exactly if the lookup that
      loaded it was for the same user and the membership did not exist then. */
  lemma RefusalIsStale(run: seq<Request>, user: UserId, workspace: WorkspaceId)
    ensures Refuses(CacheAfter(run), user, workspace) <==>
              exists j: nat :: FirstLoad(run, j) && run[j].user == user && (user, workspace) !in run[j].db.members
  {
    var j := FindFirstLoad(run);
    if FirstLoad(run, j) {
      LoadedByFirst(run, j);
      ListedIffMember(run[j].db, run[j].user, workspace);
      forall k: nat | FirstLoad(run, k)
        ensures k == j
      {
      }
    } else {
      FreshUntilLoad(run);
    }
  }

  /** Up to the lookup that loads the cache every answer is that of the direct query. */
  lemma AnswerBeforeLoad(run: seq<Request>, i: nat)
    requires i < |run| && forall k :: 0 <= k < i ==> !Loads(run[k])
    ensures AnswerAt(run, i) == GetMembership(run[i].db, run[i].user, run[i].workspace)
  {
    FreshUntilLoad(run[..i]);
  }

  /** After lookup `j` has loaded the cache, an answer differs from the direct query
      exactly for the user of `j` and a membership that `j` did not find listed but that
      exists by now. */
  lemma AnswerAfterLoad(run: seq<Request>, j: nat, i: nat)
    requires j < i < |run| && FirstLoad(run, j)
    ensures var direct := GetMembership(run[i].db, run[i].user, run[i].workspace);
            AnswerAt(run, i) == direct <==>
              !(&& run[i].user == run[j].user
                && (run[i].user, run[i].workspace) !in run[j].db.members
                && direct.Some?)
  {
    assert run[..i][j] == run[j];
    LoadedByFirst(run[..i], j);
    CacheStaysCoherent(run[..i]);
    LookupAgainstQuery(run[i].db, CacheAfter(run[..i]), run[i].user, run[i].workspace);
    ListedIffMember(run[j].db, run[j].user, run[i].workspace);
  }

  /** Two lookups of one request between which the user joins the workspace: the second
      one is refused. */
  lemma JoiningIsMissed(user: UserId, workspace: WorkspaceId, org: OrgId, role: Role) returns (run: seq<Request>)
    ensures |run| == 2 && run[0].user == run[1].user == user && run[0].workspace == run[1].workspace == workspace
    ensures AnswerAt(run, 1) == None
    ensures GetMembership(run[1].db, user, workspace) == Some(MembershipWithOrg(Membership(user, workspace, role), org))
  {
    var orgs := map[workspace := org];
    run := [Request(Db(map[], orgs), user, workspace),
            Request(Db(map[(user, workspace) := role], orgs), user, workspace)];
    assert ListUserMemberships(run[0].db, user) == map[];
    AnswerAfterLoad(run, 0, 1);
    CachedRunIsSound(run, 1);
  }
}
