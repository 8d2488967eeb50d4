/**
 The single highest customer access role of a user, computed by a loop for the list page and by
 composed filters for the `?access_role=` query.
 */
module AccessRoles {
  import opened Sequences

  /** Roles are stored as text; only the three known ones have a rank. */
  datatype AccessRole = CustomerUser | LocationManager | CompanyAdmin | Unknown(text: string)

  datatype Grant = Grant(role: AccessRole, isActive: bool)

  datatype Membership = Membership(company: nat, isCompanyAdmin: bool, grants: seq<Grant>)

  function Rank(role: AccessRole): nat {
    match role
    case CustomerUser => 1
    case LocationManager => 2
    case CompanyAdmin => 3
    case Unknown(_) => 0
  }

  /** The viewer's companies; None is a super admin, who sees every company. */
  predicate InScope(m: Membership, scope: Option<set<nat>>) {
    scope.None? || m.company in scope.value
  }

  // ----- The filters -----

  predicate Holds(m: Membership, scope: Option<set<nat>>, role: AccessRole) {
    InScope(m, scope) && exists j :: 0 <= j < |m.grants| && m.grants[j].isActive && m.grants[j].role == role
  }

  predicate GrantExists(memberships: seq<Membership>, scope: Option<set<nat>>, role: AccessRole) {
    exists i :: 0 <= i < |memberships| && Holds(memberships[i], scope, role)
  }

  predicate FlagExists(memberships: seq<Membership>, scope: Option<set<nat>>) {
    exists i :: 0 <= i < |memberships| && InScope(memberships[i], scope) && memberships[i].isCompanyAdmin
  }

  /** Whether the user passes `?access_role=requested`. */
  predicate Selected(memberships: seq<Membership>, scope: Option<set<nat>>, requested: AccessRole) {
    match requested
    case CompanyAdmin => GrantExists(memberships, scope, CompanyAdmin) || FlagExists(memberships, scope)
    case LocationManager =>
      && GrantExists(memberships, scope, LocationManager)
      && !GrantExists(memberships, scope, CompanyAdmin)
      && !FlagExists(memberships, scope)
    case CustomerUser =>
      && GrantExists(memberships, scope, CustomerUser)
      && !GrantExists(memberships, scope, LocationManager)
      && !GrantExists(memberships, scope, CompanyAdmin)
      && !FlagExists(memberships, scope)
    case Unknown(_) => false
  }

  /** The role the filters put a user in, if any. */
  function BucketOf(memberships: seq<Membership>, scope: Option<set<nat>>): Option<AccessRole> {
    if Selected(memberships, scope, CompanyAdmin) then Some(CompanyAdmin)
    else if Selected(memberships, scope, LocationManager) then Some(LocationManager)
    else if Selected(memberships, scope, CustomerUser) then Some(CustomerUser)
    else None
  }

  /** The buckets are disjoint, and together hold exactly the users with an in-scope flag or an
      active in-scope grant of a known role. */
  lemma BucketsPartition(memberships: seq<Membership>, scope: Option<set<nat>>, role: AccessRole)
    ensures Selected(memberships, scope, role) <==> BucketOf(memberships, scope) == Some(role)
    ensures BucketOf(memberships, scope).Some?
            <==> FlagExists(memberships, scope)
                 || exists r :: Rank(r) > 0 && GrantExists(memberships, scope, r)
  {}

  /** What a viewer can see of a user: the flag and the active grants of the memberships in the viewer's
      companies. The role is the highest of these, and is given in their terms alone. */
  lemma RoleIsHighestVisible(memberships: seq<Membership>, scope: Option<set<nat>>)
    ensures var flagged := exists m :: m in memberships && (scope.None? || m.company in scope.value)
                                       && m.isCompanyAdmin;
            var admin := Grants(memberships, scope, CompanyAdmin);
            var manager := Grants(memberships, scope, LocationManager);
            var user := Grants(memberships, scope, CustomerUser);
            BucketOf(memberships, scope)
            == if flagged || admin then Some(CompanyAdmin)
               else if manager then Some(LocationManager)
               else if user then Some(CustomerUser)
               else None
  {
    hide Holds;
    forall role ensures GrantExists(memberships, scope, role) <==> Grants(memberships, scope, role) {
      GrantIsVisible(memberships, scope, role);
    }
  }

  ghost predicate Grants(memberships: seq<Membership>, scope: Option<set<nat>>, role: AccessRole) {
    exists m, g :: m in memberships && (scope.None? || m.company in scope.value)
                   && g in m.grants && g.isActive && g.role == role
  }

  lemma GrantIsVisible(memberships: seq<Membership>, scope: Option<set<nat>>, role: AccessRole)
    ensures GrantExists(memberships, scope, role) <==> Grants(memberships, scope, role)
  {
    if GrantExists(memberships, scope, role) {
      var i :| 0 <= i < |memberships| && Holds(memberships[i], scope, role);
      var j :| 0 <= j < |memberships[i].grants| && memberships[i].grants[j].isActive
               && memberships[i].grants[j].role == role;
      assert memberships[i] in memberships && memberships[i].grants[j] in memberships[i].grants;
    }
    if Grants(memberships, scope, role) {
      var m, g :| m in memberships && (scope.None? || m.company in scope.value)
                  && g in m.grants && g.isActive && g.role == role;
      var i :| 0 <= i < |memberships| && memberships[i] == m;
      assert Holds(memberships[i], scope, role);
    }
  }

  /** Memberships of companies the viewer does not see make no difference: added, removed or altered, in
      any order, they leave the role as it is. */
  lemma HiddenMembershipsDoNotMatter(a: seq<Membership>, b: seq<Membership>, scope: Option<set<nat>>)
    requires forall m: Membership :: (scope.None? || m.company in scope.value) ==> (m in a <==> m in b)
    ensures BucketOf(a, scope) == BucketOf(b, scope)
    ensures forall role :: Selected(a, scope, role) <==> Selected(b, scope, role)
  {
    hide BucketOf, Selected;
    RoleIsHighestVisible(a, scope);
    RoleIsHighestVisible(b, scope);
    forall role ensures Selected(a, scope, role) <==> Selected(b, scope, role) {
      BucketsPartition(a, scope, role);
      BucketsPartition(b, scope, role);
    }
  }

  // ----- The loop -----

  /** The best rank among the active in-scope grants of a prefix, with its role. */
  ghost predicate Best(memberships: seq<Membership>, scope: Option<set<nat>>, rank: nat, role: Option<AccessRole>) {
    && rank == (match role case None => 0 case Some(r) => Rank(r))
    && (role.Some? ==> rank > 0 && GrantExists(memberships, scope, role.value))
    && forall r :: GrantExists(memberships, scope, r) ==> Rank(r) <= rank
  }

  lemma NoFlagBestIsBucket(memberships: seq<Membership>, scope: Option<set<nat>>, rank: nat, role: Option<AccessRole>)
    requires Best(memberships, scope, rank, role) && !FlagExists(memberships, scope)
    ensures role == BucketOf(memberships, scope)
  {}

  lemma OneMoreMembership(memberships: seq<Membership>, m: Membership, scope: Option<set<nat>>)
    ensures forall r :: GrantExists(memberships + [m], scope, r)
                        <==> GrantExists(memberships, scope, r) || Holds(m, scope, r)
    ensures FlagExists(memberships + [m], scope)
            <==> FlagExists(memberships, scope) || (InScope(m, scope) && m.isCompanyAdmin)
  {
    hide Holds, InScope;
    var all := memberships + [m];
    assert all[|memberships|] == m && forall i :: 0 <= i < |memberships| ==> all[i] == memberships[i];
    forall r ensures GrantExists(all, scope, r) <==> GrantExists(memberships, scope, r) || Holds(m, scope, r) {
      if GrantExists(memberships, scope, r) {
        var i :| 0 <= i < |memberships| && Holds(memberships[i], scope, r);
        assert Holds(all[i], scope, r);
      }
      if Holds(m, scope, r) {
        assert Holds(all[|memberships|], scope, r);
      }
    }
    if FlagExists(memberships, scope) {
      var i :| 0 <= i < |memberships| && InScope(memberships[i], scope) && memberships[i].isCompanyAdmin;
      assert all[i].isCompanyAdmin;
    }
  }

  function FirstGrants(m: Membership, j: nat): Membership
    requires j <= |m.grants|
  {
    m.(grants := m.grants[..j])
  }

  lemma OneMoreGrant(m: Membership, scope: Option<set<nat>>, j: nat, r: AccessRole)
    requires j < |m.grants|
    ensures Holds(FirstGrants(m, j + 1), scope, r)
            <==> Holds(FirstGrants(m, j), scope, r)
                 || (InScope(m, scope) && m.grants[j].isActive && m.grants[j].role == r)
  {
    var before, after := FirstGrants(m, j), FirstGrants(m, j + 1);
    assert after.grants == before.grants + [m.grants[j]];
    if Holds(before, scope, r) {
      var k :| 0 <= k < j && before.grants[k].isActive && before.grants[k].role == r;
      assert after.grants[k] == before.grants[k];
    }
    if m.grants[j].isActive && m.grants[j].role == r {
      assert after.grants[j] == m.grants[j];
    }
    if Holds(after, scope, r) {
      var k :| 0 <= k <= j && after.grants[k].isActive && after.grants[k].role == r;
      assert k < j ==> before.grants[k] == after.grants[k];
    }
  }

  /** The loop's state after some memberships and the first `j` grants of the next. */
  ghost predicate BestSoFar(memberships: seq<Membership>, m: Membership, j: nat, scope: Option<set<nat>>,
                            rank: nat, role: Option<AccessRole>)
    requires j <= |m.grants|
  {
    Best(memberships + [FirstGrants(m, j)], scope, rank, role)
  }

  lemma NextGrant(memberships: seq<Membership>, m: Membership, j: nat, scope: Option<set<nat>>,
                  rank: nat, role: Option<AccessRole>)
    requires j < |m.grants| && InScope(m, scope) && BestSoFar(memberships, m, j, scope, rank, role)
    ensures var g := m.grants[j];
            if g.isActive && Rank(g.role) > rank
            then BestSoFar(memberships, m, j + 1, scope, Rank(g.role), Some(g.role))
            else BestSoFar(memberships, m, j + 1, scope, rank, role)
  {
    hide GrantExists, Holds, InScope;
    var before, after := memberships + [FirstGrants(m, j)], memberships + [FirstGrants(m, j + 1)];
    OneMoreMembership(memberships, FirstGrants(m, j), scope);
    OneMoreMembership(memberships, FirstGrants(m, j + 1), scope);
    forall r ensures GrantExists(after, scope, r)
                     <==> GrantExists(before, scope, r) || (m.grants[j].isActive && m.grants[j].role == r)
    {
      OneMoreGrant(m, scope, j, r);
    }
  }

  lemma NoGrantsYet(memberships: seq<Membership>, m: Membership, scope: Option<set<nat>>,
                    rank: nat, role: Option<AccessRole>)
    requires Best(memberships, scope, rank, role)
    ensures BestSoFar(memberships, m, 0, scope, rank, role)
    ensures !InScope(m, scope) ==> Best(memberships + [m], scope, rank, role)
  {
    hide GrantExists;
    OneMoreMembership(memberships, FirstGrants(m, 0), scope);
    OneMoreMembership(memberships, m, scope);
  }

  lemma FlagDecides(memberships: seq<Membership>, i: nat, scope: Option<set<nat>>)
    requires i < |memberships| && InScope(memberships[i], scope) && memberships[i].isCompanyAdmin
    ensures BucketOf(memberships, scope) == Some(CompanyAdmin)
  {}

  /** `get_customer_access_role`: early return on a company-admin flag, otherwise the highest rank.
      Its answer is the one role whose filter selects the user. */
  method GetCustomerAccessRole(memberships: seq<Membership>, scope: Option<set<nat>>) returns (best: Option<AccessRole>)
    ensures best == BucketOf(memberships, scope)
    ensures forall role :: Selected(memberships, scope, role) <==> best == Some(role)
  {
    hide GrantExists, FlagExists, InScope, Best, BestSoFar, BucketOf, Selected;
    forall role ensures Selected(memberships, scope, role) <==> BucketOf(memberships, scope) == Some(role) {
      BucketsPartition(memberships, scope, role);
    }
    best := None;
    var bestRank := 0;
    NothingSeen(scope);
    assert memberships[..0] == [];
    for i := 0 to |memberships|
      invariant Best(memberships[..i], scope, bestRank, best)
      invariant !FlagExists(memberships[..i], scope)
    {
      var m := memberships[i];
      assert memberships[..i + 1] == memberships[..i] + [m];
      OneMoreMembership(memberships[..i], m, scope);
      NoGrantsYet(memberships[..i], m, scope, bestRank, best);
      if !InScope(m, scope) {
        continue;
      }
      if m.isCompanyAdmin {
        FlagDecides(memberships, i, scope);
        return Some(CompanyAdmin);
      }
      for j := 0 to |m.grants|
        invariant BestSoFar(memberships[..i], m, j, scope, bestRank, best)
      {
        NextGrant(memberships[..i], m, j, scope, bestRank, best);
        if !m.grants[j].isActive {
          continue;
        }
        var rank := Rank(m.grants[j].role);
        if rank > bestRank {
          bestRank := rank;
          best := Some(m.grants[j].role);
        }
      }
      AllGrants(memberships[..i], m, scope, bestRank, best);
    }
    assert memberships[..|memberships|] == memberships;
    NoFlagBestIsBucket(memberships, scope, bestRank, best);
  }

  lemma NothingSeen(scope: Option<set<nat>>)
    ensures Best([], scope, 0, None) && !FlagExists([], scope)
  {}

  lemma AllGrants(memberships: seq<Membership>, m: Membership, scope: Option<set<nat>>,
                  rank: nat, role: Option<AccessRole>)
    requires BestSoFar(memberships, m, |m.grants|, scope, rank, role)
    ensures Best(memberships + [m], scope, rank, role)
  {
    hide Best;
    assert FirstGrants(m, |m.grants|) == m;
  }
}
