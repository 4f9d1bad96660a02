/**
 * The rows of the multi-tenant scripts: the user copy and the table copy of
 * scripts/migrate-to-multitenant.ts, and the completion of scripts/enable-multitenant.ts.
 */
module Tenants {
  import opened Sequences

  /** The roles the hub's schema accepts, and any other text an older database may hold. */
  datatype Role = Superadmin | Admin | Viewer | Other(text: string)

  datatype User = User(id: nat, username: string, passwordHash: string, role: Role)

  datatype Access = Access(userId: nat, tenantId: nat, role: Role)

  predicate UniqueIds(users: seq<User>) {
    forall i, j :: 0 <= i < j < |users| ==> users[i].id != users[j].id
  }

  function AccessRole(u: User): Role {
    if u.role == Viewer then Viewer else Admin
  }

  // ---------- copying users into a new hub ----------

  /** The position of the first administrator, else of the first user. */
  function PromotedIndex(users: seq<User>): (i: nat)
    requires users != []
    ensures i < |users|
    ensures || (users[i].role == Admin && forall j :: 0 <= j < i ==> users[j].role != Admin)
            || (i == 0 && forall j :: 0 <= j < |users| ==> users[j].role != Admin)
  {
    var at := FirstWithRole(users, Admin);
    if at.Some? then at.value else 0
  }

  function FirstWithRole(users: seq<User>, role: Role): (r: Option<nat>)
    ensures r.Some? ==> r.value < |users| && users[r.value].role == role
    ensures r.Some? ==> forall j :: 0 <= j < r.value ==> users[j].role != role
    ensures r.None? ==> forall j :: 0 <= j < |users| ==> users[j].role != role
  {
    if users == [] then None
    else if users[0].role == role then Some(0)
    else
      var rest := FirstWithRole(users[1..], role);
      if rest.Some? then Some(rest.value + 1) else None
  }

  /**
   * Step 3 of the migration: every user is copied under its id, one of them as superadmin, and gets
   * one access row; none is when the schema refuses a role, as the copy is one transaction.
   */
  method CopyUsers(users: seq<User>, tenantId: nat) returns (r: Option<(seq<User>, seq<Access>)>)
    requires UniqueIds(users)
    ensures r.None? <==>
              exists i :: 0 <= i < |users| && users[i].role.Other? && i != PromotedIndex(users)
    ensures r.Some? ==>
              && |r.value.0| == |r.value.1| == |users|
              && forall i :: 0 <= i < |users| ==>
                   && r.value.0[i] == (if i == PromotedIndex(users) then users[i].(role := Superadmin) else users[i])
                   && r.value.1[i].userId == users[i].id && r.value.1[i].tenantId == tenantId
                   && (r.value.1[i].role == Viewer <==> users[i].role == Viewer)
                   && (r.value.1[i].role == Admin <==> users[i].role != Viewer)
  {
    if users == [] {
      return Some(([], []));
    }
    var first := users[PromotedIndex(users)];
    var copied, access := [], [];
    for i := 0 to |users|
      invariant |copied| == |access| == i
      invariant forall j :: 0 <= j < i ==> users[j].role.Other? ==> j == PromotedIndex(users)
      invariant forall j :: 0 <= j < i ==>
                  && copied[j] == (if j == PromotedIndex(users) then users[j].(role := Superadmin) else users[j])
                  && access[j] == Access(users[j].id, tenantId, AccessRole(users[j]))
    {
      var u := users[i];
      var hubRole := if u.id == first.id then Superadmin else u.role;
      if hubRole.Other? {
        return None;
      }
      copied := copied + [User(u.id, u.username, u.passwordHash, hubRole)];
      var accessRole := if u.role == Viewer then Viewer else Admin;
      access := access + [Access(u.id, tenantId, accessRole)];
    }
    r := Some((copied, access));
  }

  function CountRole(users: seq<User>, role: Role): nat {
    if users == [] then 0
    else CountRole(users[..|users| - 1], role) + (if users[|users| - 1].role == role then 1 else 0)
  }

  lemma {:induction false} CountChange(users: seq<User>, copied: seq<User>, p: nat, role: Role)
    requires |copied| == |users| && p < |users|
    requires forall i :: 0 <= i < |users| && i != p ==> copied[i].role == users[i].role
    requires copied[p].role == role
    ensures CountRole(copied, role) == CountRole(users, role) + (if users[p].role == role then 0 else 1)
  {
    var n := |users| - 1;
    if p < n {
      CountChange(users[..n], copied[..n], p, role);
    } else {
      CountSame(users[..n], copied[..n], role);
    }
  }

  lemma {:induction false} CountSame(users: seq<User>, copied: seq<User>, role: Role)
    requires |copied| == |users| && forall i :: 0 <= i < |users| ==> copied[i].role == users[i].role
    ensures CountRole(copied, role) == CountRole(users, role)
  {
    if users != [] {
      var n := |users| - 1;
      CountSame(users[..n], copied[..n], role);
    }
  }

  lemma {:induction false} CountNone(users: seq<User>, role: Role)
    requires forall i :: 0 <= i < |users| ==> users[i].role != role
    ensures CountRole(users, role) == 0
  {
    if users != [] {
      CountNone(users[..|users| - 1], role);
    }
  }

  /** What `CopyUsers` ensures of the copied rows. */
  predicate CopiedFrom(users: seq<User>, copied: seq<User>) {
    && users != [] && |copied| == |users|
    && forall i :: 0 <= i < |users| ==>
         copied[i] == if i == PromotedIndex(users) then users[i].(role := Superadmin) else users[i]
  }

  /**
   * From users without a superadmin the copy makes exactly one: the first administrator, or the first
   * user when there is none; no other user changes role.
   */
  lemma OneSuperadmin(users: seq<User>, copied: seq<User>)
    requires CopiedFrom(users, copied)
    requires forall i :: 0 <= i < |users| ==> users[i].role != Superadmin
    ensures CountRole(copied, Superadmin) == 1
    ensures forall i :: 0 <= i < |copied| && copied[i].role == Superadmin ==>
              (users[i].role == Admin && forall j :: 0 <= j < i ==> users[j].role != Admin)
              || (i == 0 && forall j :: 0 <= j < |users| ==> users[j].role != Admin)
  {
    var p := PromotedIndex(users);
    CountNone(users, Superadmin);
    CountChange(users, copied, p, Superadmin);
  }

  // ---------- copying a table ----------

  /**
   * `copyTable`: every row is inserted with the source columns the destination knows, as the first
   * row lists them, and with the extra ones; nothing is copied from an absent or empty table.
   */
  method CopyTable<V(==)>(rows: Option<seq<map<string, V>>>, columns: set<string>, extra: map<string, V>, missing: V)
      returns (inserted: seq<map<string, V>>)
    ensures rows.None? || rows.value == [] ==> inserted == []
    ensures rows.Some? && rows.value != [] ==>
              && |inserted| == |rows.value|
              && forall i :: 0 <= i < |inserted| ==>
                   && inserted[i].Keys == rows.value[0].Keys * columns + extra.Keys
                   && forall c :: c in inserted[i] ==>
                        inserted[i][c] == (if c in extra then extra[c]
                                           else if c in rows.value[i] then rows.value[i][c] else missing)
  {
    inserted := [];
    if rows.None? || rows.value == [] {
      return;
    }
    var all := rows.value[0].Keys * columns + extra.Keys;
    for i := 0 to |rows.value|
      invariant |inserted| == i
      invariant forall k :: 0 <= k < i ==> inserted[k].Keys == all
      invariant forall k :: 0 <= k < i ==> forall c :: c in inserted[k] ==>
                  inserted[k][c] == (if c in extra then extra[c]
                                     else if c in rows.value[k] then rows.value[k][c] else missing)
    {
      var row := rows.value[i];
      var values := map c | c in all :: if c in extra then extra[c] else if c in row then row[c] else missing;
      inserted := inserted + [values];
    }
  }

  // ---------- completing an existing hub ----------

  datatype Tenant = Tenant(id: nat, code: string)

  const DEFAULT_CODE := "DEFAULT"

  /** The hub's three tables; users in the order of their ids. */
  datatype HubState = HubState(tenants: seq<Tenant>, nextTenantId: nat, users: seq<User>, access: seq<Access>)

  function FindTenant(tenants: seq<Tenant>, code: string): (r: Option<nat>)
    ensures r.None? <==> forall i :: 0 <= i < |tenants| ==> tenants[i].code != code
    ensures r.Some? ==> exists i :: 0 <= i < |tenants| && tenants[i].code == code && tenants[i].id == r.value
  {
    if tenants == [] then None
    else if tenants[0].code == code then Some(tenants[0].id)
    else FindTenant(tenants[1..], code)
  }

  predicate HasAccess(access: seq<Access>, userId: nat, tenantId: nat) {
    exists i :: 0 <= i < |access| && access[i].userId == userId && access[i].tenantId == tenantId
  }

  function WithTenant(h: HubState): HubState {
    if FindTenant(h.tenants, DEFAULT_CODE).Some? then h
    else h.(tenants := h.tenants + [Tenant(h.nextTenantId, DEFAULT_CODE)], nextTenantId := h.nextTenantId + 1)
  }

  function WithSuperadmin(users: seq<User>): seq<User> {
    if FirstWithRole(users, Superadmin).Some? then users
    else
      var first := FirstWithRole(users, Admin);
      if first.None? then users else users[first.value := users[first.value].(role := Superadmin)]
  }

  /** `INSERT OR IGNORE` for one user: the pair of user and tenant is unique. */
  function Grant(access: seq<Access>, u: User, tenantId: nat): seq<Access> {
    if u.role == Superadmin || HasAccess(access, u.id, tenantId) then access
    else access + [Access(u.id, tenantId, AccessRole(u))]
  }

  function Granted(access: seq<Access>, users: seq<User>, tenantId: nat): seq<Access> {
    if users == [] then access
    else Grant(Granted(access, users[..|users| - 1], tenantId), users[|users| - 1], tenantId)
  }

  function DefaultTenant(h: HubState): nat {
    var r := FindTenant(h.tenants, DEFAULT_CODE);
    if r.Some? then r.value else h.nextTenantId
  }

  function Completed(h: HubState): HubState {
    var users := WithSuperadmin(h.users);
    WithTenant(h).(users := users, access := Granted(h.access, users, DefaultTenant(h)))
  }

  class HubDb {
    var tenants: seq<Tenant>
    var nextTenantId: nat
    var users: seq<User>
    var access: seq<Access>

    constructor (h: HubState)
      ensures State() == h
    {
      tenants, nextTenantId, users, access := h.tenants, h.nextTenantId, h.users, h.access;
    }

    function State(): HubState
      reads this
    {
      HubState(tenants, nextTenantId, users, access)
    }

    method EnsureTenant() returns (id: nat)
      modifies this`tenants, this`nextTenantId
      ensures id == DefaultTenant(old(State()))
      ensures State() == WithTenant(old(State()))
    {
      var row := FindTenant(tenants, DEFAULT_CODE);
      if row.Some? {
        return row.value;
      }
      id := nextTenantId;
      tenants := tenants + [Tenant(nextTenantId, DEFAULT_CODE)];
      nextTenantId := nextTenantId + 1;
    }

    method PromoteFirstAdmin()
      modifies this`users
      ensures users == WithSuperadmin(old(users))
    {
      if FirstWithRole(users, Superadmin).None? {
        var first := FirstWithRole(users, Admin);
        if first.Some? {
          users := users[first.value := users[first.value].(role := Superadmin)];
        }
      }
    }

    method GrantAll(tenantId: nat)
      modifies this`access
      ensures access == Granted(old(access), users, tenantId)
    {
      for i := 0 to |users|
        invariant access == Granted(old(access), users[..i], tenantId)
      {
        assert users[..i + 1][..i] == users[..i];
        var u := users[i];
        if u.role != Superadmin {
          var accessRole := if u.role == Viewer then Viewer else Admin;
          if !HasAccess(access, u.id, tenantId) {
            access := access + [Access(u.id, tenantId, accessRole)];
          }
        }
      }
      assert users[..|users|] == users;
    }

    /** `ensureHubTenantAndAccess`. */
    method EnsureHubTenantAndAccess()
      modifies this
      ensures State() == Completed(old(State()))
    {
      hide WithSuperadmin, Granted, FindTenant;
      var tenantId := EnsureTenant();
      PromoteFirstAdmin();
      GrantAll(tenantId);
    }
  }

  lemma {:induction false} GrantedKeeps(access: seq<Access>, users: seq<User>, tenantId: nat)
    ensures access <= Granted(access, users, tenantId)
  {
    if users != [] {
      GrantedKeeps(access, users[..|users| - 1], tenantId);
    }
  }

  lemma AccessGrows(access: seq<Access>, more: seq<Access>, userId: nat, tenantId: nat)
    requires access <= more && HasAccess(access, userId, tenantId)
    ensures HasAccess(more, userId, tenantId)
  {
    var i :| 0 <= i < |access| && access[i].userId == userId && access[i].tenantId == tenantId;
    assert more[i] == access[i];
  }

  /** Each user but the superadmins ends with access. */
  lemma {:induction false} GrantedToAll(access: seq<Access>, users: seq<User>, tenantId: nat, k: nat)
    requires k < |users| && users[k].role != Superadmin
    ensures HasAccess(Granted(access, users, tenantId), users[k].id, tenantId)
  {
    var init, last := users[..|users| - 1], users[|users| - 1];
    var before := Granted(access, init, tenantId);
    var after := Grant(before, last, tenantId);
    if k < |init| {
      GrantedToAll(access, init, tenantId, k);
      AccessGrows(before, after, users[k].id, tenantId);
    } else if !HasAccess(before, last.id, tenantId) {
      assert after[|before|] == Access(last.id, tenantId, AccessRole(last));
    }
  }

  lemma {:induction false} NothingToGrant(access: seq<Access>, users: seq<User>, tenantId: nat)
    requires forall k :: 0 <= k < |users| && users[k].role != Superadmin ==> HasAccess(access, users[k].id, tenantId)
    ensures Granted(access, users, tenantId) == access
  {
    if users != [] {
      NothingToGrant(access, users[..|users| - 1], tenantId);
    }
  }

  /** An access row, by what makes it unique. */
  predicate NoDuplicates(access: seq<Access>) {
    forall i, j :: 0 <= i < j < |access| ==>
      access[i].userId != access[j].userId || access[i].tenantId != access[j].tenantId
  }

  lemma {:induction false} GrantedIsUnique(access: seq<Access>, users: seq<User>, tenantId: nat)
    requires NoDuplicates(access)
    ensures NoDuplicates(Granted(access, users, tenantId))
  {
    if users != [] {
      GrantedIsUnique(access, users[..|users| - 1], tenantId);
    }
  }

  /** Rows that were not there give the tenant, to users who had no access to it, by their role. */
  lemma {:induction false} GrantedRows(access: seq<Access>, users: seq<User>, tenantId: nat, i: nat)
    requires |access| <= i < |Granted(access, users, tenantId)|
    ensures !HasAccess(access, Granted(access, users, tenantId)[i].userId, tenantId)
    ensures var row := Granted(access, users, tenantId)[i];
            && row.tenantId == tenantId
            && exists k :: 0 <= k < |users| && users[k].role != Superadmin && row.userId == users[k].id
                 && row.role == if users[k].role == Viewer then Viewer else Admin
  {
    var init, last := users[..|users| - 1], users[|users| - 1];
    var before := Granted(access, init, tenantId);
    if i < |before| {
      GrantedRows(access, init, tenantId, i);
      var k :| 0 <= k < |init| && init[k].role != Superadmin && before[i].userId == init[k].id
               && before[i].role == if init[k].role == Viewer then Viewer else Admin;
      assert users[k] == init[k];
    } else {
      GrantedKeeps(access, init, tenantId);
      if HasAccess(access, last.id, tenantId) {
        AccessGrows(access, before, last.id, tenantId);
      }
      assert users[|users| - 1] == last;
    }
  }

  lemma FindAppended(tenants: seq<Tenant>, t: Tenant)
    requires FindTenant(tenants, t.code).None?
    ensures FindTenant(tenants + [t], t.code) == Some(t.id)
  {
    if tenants != [] {
      assert (tenants + [t])[1..] == tenants[1..] + [t];
      FindAppended(tenants[1..], t);
    }
  }

  lemma TenantIsDefault(h: HubState)
    ensures FindTenant(Completed(h).tenants, DEFAULT_CODE) == Some(DefaultTenant(h))
    ensures DefaultTenant(Completed(h)) == DefaultTenant(h)
  {
    hide FindTenant, Granted, WithSuperadmin;
    if FindTenant(h.tenants, DEFAULT_CODE).None? {
      FindAppended(h.tenants, Tenant(h.nextTenantId, DEFAULT_CODE));
    }
  }

  lemma SuperadminStays(users: seq<User>)
    ensures WithSuperadmin(WithSuperadmin(users)) == WithSuperadmin(users)
  {
    hide FirstWithRole;
    var first := FirstWithRole(users, Admin);
    if FirstWithRole(users, Superadmin).None? && first.Some? {
      assert WithSuperadmin(users)[first.value].role == Superadmin;
    }
  }

  /** Completing a completed hub changes nothing. */
  lemma CompletionIsIdempotent(h: HubState)
    ensures Completed(Completed(h)) == Completed(h)
  {
    hide FindTenant, Granted, WithSuperadmin;
    var once := Completed(h);
    TenantIsDefault(h);
    SuperadminStays(h.users);
    EveryoneHasAccess(h);
    NothingToGrant(once.access, once.users, DefaultTenant(h));
  }

  /**
   * After completion the DEFAULT tenant exists and every user but the superadmins has access to it;
   * earlier access rows are untouched and no pair of user and tenant is doubled.
   */
  lemma EveryoneHasAccess(h: HubState)
    ensures FindTenant(Completed(h).tenants, "DEFAULT") == Some(DefaultTenant(h))
    ensures if exists i :: 0 <= i < |h.tenants| && h.tenants[i].code == "DEFAULT" then Completed(h).tenants == h.tenants
            else Completed(h).tenants == h.tenants + [Tenant(h.nextTenantId, "DEFAULT")]
    ensures Completed(h).nextTenantId - h.nextTenantId == |Completed(h).tenants| - |h.tenants|
    ensures forall k :: 0 <= k < |Completed(h).users| && Completed(h).users[k].role != Superadmin ==>
              HasAccess(Completed(h).access, Completed(h).users[k].id, DefaultTenant(h))
    ensures h.access <= Completed(h).access
    ensures NoDuplicates(h.access) ==> NoDuplicates(Completed(h).access)
  {
    hide FindTenant, Granted, WithSuperadmin, NoDuplicates, HasAccess;
    var users := WithSuperadmin(h.users);
    TenantIsDefault(h);
    GrantedKeeps(h.access, users, DefaultTenant(h));
    if NoDuplicates(h.access) {
      GrantedIsUnique(h.access, users, DefaultTenant(h));
    }
    forall k | 0 <= k < |users| && users[k].role != Superadmin
      ensures HasAccess(Completed(h).access, users[k].id, DefaultTenant(h))
    {
      GrantedToAll(h.access, users, DefaultTenant(h), k);
    }
  }

  /** A superadmin exists afterwards exactly when there was one, or an administrator to promote. */
  lemma SuperadminIff(h: HubState)
    ensures FirstWithRole(Completed(h).users, Superadmin).Some? <==>
              FirstWithRole(h.users, Superadmin).Some? || FirstWithRole(h.users, Admin).Some?
    ensures |Completed(h).users| == |h.users|
    ensures forall i :: 0 <= i < |h.users| ==>
              Completed(h).users[i] ==
              if (forall j :: 0 <= j < |h.users| ==> h.users[j].role != Superadmin)
                 && h.users[i].role == Admin && (forall j :: 0 <= j < i ==> h.users[j].role != Admin)
              then h.users[i].(role := Superadmin) else h.users[i]
  {
    hide FirstWithRole, Granted, WithTenant;
    var first := FirstWithRole(h.users, Admin);
    if FirstWithRole(h.users, Superadmin).None? && first.Some? {
      assert Completed(h).users[first.value].role == Superadmin;
    }
  }
}
