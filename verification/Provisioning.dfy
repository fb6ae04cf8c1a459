/**
 Provisioning of single-sign-on users (app/oidc/service.py, app/models.py): a check-then-insert
 protocol against unique constraints while other transactions commit between its steps.

 Identities are keyed on the ``iss`` and ``sub`` claims together, as section 5.7 of OpenID Connect
 Core 1.0 requires, and further on the provider they came through.
 */
module Provisioning {
  import opened Wrappers

  datatype Role = Admin | Analyst | Auditor

  datatype User = User(
    username: string, email: Option<string>, role: Role, provider: string,
    issuer: Option<string>, subject: Option<string>, tenant: Option<string>,
    roleManaged: bool, sessionCutoff: int)

  /** The user table; a row's position is its id, and rows are never deleted. */
  type Users = seq<User>

  datatype Identity = Identity(
    issuer: string, subject: string, email: string, emailVerified: bool, groups: seq<string>, tenant: Option<string>)

  /** A provider's configuration: its key and its group-to-role-name map. */
  datatype Config = Config(key: string, roleMap: map<string, string>)

  datatype ProvisionError = IdentityConflict | EmailNotVerified | AccountLinkingRequired | ProvisioningConflict

  /** String functions taken as given: stripping and lower-casing, and the hex digest of a pair. */
  datatype Texts = Texts(normalise: string -> string, lower: string -> string, digest: (string, string) -> string)

  const LOCAL := "local"

  // ------------------------------------------------------------------ roles

  /** The role a name stands for; "user" is the old name of "analyst". */
  function RoleNamed(name: string): Option<Role> {
    if name == "admin" then Some(Admin)
    else if name == "analyst" || name == "user" then Some(Analyst)
    else if name == "auditor" then Some(Auditor)
    else None
  }

  predicate Grants(cfg: Config, identity: Identity, role: Role) {
    exists i :: 0 <= i < |identity.groups| && identity.groups[i] in cfg.roleMap
                && RoleNamed(cfg.roleMap[identity.groups[i]]) == Some(role)
  }

  /** ``map_role``: any group may grant a role, the highest granted one wins, and the default is analyst. */
  function MapRole(cfg: Config, identity: Identity): Role {
    if Grants(cfg, identity, Admin) then Admin
    else if Grants(cfg, identity, Analyst) then Analyst
    else if Grants(cfg, identity, Auditor) then Auditor
    else Analyst
  }

  function Rank(role: Role): nat {
    match role
    case Admin => 2
    case Analyst => 1
    case Auditor => 0
  }

  /** No order of the groups matters: the mapped role is granted by some group and outranks every other
      granted one, or nothing is granted and it is analyst. */
  lemma MapRoleIsHighest(cfg: Config, identity: Identity)
    ensures forall role | Grants(cfg, identity, role) :: Rank(role) <= Rank(MapRole(cfg, identity))
    ensures Grants(cfg, identity, MapRole(cfg, identity)) || MapRole(cfg, identity) == Analyst
    ensures (exists role :: Grants(cfg, identity, role)) ==> Grants(cfg, identity, MapRole(cfg, identity))
  {
  }

  /** Some group of the identity is mapped to this role name. */
  predicate Named(cfg: Config, identity: Identity, name: string) {
    exists i :: 0 <= i < |identity.groups| && identity.groups[i] in cfg.roleMap
                && cfg.roleMap[identity.groups[i]] == name
  }

  lemma GrantsIff(cfg: Config, identity: Identity)
    ensures Grants(cfg, identity, Admin) <==> Named(cfg, identity, "admin")
    ensures Grants(cfg, identity, Analyst) <==> Named(cfg, identity, "analyst") || Named(cfg, identity, "user")
    ensures Grants(cfg, identity, Auditor) <==> Named(cfg, identity, "auditor")
  {
    assert "admin"[0] == "analyst"[0] && "admin"[1] != "analyst"[1] && "auditor"[1] != "admin"[1];
    assert "auditor"[1] != "analyst"[1] && "user"[0] != "admin"[0] && "user"[0] != "auditor"[0];
  }

  /** In terms of the names in the configuration: only "admin" makes an administrator, and an auditor is
      one who has no stronger name and that one. */
  lemma MapRoleIff(cfg: Config, identity: Identity)
    ensures MapRole(cfg, identity) == Admin <==> Named(cfg, identity, "admin")
    ensures MapRole(cfg, identity) == Auditor <==>
            && Named(cfg, identity, "auditor") && !Named(cfg, identity, "admin")
            && !Named(cfg, identity, "analyst") && !Named(cfg, identity, "user")
  {
    GrantsIff(cfg, identity);
  }

  // ------------------------------------------------------------------ the table

  predicate HasPair(u: User, issuer: string, subject: string) { u.issuer == Some(issuer) && u.subject == Some(subject) }

  predicate SamePair(u: User, v: User) { u.subject.Some? && u.issuer == v.issuer && u.subject == v.subject }

  predicate SameSsoEmail(u: User, v: User) { u.subject.Some? && v.subject.Some? && u.email.Some? && u.email == v.email }

  predicate RowChecks(u: User) { (u.provider == LOCAL <==> u.subject.None?) && (u.issuer.None? <==> u.subject.None?) }

  predicate Clash(u: User, v: User) { u.username == v.username || SamePair(u, v) || SameSsoEmail(u, v) }

  /** The unique and check constraints of the schema. */
  predicate Constraints(t: Users) {
    && (forall i | 0 <= i < |t| :: RowChecks(t[i]))
    && (forall i, j | 0 <= i < j < |t| :: !Clash(t[i], t[j]))
  }

  predicate SameIdentity(u: User, v: User) {
    u.provider == v.provider && u.issuer == v.issuer && u.subject == v.subject
  }

  /** What any transaction may do: add rows and change rows within the constraints, but never delete a
      row or move it to another identity. */
  ghost predicate Evolves(t: Users, t': Users) {
    && |t| <= |t'|
    && (forall i | 0 <= i < |t| :: SameIdentity(t[i], t'[i]))
    && Constraints(t')
  }

  lemma EvolvesTransitive(a: Users, b: Users, c: Users)
    requires Evolves(a, b) && Evolves(b, c)
    ensures Evolves(a, c)
  {
    forall i | 0 <= i < |a| ensures SameIdentity(a[i], c[i]) {
      assert SameIdentity(a[i], b[i]) && SameIdentity(b[i], c[i]);
    }
  }

  predicate Bound(t: Users, id: nat, provider: string, issuer: string, subject: string) {
    id < |t| && t[id].provider == provider && HasPair(t[id], issuer, subject)
  }

  /** No other row carries the pair. */
  lemma PairIsUnique(t: Users, id: nat, other: nat, issuer: string, subject: string)
    requires Constraints(t) && id < |t| && other < |t|
    requires HasPair(t[id], issuer, subject) && HasPair(t[other], issuer, subject)
    ensures id == other
  {
    if id < other {
      assert Clash(t[id], t[other]);
    } else if other < id {
      assert Clash(t[other], t[id]);
    }
  }

  // ------------------------------------------------------------------ own transactions

  /** A transaction this protocol committed. */
  datatype Txn = Txn(before: Users, after: Users)

  /** A returning user's row may change its role, with the session cutoff, its tenant if it had none, and
      its email; the role only if the identity provider manages it. */
  ghost predicate RowSynced(b: User, a: User, role: Role, now: int) {
    && SameIdentity(b, a) && a.username == b.username && a.roleManaged == b.roleManaged
    && (a.role != b.role ==> b.roleManaged && a.role == role && a.sessionCutoff == now)
    && (a.role == b.role ==> a.sessionCutoff == b.sessionCutoff)
    && (b.tenant.Some? ==> a.tenant == b.tenant)
  }

  /** The row that a returning login leaves behind, its email aside: the tenant is filled in, a managed role
      is the mapped one, and a changed role ends the sessions begun before ``now``. */
  ghost predicate LoggedIn(b: User, a: User, cfg: Config, identity: Identity, now: int) {
    && SameIdentity(b, a) && a.username == b.username && a.roleManaged == b.roleManaged
    && a.tenant == identity.tenant
    && (b.roleManaged ==> a.role == MapRole(cfg, identity)) && (!b.roleManaged ==> a.role == b.role)
    && (a.role != b.role ==> a.sessionCutoff == now) && (a.role == b.role ==> a.sessionCutoff == b.sessionCutoff)
  }

  ghost predicate Syncs(txn: Txn, id: nat, role: Role, now: int) {
    && |txn.after| == |txn.before| && id < |txn.before|
    && (forall j | 0 <= j < |txn.before| && j != id :: txn.after[j] == txn.before[j])
    && RowSynced(txn.before[id], txn.after[id], role, now)
  }

  ghost predicate Creates(txn: Txn, id: nat, cfg: Config, identity: Identity, now: int) {
    && |txn.after| == |txn.before| + 1 && id == |txn.before| && txn.after[..id] == txn.before
    && Bound(txn.after, id, cfg.key, identity.issuer, identity.subject)
    && txn.after[id].role == MapRole(cfg, identity)
    && txn.after[id].roleManaged
    && txn.after[id].tenant == identity.tenant
    && txn.after[id].sessionCutoff == now
    && txn.after[id].email.Some? && UsernameFor(txn.after[id].username, txn.after[id].email.value)
  }

  /** The email, or a prefix of it with a suffix. */
  ghost predicate UsernameFor(username: string, email: string) {
    username == email || exists n: nat :: CutTo(username, email, n)
  }

  predicate CutTo(username: string, email: string, n: nat) { n <= |email| && email[..n] + "-" <= username }

  /** What a call that returns account ``id`` may commit. */
  ghost predicate OwnTxn(txn: Txn, id: nat, created: bool, cfg: Config, identity: Identity, now: int) {
    && Constraints(txn.before) && Constraints(txn.after)
    && if created then Creates(txn, id, cfg, identity, now) else Syncs(txn, id, MapRole(cfg, identity), now)
  }

  /** Role, tenant and cutoff take part in no constraint. */
  lemma UpdateKeepsConstraints(t: Users, id: nat, row: User)
    requires Constraints(t) && id < |t| && SameIdentity(t[id], row)
    requires row.username == t[id].username && row.email == t[id].email
    ensures Constraints(t[id := row])
  {
    var t' := t[id := row];
    forall i, j | 0 <= i < j < |t'| ensures !Clash(t'[i], t'[j]) {
      assert !Clash(t[i], t[j]);
    }
  }

  /** The protocol's own transactions are ones it tolerates from others, so any number of calls may
      run at the same time. */
  lemma OwnTxnEvolves(txn: Txn, id: nat, created: bool, cfg: Config, identity: Identity, now: int)
    requires OwnTxn(txn, id, created, cfg, identity, now)
    ensures Evolves(txn.before, txn.after)
  {
    forall i | 0 <= i < |txn.before| ensures SameIdentity(txn.before[i], txn.after[i]) {
      if created {
        assert txn.after[i] == txn.after[..id][i];
      } else if i != id {
        assert txn.after[i] == txn.before[i];
      }
    }
  }

  // ------------------------------------------------------------------ the protocol

  /** What other transactions commit: ``others(k, locked, t)`` is the table after the ``k``-th pause when it
      was ``t`` before and this session holds a row lock on ``locked``. */
  type Others = (nat, Option<nat>, Users) -> Users

  ghost predicate Tolerable(others: Others) {
    forall k: nat, locked: Option<nat>, t: Users | Constraints(t) ::
      && Evolves(t, others(k, locked, t))
      && (locked.Some? && locked.value < |t| ==> others(k, locked, t)[locked.value] == t[locked.value])
  }

  /** Nothing else commits. */
  ghost predicate Quiet(others: Others) {
    forall k: nat, locked: Option<nat>, t: Users :: others(k, locked, t) == t
  }

  class Directory {
    const texts: Texts
    const others: Others
    var users: Users
    var pauses: nat
    /** The transactions of the call in progress. */
    ghost var own: seq<Txn>
    /** The account as the call last validated it: under the row lock, or as it inserted it. */
    ghost var validated: Option<User>

    ghost predicate Valid()
      reads this
    {
      Constraints(users) && Tolerable(others)
    }

    constructor (texts: Texts, others: Others)
      requires Tolerable(others)
      ensures Valid() && users == [] && this.texts == texts && this.others == others
    {
      this.texts, this.others := texts, others;
      users, pauses, own, validated := [], 0, [], None;
    }

    /** Anything else may commit here, except on the locked row. */
    method Pause(locked: Option<nat>)
      requires Valid() && (locked.Some? ==> locked.value < |users|)
      modifies this`users, this`pauses
      ensures Valid() && Evolves(old(users), users)
      ensures locked.Some? ==> users[locked.value] == old(users)[locked.value]
      ensures Quiet(others) ==> users == old(users)
    {
      users := others(pauses, locked, users);
      pauses := pauses + 1;
    }

    method MatchIdentity(identity: Identity, provider: string) returns (r: Option<nat>)
      ensures r.Some? ==> Bound(users, r.value, provider, identity.issuer, identity.subject)
      ensures r.None? ==> forall i: nat :: !Bound(users, i, provider, identity.issuer, identity.subject)
    {
      for i := 0 to |users|
        invariant forall k: nat | k < i :: !Bound(users, k, provider, identity.issuer, identity.subject)
      {
        if users[i].provider == provider && HasPair(users[i], identity.issuer, identity.subject) {
          return Some(i);
        }
      }
      return None;
    }

    method ForeignIdentityExists(identity: Identity, provider: string) returns (r: bool)
      ensures r <==> exists i :: 0 <= i < |users| && users[i].provider != provider
                                 && HasPair(users[i], identity.issuer, identity.subject)
    {
      for i := 0 to |users|
        invariant forall k | 0 <= k < i ::
                  users[k].provider == provider || !HasPair(users[k], identity.issuer, identity.subject)
      {
        if users[i].provider != provider && HasPair(users[i], identity.issuer, identity.subject) {
          return true;
        }
      }
      return false;
    }

    predicate OwnsEmail(u: User, email: string) { u.email.Some? && texts.lower(u.email.value) == email }

    /** Some owner of the address, in no particular order. */
    method EmailOwner(email: string) returns (r: Option<nat>)
      ensures r.Some? ==> r.value < |users| && OwnsEmail(users[r.value], email)
      ensures r.None? ==> forall i | 0 <= i < |users| :: !OwnsEmail(users[i], email)
    {
      for i := 0 to |users|
        invariant forall k | 0 <= k < i :: !OwnsEmail(users[k], email)
      {
        if OwnsEmail(users[i], email) {
          return Some(i);
        }
      }
      return None;
    }

    method UsernameTaken(username: string) returns (r: bool)
      ensures r <==> exists i :: 0 <= i < |users| && users[i].username == username
    {
      for i := 0 to |users|
        invariant forall k | 0 <= k < i :: users[k].username != username
      {
        if users[i].username == username {
          return true;
        }
      }
      return false;
    }

    /** Writes one row and commits, or rolls back on a constraint violation. */
    method CommitRow(id: nat, row: User) returns (ok: bool)
      requires Valid() && id < |users|
      modifies this`users, this`own
      ensures Valid()
      ensures ok <==> Constraints(old(users)[id := row])
      ensures users == if ok then old(users)[id := row] else old(users)
      ensures own == if ok then old(own) + [Txn(old(users), users)] else old(own)
    {
      ok := Constraints(users[id := row]);
      if ok {
        own := own + [Txn(users, users[id := row])];
        users := users[id := row];
      }
    }

    /** Inserts a row and commits, or rolls back on a constraint violation. */
    method CommitInsert(row: User) returns (ok: bool)
      requires Valid()
      modifies this`users, this`own
      ensures Valid()
      ensures ok <==> Constraints(old(users) + [row])
      ensures users == if ok then old(users) + [row] else old(users)
      ensures own == if ok then old(own) + [Txn(old(users), users)] else old(own)
    {
      ok := Constraints(users + [row]);
      if ok {
        own := own + [Txn(users, users + [row])];
        users := users + [row];
      }
    }

    /** All transactions committed since ``from`` synchronise account ``id``. */
    ghost predicate OnlySyncs(from: nat, id: nat, cfg: Config, identity: Identity, now: int)
      reads this
    {
      from <= |own| && forall k | from <= k < |own| :: OwnTxn(own[k], id, false, cfg, identity, now)
    }

    /** The email synchronisation, when nothing else commits: a new verified address is adopted if no account
        owns it and the constraints allow it, and another account's address is never taken over. */
    ghost predicate EmailSynced(t: Users, t': Users, identity: Identity, id: nat, known: User)
      requires id < |t|
    {
      var email := texts.normalise(identity.email);
      var updated := t[id := t[id].(email := Some(email))];
      if !identity.emailVerified || email == "" || known.email == Some(email) then t' == t
      else if !AddressOwned(t, email) then t' == if Constraints(updated) then updated else t
      else if OwnsEmail(t[id], email) then t' == t || (t' == updated && Constraints(updated))
      else t' == t
    }

    /** The address is taken by some account, by its lower case. */
    predicate AddressOwned(t: Users, email: string) { exists i :: 0 <= i < |t| && OwnsEmail(t[i], email) }

    /** ``_sync_email``: best effort, only from a verified claim, never onto another account's address. */
    method SyncEmail(identity: Identity, id: nat, known: User, locked: bool, ghost cfg: Config, ghost now: int)
      requires Valid() && id < |users| && (locked ==> users[id] == known)
      modifies this`users, this`pauses, this`own
      ensures Valid() && Evolves(old(users), users)
      ensures old(own) <= own && OnlySyncs(|old(own)|, id, cfg, identity, now)
      ensures !identity.emailVerified ==> own == old(own)
      ensures Quiet(others) ==> EmailSynced(old(users), users, identity, id, known)
    {
      if !identity.emailVerified {
        return;
      }
      var newEmail := texts.normalise(identity.email);
      if newEmail == "" || Some(newEmail) == known.email {
        return;
      }
      var lock := if locked then Some(id) else None;
      Pause(lock);
      var owner := EmailOwner(newEmail);
      if owner.Some? && owner.value != id {
        return;
      }
      ghost var t1 := users;
      Pause(lock);
      EvolvesTransitive(old(users), t1, users);
      ghost var t2 := users;
      var ok := CommitRow(id, users[id].(email := Some(newEmail)));
      if ok {
        assert Syncs(Txn(t2, users), id, MapRole(cfg, identity), now);
        OwnTxnEvolves(Txn(t2, users), id, false, cfg, identity, now);
        EvolvesTransitive(old(users), t2, users);
      }
    }

    /** The transaction turned row ``id`` from ``b`` into ``a``. */
    ghost predicate Wrote(txn: Txn, id: nat, b: User, a: User) {
      id < |txn.before| && id < |txn.after| && txn.before[id] == b && txn.after[id] == a
    }

    /** The first commit of a synchronisation, under the row lock. */
    method CommitSync(cfg: Config, identity: Identity, id: nat, row: User, now: int)
      requires Valid() && id < |users|
      requires RowSynced(users[id], row, MapRole(cfg, identity), now) && row.email == users[id].email
      modifies this`users, this`pauses, this`own
      ensures Valid() && Evolves(old(users), users) && id < |users| && users[id] == row
      ensures old(own) <= own && OnlySyncs(|old(own)|, id, cfg, identity, now)
      ensures |own| == |old(own)| + 1 && Wrote(own[|old(own)|], id, old(users)[id], row)
      ensures Quiet(others) ==> users == old(users)[id := row]
    {
      Pause(Some(id));
      ghost var t := users;
      UpdateKeepsConstraints(users, id, row);
      var _ := CommitRow(id, row);
      assert Syncs(Txn(t, users), id, MapRole(cfg, identity), now);
      OwnTxnEvolves(Txn(t, users), id, false, cfg, identity, now);
      EvolvesTransitive(old(users), t, users);
    }

    /** What a successful call has made sure of, whatever happens to the row afterwards. */
    ghost predicate Validated(cfg: Config, identity: Identity)
      reads this`validated
    {
      && validated.Some?
      && validated.value.provider == cfg.key && HasPair(validated.value, identity.issuer, identity.subject)
      && validated.value.tenant == identity.tenant
      && (validated.value.roleManaged ==> validated.value.role == MapRole(cfg, identity))
    }

    /** Fills in the tenant and synchronises the role, and commits if that changed anything. */
    method SyncRow(cfg: Config, identity: Identity, id: nat, now: int) returns (user: User, dirty: bool)
      requires Valid() && id < |users| && (users[id].tenant.Some? ==> users[id].tenant == identity.tenant)
      modifies this`users, this`pauses, this`own
      ensures Valid() && Evolves(old(users), users)
      ensures old(own) <= own && OnlySyncs(|old(own)|, id, cfg, identity, now)
      ensures LoggedIn(old(users)[id], user, cfg, identity, now) && user.email == old(users)[id].email
      ensures dirty <==> user != old(users)[id]
      ensures if dirty then |own| == |old(own)| + 1 && Wrote(own[|old(own)|], id, old(users)[id], user)
              else own == old(own) && users == old(users)
      ensures Quiet(others) ==> users == old(users)[id := user]
    {
      user, dirty := users[id], false;
      if user.tenant.None? && identity.tenant.Some? {
        user := user.(tenant := identity.tenant);
        dirty := true;
      }
      if user.roleManaged && MapRole(cfg, identity) != user.role {
        user := user.(role := MapRole(cfg, identity), sessionCutoff := now);
        dirty := true;
      }
      if dirty {
        CommitSync(cfg, identity, id, user, now);
      }
    }

    /** ``_sync_returning_user`` on the locked row ``id``. */
    method SyncReturningUser(cfg: Config, identity: Identity, id: nat, now: int) returns (r: Result<(), ProvisionError>)
      requires Valid() && Bound(users, id, cfg.key, identity.issuer, identity.subject)
      modifies this`users, this`pauses, this`own, this`validated
      ensures Valid() && Evolves(old(users), users)
      ensures old(own) <= own && OnlySyncs(|old(own)|, id, cfg, identity, now)
      ensures r.Failure? <==> old(users)[id].tenant.Some? && old(users)[id].tenant != identity.tenant
      ensures r.Failure? ==> r.error == IdentityConflict && own == old(own) && users == old(users)
      ensures r.Success? ==> Validated(cfg, identity)
      ensures r.Success? ==> Stored(old(users)[id], |old(own)|, id, cfg, identity, now)
      ensures r.Success? && Quiet(others) ==>
                EmailSynced(old(users)[id := validated.value], users, identity, id, validated.value)
    {
      if users[id].tenant.Some? && users[id].tenant != identity.tenant {
        return Failure(IdentityConflict);
      }
      var user, dirty := SyncRow(cfg, identity, id, now);
      validated := Some(user);
      ghost var t2, committed := users, own;
      if dirty {
        Pause(None);
        EvolvesTransitive(old(users), t2, users);
        user := users[id];
      }
      ghost var t3 := users;
      SyncEmail(identity, id, user, !dirty, cfg, now);
      EvolvesTransitive(old(users), t3, users);
      assert committed <= own;
      return Success(());
    }

    /** The account as validated is the row ``b`` after the login, and what differs from ``b`` was
        committed by the first transaction since ``from``. */
    ghost predicate Stored(b: User, from: nat, id: nat, cfg: Config, identity: Identity, now: int)
      reads this
    {
      && validated.Some? && LoggedIn(b, validated.value, cfg, identity, now) && validated.value.email == b.email
      && (validated.value != b ==> |own| > from && Wrote(own[from], id, b, validated.value))
    }

    function DerivedUsername(email: string, identity: Identity, width: nat): string {
      var digest := texts.digest(identity.issuer, identity.subject);
      (if |email| <= 140 then email else email[..140]) + "-" + (if |digest| <= width then digest else digest[..width])
    }

    lemma DerivedIsFor(email: string, identity: Identity, width: nat)
      ensures UsernameFor(DerivedUsername(email, identity, width), email)
    {
      var n := if |email| <= 140 then |email| else 140;
      assert email[..|email|] == email;
      assert CutTo(DerivedUsername(email, identity, width), email, n);
    }

    function NewUser(cfg: Config, identity: Identity, username: string, now: int): User {
      User(username, Some(texts.normalise(identity.email)), MapRole(cfg, identity), cfg.key,
           Some(identity.issuer), Some(identity.subject), identity.tenant, true, now)
    }

    /** The account the pair was bound to when the call began stays the only answer. */
    ghost predicate RespectsBinding(before: Users, cfg: Config, identity: Identity,
                                    r: Result<(nat, bool), ProvisionError>)
    {
      forall id: nat | id < |before| && HasPair(before[id], identity.issuer, identity.subject) ::
        if before[id].provider == cfg.key then r == Success((id, false)) || r == Failure(IdentityConflict)
        else r == Failure(IdentityConflict)
    }

    /** Everything a call guarantees, in terms of the table before and after and what it committed. */
    ghost predicate Provisioned(before: Users, after: Users, txns: seq<Txn>, cfg: Config, identity: Identity, now: int,
                                r: Result<(nat, bool), ProvisionError>)
    {
      && Evolves(before, after)
      && RespectsBinding(before, cfg, identity, r)
      && (r.Failure? ==> txns == [])
      && (r.Success? ==>
            && Bound(after, r.value.0, cfg.key, identity.issuer, identity.subject)
            && (r.value.1 ==> r.value.0 >= |before| && |txns| == 1)
            && forall k | 0 <= k < |txns| :: OwnTxn(txns[k], r.value.0, r.value.1, cfg, identity, now))
    }

    /** The answer for a returning account: its id, or a refusal because its tenant differs. */
    ghost predicate Returns(t: Users, id: nat, cfg: Config, identity: Identity,
                            r: Result<(nat, bool), ProvisionError>)
    {
      && Bound(t, id, cfg.key, identity.issuer, identity.subject)
      && r == if t[id].tenant.Some? && t[id].tenant != identity.tenant then Failure(IdentityConflict)
              else Success((id, false))
    }

    /** Looks the pair up under a row lock and, if it is there, synchronises the account. */
    method ResolveExisting(cfg: Config, identity: Identity, now: int)
      returns (r: Option<Result<(nat, bool), ProvisionError>>)
      requires Valid() && own == []
      modifies this`users, this`pauses, this`own, this`validated
      ensures Valid()
      ensures r.Some? && r.value.Success? ==> Validated(cfg, identity)
      ensures r.Some? ==> exists id :: Returns(old(users), id, cfg, identity, r.value)
      ensures r.None? ==> users == old(users) && own == []
      ensures r.None? ==> forall i: nat :: !Bound(users, i, cfg.key, identity.issuer, identity.subject)
      ensures r.Some? ==> Provisioned(old(users), users, own, cfg, identity, now, r.value)
      ensures r.Some? && r.value.Success? ==> !r.value.value.1
      ensures r.Some? && r.value.Failure? ==> users == old(users)
      ensures forall id: nat | Bound(old(users), id, cfg.key, identity.issuer, identity.subject)
                               && r == Some(Success((id, false))) :: Stored(old(users)[id], 0, id, cfg, identity, now)
      ensures r.Some? && r.value.Success? && Quiet(others) ==>
                && ReturnSynced(old(users), users, r.value.value.0, cfg, identity, now)
                && ReturnedRow(old(users), users, r.value.value.0, cfg, identity, now)
    {
      var existing := MatchIdentity(identity, cfg.key);
      if existing.None? {
        return None;
      }
      var id := existing.value;
      forall other: nat | other < |users| && HasPair(users[other], identity.issuer, identity.subject)
        ensures other == id
      {
        PairIsUnique(users, id, other, identity.issuer, identity.subject);
      }
      var synced := SyncReturningUser(cfg, identity, id, now);
      r := Some(if synced.Failure? then Failure(synced.error) else Success((id, false)));
      assert Returns(old(users), id, cfg, identity, r.value);
      assert synced.Success? && Quiet(others) ==> Resynced(old(users), users, id, validated.value, cfg, identity, now);
    }

    /** A returning login, when nothing else commits: the account becomes ``v``, and then its email may. */
    ghost predicate Resynced(t: Users, t': Users, id: nat, v: User, cfg: Config, identity: Identity, now: int) {
      && id < |t| && LoggedIn(t[id], v, cfg, identity, now) && v.email == t[id].email
      && EmailSynced(t[id := v], t', identity, id, v)
    }

    /** In plain terms: what the table holds after a returning login. */
    ghost predicate ReturnedRow(t: Users, t': Users, id: nat, cfg: Config, identity: Identity, now: int) {
      && id < |t| == |t'|
      && t'[id].tenant == identity.tenant
      && t'[id].role == (if t[id].roleManaged then MapRole(cfg, identity) else t[id].role)
      && t'[id].sessionCutoff == (if t'[id].role != t[id].role then now else t[id].sessionCutoff)
      && forall j | 0 <= j < |t| && j != id :: t'[j] == t[j]
    }

    ghost predicate ReturnSynced(t: Users, t': Users, id: nat, cfg: Config, identity: Identity, now: int) {
      exists v :: Resynced(t, t', id, v, cfg, identity, now)
    }

    /** Inserts the new account; on a violation nothing has happened. */
    method TryCreate(cfg: Config, identity: Identity, username: string, now: int) returns (id: Option<nat>)
      requires Valid() && own == [] && cfg.key != LOCAL && UsernameFor(username, texts.normalise(identity.email))
      modifies this`users, this`own, this`validated
      ensures Valid() && Evolves(old(users), users)
      ensures id.Some? ==> Validated(cfg, identity)
      ensures id.None? ==> users == old(users) && own == []
      ensures id.Some? ==> id.value == |old(users)| && users == old(users) + [NewUser(cfg, identity, username, now)]
      ensures id.Some? ==> |own| == 1 && OwnTxn(own[0], id.value, true, cfg, identity, now)
      ensures id.Some? ==> Bound(users, id.value, cfg.key, identity.issuer, identity.subject)
      ensures id.Some? <==> Constraints(old(users) + [NewUser(cfg, identity, username, now)])
    {
      var row := NewUser(cfg, identity, username, now);
      ghost var t := users;
      var ok := CommitInsert(row);
      if !ok {
        return None;
      }
      validated := Some(row);
      assert users[..|t|] == t;
      OwnTxnEvolves(own[0], |t|, true, cfg, identity, now);
      return Some(|users| - 1);
    }

    ghost predicate NoPair(t: Users, identity: Identity) {
      forall i | 0 <= i < |t| :: !HasPair(t[i], identity.issuer, identity.subject)
    }

    /** A pair nobody of this provider holds, and no other provider later, nobody held before. */
    lemma NobodyHeldIt(before: Users, later: Users, cfg: Config, identity: Identity)
      requires Evolves(before, later)
      requires forall i: nat :: !Bound(before, i, cfg.key, identity.issuer, identity.subject)
      requires !exists i ::
               0 <= i < |later| && later[i].provider != cfg.key && HasPair(later[i], identity.issuer, identity.subject)
      ensures NoPair(before, identity)
    {
      forall i | 0 <= i < |before| ensures !HasPair(before[i], identity.issuer, identity.subject) {
        assert SameIdentity(before[i], later[i]);
        assert !Bound(before, i, cfg.key, identity.issuer, identity.subject);
      }
    }

    predicate UsernameIn(t: Users, username: string) { exists i :: 0 <= i < |t| && t[i].username == username }

    /** The retry, when nothing else commits. */
    ghost predicate SequentialRetry(t: Users, t': Users, cfg: Config, identity: Identity, now: int,
                                    r: Result<(nat, bool), ProvisionError>)
    {
      var email := texts.normalise(identity.email);
      var row := NewUser(cfg, identity, DerivedUsername(email, identity, 32), now);
      if AddressOwned(t, email) then r == Failure(AccountLinkingRequired) && t' == t
      else if Constraints(t + [row]) then r == Success((|t|, true)) && t' == t + [row]
      else r == Failure(ProvisioningConflict) && t' == t
    }

    /** The creation of an account, when nothing else commits. */
    ghost predicate SequentialCreate(t: Users, t': Users, cfg: Config, identity: Identity, now: int,
                                     r: Result<(nat, bool), ProvisionError>)
    {
      var email := texts.normalise(identity.email);
      var row := NewUser(cfg, identity,
                         if UsernameIn(t, email) then DerivedUsername(email, identity, 8) else email, now);
      if AddressOwned(t, email) then r == Failure(AccountLinkingRequired) && t' == t
      else if Constraints(t + [row]) then r == Success((|t|, true)) && t' == t + [row]
      else SequentialRetry(t, t', cfg, identity, now, r)
    }

    /** The whole decision, when nothing else commits. */
    ghost predicate Sequential(t: Users, t': Users, cfg: Config, identity: Identity, now: int,
                               r: Result<(nat, bool), ProvisionError>)
    {
      if exists id :: Bound(t, id, cfg.key, identity.issuer, identity.subject) then
        exists id :: Returns(t, id, cfg, identity, r)
                     && if r.Success? then ReturnSynced(t, t', id, cfg, identity, now) else t' == t
      else if !NoPair(t, identity) then r == Failure(IdentityConflict) && t' == t
      else if !identity.emailVerified then r == Failure(EmailNotVerified) && t' == t
      else SequentialCreate(t, t', cfg, identity, now, r)
    }

    /** ``provision_oidc_user``: the account and whether this call created it. */
    method ProvisionOidcUser(cfg: Config, identity: Identity, now: int) returns (r: Result<(nat, bool), ProvisionError>)
      requires Valid() && cfg.key != LOCAL
      modifies this
      ensures Valid() && Provisioned(old(users), users, own, cfg, identity, now, r)
      ensures r.Success? ==> Validated(cfg, identity)
      ensures r.Success? && r.value.1 ==> identity.emailVerified
      ensures Quiet(others) ==> Sequential(old(users), users, cfg, identity, now, r)
      // A returning account's changes are committed, whatever others do.
      ensures forall id: nat | Bound(old(users), id, cfg.key, identity.issuer, identity.subject)
                               && r == Success((id, false)) :: Stored(old(users)[id], 0, id, cfg, identity, now)
      // With nothing else committing they are what the table holds afterwards.
      ensures Quiet(others) && r.Success? && !r.value.1 ==>
                ReturnedRow(old(users), users, r.value.0, cfg, identity, now)
    {
      own := [];
      var found := ResolveExisting(cfg, identity, now);
      if found.Some? {
        return found.value;
      }
      ghost var before := users;
      Pause(None);
      var foreign := ForeignIdentityExists(identity, cfg.key);
      if foreign {
        return Failure(IdentityConflict);
      }
      NobodyHeldIt(before, users, cfg, identity);
      if !identity.emailVerified {
        return Failure(EmailNotVerified);
      }
      r := CreateAccount(cfg, identity, now);
    }

    /** The email, or a derived name when some account's username is this email. */
    method ChooseUsername(email: string, identity: Identity) returns (username: string)
      requires Valid()
      modifies this`users, this`pauses
      ensures Valid() && Evolves(old(users), users)
      ensures UsernameFor(username, email)
      ensures Quiet(others) ==> users == old(users)
      ensures Quiet(others) ==>
              username == if UsernameIn(users, email) then DerivedUsername(email, identity, 8) else email
    {
      Pause(None);
      username := email;
      var taken := UsernameTaken(username);
      if taken {
        username := DerivedUsername(email, identity, 8);
        DerivedIsFor(email, identity, 8);
      }
      ghost var t := users;
      Pause(None);
      EvolvesTransitive(old(users), t, users);
    }

    /** The rest of the protocol, for a pair nobody held when the call began. */
    method CreateAccount(cfg: Config, identity: Identity, now: int) returns (r: Result<(nat, bool), ProvisionError>)
      requires Valid() && own == [] && cfg.key != LOCAL && identity.emailVerified
      modifies this`users, this`pauses, this`own, this`validated
      ensures Valid() && Evolves(old(users), users)
      ensures r.Failure? ==> own == []
      ensures r.Success? ==> Validated(cfg, identity)
      ensures Quiet(others) && NoPair(old(users), identity) ==>
              SequentialCreate(old(users), users, cfg, identity, now, r)
      ensures r.Success? ==>
                && Bound(users, r.value.0, cfg.key, identity.issuer, identity.subject)
                && (r.value.1 ==> r.value.0 >= |old(users)| && |own| == 1)
                && forall k | 0 <= k < |own| :: OwnTxn(own[k], r.value.0, r.value.1, cfg, identity, now)
    {
      ghost var t0 := users;
      var email := texts.normalise(identity.email);
      Pause(None);
      var owner := EmailOwner(email);
      if owner.Some? {
        return Failure(AccountLinkingRequired);
      }
      ghost var t1 := users;
      var username := ChooseUsername(email, identity);
      EvolvesTransitive(t0, t1, users);
      ghost var t3 := users;
      var id := TryCreate(cfg, identity, username, now);
      EvolvesTransitive(t0, t3, users);
      if id.Some? {
        return Success((id.value, true));
      }
      r := AfterViolation(cfg, identity, now);
      EvolvesTransitive(t0, t3, users);
    }

    /** After a unique violation: find out what happened instead of assuming it. */
    method AfterViolation(cfg: Config, identity: Identity, now: int) returns (r: Result<(nat, bool), ProvisionError>)
      requires Valid() && own == [] && cfg.key != LOCAL
      modifies this`users, this`pauses, this`own, this`validated
      ensures Valid() && Evolves(old(users), users)
      ensures r.Failure? ==> own == []
      ensures r.Success? ==> Validated(cfg, identity)
      ensures Quiet(others) && NoPair(old(users), identity) ==>
              SequentialRetry(old(users), users, cfg, identity, now, r)
      ensures r.Success? ==>
                && Bound(users, r.value.0, cfg.key, identity.issuer, identity.subject)
                && (r.value.1 ==> r.value.0 >= |old(users)| && |own| == 1)
                && forall k | 0 <= k < |own| :: OwnTxn(own[k], r.value.0, r.value.1, cfg, identity, now)
    {
      ghost var t0 := users;
      Pause(None);
      ghost var t1 := users;
      var found := ResolveExisting(cfg, identity, now);
      if found.Some? {
        EvolvesTransitive(t0, t1, users);
        return found.value;
      }
      Pause(None);
      EvolvesTransitive(t0, t1, users);
      var foreign := ForeignIdentityExists(identity, cfg.key);
      if foreign {
        return Failure(IdentityConflict);
      }
      ghost var t2 := users;
      Pause(None);
      EvolvesTransitive(t0, t2, users);
      var owner := EmailOwner(texts.normalise(identity.email));
      if owner.Some? {
        return Failure(AccountLinkingRequired);
      }
      ghost var t3 := users;
      Pause(None);
      EvolvesTransitive(t0, t3, users);
      ghost var t4 := users;
      DerivedIsFor(texts.normalise(identity.email), identity, 32);
      var id := TryCreate(cfg, identity, DerivedUsername(texts.normalise(identity.email), identity, 32), now);
      EvolvesTransitive(t0, t4, users);
      if id.Some? {
        return Success((id.value, true));
      }
      return Failure(ProvisioningConflict);
    }
  }

  // ------------------------------------------------------------------ runs of logins

  datatype Login = Login(cfg: Config, identity: Identity, now: int)

  predicate SameClaims(a: Login, b: Login) {
    a.identity.issuer == b.identity.issuer && a.identity.subject == b.identity.subject
  }

  /** What an earlier login that succeeded means for a later one. */
  ghost predicate Consistent(a: Login, ra: Result<(nat, bool), ProvisionError>,
                             b: Login, rb: Result<(nat, bool), ProvisionError>)
  {
    ra.Success? ==>
      if !SameClaims(a, b) then rb.Success? ==> rb.value.0 != ra.value.0
      else if a.cfg.key == b.cfg.key then rb == Success((ra.value.0, false)) || rb == Failure(IdentityConflict)
      else rb == Failure(IdentityConflict)
  }

  /** Any sequence of logins, with anything committing before, during and between them: once a pair is
      bound to an account, it resolves to that account through its provider and is refused through any
      other, and different pairs never share an account. */
  method LoginRun(directory: Directory, logins: seq<Login>) returns (results: seq<Result<(nat, bool), ProvisionError>>)
    requires directory.Valid()
    requires forall i | 0 <= i < |logins| :: logins[i].cfg.key != LOCAL
    modifies directory
    ensures directory.Valid() && |results| == |logins|
    ensures forall i, j | 0 <= i < j < |logins| :: Consistent(logins[i], results[i], logins[j], results[j])
    ensures forall i, j | 0 <= i < j < |directory.users| ::
              var u, v := directory.users[i], directory.users[j];
              && u.username != v.username
              && (u.subject.Some? && v.subject.Some? && u.email.Some? ==> u.email != v.email)
  {
    results := [];
    for n := 0 to |logins|
      invariant directory.Valid() && |results| == n
      invariant forall i | 0 <= i < n && results[i].Success? ::
                  Bound(directory.users, results[i].value.0, logins[i].cfg.key,
                        logins[i].identity.issuer, logins[i].identity.subject)
      invariant forall i, j | 0 <= i < j < n :: Consistent(logins[i], results[i], logins[j], results[j])
    {
      ghost var t0 := directory.users;
      directory.Pause(None);
      ghost var t1 := directory.users;
      var login := logins[n];
      var r := directory.ProvisionOidcUser(login.cfg, login.identity, login.now);
      forall i | 0 <= i < n && results[i].Success?
        ensures Bound(directory.users, results[i].value.0, logins[i].cfg.key,
                      logins[i].identity.issuer, logins[i].identity.subject)
        ensures Consistent(logins[i], results[i], login, r)
      {
        var id := results[i].value.0;
        assert SameIdentity(t0[id], t1[id]) && SameIdentity(t1[id], directory.users[id]);
      }
      results := results + [r];
    }
    forall i, j | 0 <= i < j < |directory.users| ensures !Clash(directory.users[i], directory.users[j]) {
    }
  }
}
