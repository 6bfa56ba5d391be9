/** The Convex user functions (convex/users.ts): `store`, which records the signed-in
    user, and `currentUser`, which looks them up. A user is found by the identity's
    subject (`clerkId`) first and, failing that, by e-mail address compared without case
    and surrounding white space. The `users` table is a sequence of documents in creation
    order; the identity and the id Convex hands out are parameters. */
module ConvexUsers {
  import opened Wrappers
  import opened Seqs
  import opened Text

  datatype Role = Admin | User

  datatype UserDoc = UserDoc(id: string, clerkId: string, email: string, name: Option<string>, role: Role)

  /** The signed-in identity: its subject and, when the provider gives them, its e-mail
      address and name. */
  datatype Identity = Identity(subject: string, email: Option<string>, name: Option<string>)

  predicate DistinctIds(users: seq<UserDoc>) {
    forall i, j :: 0 <= i < j < |users| ==> users[i].id != users[j].id
  }

  predicate Fresh(users: seq<UserDoc>, id: string) {
    forall i :: 0 <= i < |users| ==> users[i].id != id
  }

  /** An address as the lookups compare it. */
  function CleanEmail(email: string): string { Trim(Lower(email)) }

  /** The first user with that `clerkId` (the `by_clerkId` index, ties in creation order). */
  function ByClerkId(users: seq<UserDoc>, subject: string): Option<UserDoc> {
    Find(users, (u: UserDoc) => u.clerkId == subject)
  }

  /** The first user whose cleaned address is `clean`. */
  function ByEmail(users: seq<UserDoc>, clean: string): Option<UserDoc> {
    Find(users, (u: UserDoc) => CleanEmail(u.email) == clean)
  }

  /** `users[k]` is the first user whose cleaned address is `clean`. */
  predicate FirstWithEmail(users: seq<UserDoc>, k: int, clean: string) {
    0 <= k < |users| && CleanEmail(users[k].email) == clean
    && forall j :: 0 <= j < k ==> CleanEmail(users[j].email) != clean
  }

  /** No user has the subject as `clerkId`. */
  predicate NoClerkIdHit(users: seq<UserDoc>, subject: string) {
    forall i :: 0 <= i < |users| ==> users[i].clerkId != subject
  }

  /** The user `store` settles on: by subject, else by cleaned address when that is not
      empty: then the first user with that cleaned address, or none when no user has
      it. With neither, no user. */
  function StoreLookup(users: seq<UserDoc>, ident: Identity): (r: Option<UserDoc>)
    ensures r.Some? ==> r.value in users
    ensures ByClerkId(users, ident.subject).Some? ==> r == ByClerkId(users, ident.subject)
    ensures r.Some? && r.value.clerkId != ident.subject ==>
              ident.email.Some? && CleanEmail(r.value.email) == CleanEmail(ident.email.value) != ""
    ensures NoClerkIdHit(users, ident.subject) && ident.email.Some? && CleanEmail(ident.email.value) != "" ==>
              (r.None? <==> forall i :: 0 <= i < |users| ==> CleanEmail(users[i].email) != CleanEmail(ident.email.value))
              && (r.Some? ==> exists k :: FirstWithEmail(users, k, CleanEmail(ident.email.value)) && users[k] == r.value)
    ensures NoClerkIdHit(users, ident.subject) && !(ident.email.Some? && CleanEmail(ident.email.value) != "") ==>
              r.None?
  {
    match ByClerkId(users, ident.subject)
    case Some(u) => Some(u)
    case None =>
      if ident.email.Some? && CleanEmail(ident.email.value) != "" then ByEmail(users, CleanEmail(ident.email.value))
      else None
  }

  /** `currentUser`: nothing without an identity; the user by subject; else, when the
      identity has a non-empty address, the user by cleaned address. */
  function CurrentUser(users: seq<UserDoc>, identity: Option<Identity>): (r: Option<UserDoc>)
    ensures r.Some? ==> identity.Some? && r.value in users
    ensures identity.Some? && ByClerkId(users, identity.value.subject).Some? ==>
              r == ByClerkId(users, identity.value.subject)
    ensures identity.Some? && NoClerkIdHit(users, identity.value.subject)
            && identity.value.email.Some? && identity.value.email.value != "" ==>
              var clean := CleanEmail(identity.value.email.value);
              (r.None? <==> forall i :: 0 <= i < |users| ==> CleanEmail(users[i].email) != clean)
              && (r.Some? ==> exists k :: FirstWithEmail(users, k, clean) && users[k] == r.value)
    ensures identity.Some? && NoClerkIdHit(users, identity.value.subject)
            && !(identity.value.email.Some? && identity.value.email.value != "") ==>
              r.None?
  {
    match identity
    case None => None
    case Some(ident) =>
      match ByClerkId(users, ident.subject)
      case Some(u) => Some(u)
      case None =>
        if ident.email.Some? && ident.email.value != "" then ByEmail(users, CleanEmail(ident.email.value))
        else None
  }

  /** `currentUser` settles on the same user as `store` would, unless the identity's
      address is non-empty but all white space: then `currentUser` looks for a user with
      a blank address and `store` does not look by address at all. */
  lemma CurrentUserAgreesWithStore(users: seq<UserDoc>, ident: Identity)
    requires ident.email.Some? && ident.email.value != "" ==> CleanEmail(ident.email.value) != ""
    ensures CurrentUser(users, Some(ident)) == StoreLookup(users, ident)
  {
    if ident.email.Some? && ident.email.value == "" {
      assert Lower("") == "";
      TrimOfTrimmed("");
    }
  }

  /** The found user after both patches of `store`: re-keyed to the subject, the name
      replaced by a non-empty identity name, the address by the lower-cased identity
      address when that is not empty. */
  function Refreshed(u: UserDoc, ident: Identity): (r: UserDoc)
    ensures r.id == u.id && r.role == u.role && r.clerkId == ident.subject
    ensures r.name == (if ident.name.Some? && ident.name.value != "" then ident.name else u.name)
    ensures r.email == (if ident.email.Some? && ident.email.value != "" then Lower(ident.email.value) else u.email)
  {
    u.(clerkId := ident.subject,
       name := if ident.name.Some? && ident.name.value != "" then ident.name else u.name,
       email := if ident.email.Some? && Lower(ident.email.value) != "" then Lower(ident.email.value) else u.email)
  }

  /** `ctx.db.patch(id, ...)` with a replacement document. */
  function PatchUser(users: seq<UserDoc>, id: string, u: UserDoc): seq<UserDoc> {
    MapWhere(users, (x: UserDoc) => x.id == id, (x: UserDoc) => u)
  }

  /** A second patch of the same document overrides the first. */
  lemma PatchUserTwice(users: seq<UserDoc>, id: string, first: UserDoc, second: UserDoc)
    requires first.id == id
    ensures PatchUser(PatchUser(users, id, first), id, second) == PatchUser(users, id, second)
  {
  }

  /** The user `store` inserts when none is found. */
  function NewUser(ident: Identity, email: string, id: string): UserDoc {
    UserDoc(id, ident.subject, Lower(email), ident.name, Admin)
  }

  /** The users table after `store` for a signed-in identity. */
  function StoredUsers(users: seq<UserDoc>, ident: Identity, newId: string): seq<UserDoc> {
    match StoreLookup(users, ident)
    case Some(u) => PatchUser(users, u.id, Refreshed(u, ident))
    case None => if ident.email.Some? then users + [NewUser(ident, ident.email.value, newId)] else users
  }

  /** The id `store` returns for a signed-in identity, or none when it fails because a
      user has to be created and the identity has no address. */
  function StoredId(users: seq<UserDoc>, ident: Identity, newId: string): Option<string> {
    match StoreLookup(users, ident)
    case Some(u) => Some(u.id)
    case None => if ident.email.Some? then Some(newId) else None
  }

  lemma StoredWhenFound(users: seq<UserDoc>, ident: Identity, newId: string, u: UserDoc)
    requires StoreLookup(users, ident) == Some(u)
    ensures StoredUsers(users, ident, newId) == PatchUser(users, u.id, Refreshed(u, ident))
    ensures StoredId(users, ident, newId) == Some(u.id)
  {
  }

  lemma StoredWhenMissing(users: seq<UserDoc>, ident: Identity, newId: string)
    requires StoreLookup(users, ident).None?
    ensures StoredUsers(users, ident, newId) ==
              if ident.email.Some? then users + [NewUser(ident, ident.email.value, newId)] else users
    ensures StoredId(users, ident, newId) == if ident.email.Some? then Some(newId) else None
  {
  }

  class UsersTable {
    var users: seq<UserDoc>

    constructor (users0: seq<UserDoc>)
      ensures users == users0
    {
      users := users0;
    }

    /** The lookup half of `store`: by subject first; failing that, and when the cleaned
        identity address is not empty, by cleaned address, re-keying the user found that
        way to the subject. */
    method FindForStore(ident: Identity) returns (user: Option<UserDoc>, rekeyed: bool)
      modifies this`users
      ensures user == StoreLookup(old(users), ident)
      ensures !rekeyed ==> users == old(users)
      ensures rekeyed ==> user.Some? && users == PatchUser(old(users), user.value.id, user.value.(clerkId := ident.subject))
    {
      var cleanEmail: Option<string> := if ident.email.Some? then Some(CleanEmail(ident.email.value)) else None;
      user := ByClerkId(users, ident.subject);
      rekeyed := false;
      if user.None? && cleanEmail.Some? && cleanEmail.value != "" {
        user := ByEmail(users, cleanEmail.value);
        if user.Some? {
          users := PatchUser(users, user.value.id, user.value.(clerkId := ident.subject));
          rekeyed := true;
        }
      }
    }

    /** `store`: `Ok(None)` and no write without an identity; otherwise the found user is
        re-keyed and refreshed, or a new admin user is inserted, and its id returned. A
        missing address where a user must be created fails and writes nothing. */
    method Store(identity: Option<Identity>, newId: string) returns (r: Result<Option<string>, string>)
      requires Fresh(users, newId)
      modifies this`users
      ensures identity.None? ==> r == Ok(None) && users == old(users)
      ensures identity.Some? ==> users == StoredUsers(old(users), identity.value, newId)
      ensures identity.Some? && StoredId(old(users), identity.value, newId).Some? ==>
                r == Ok(StoredId(old(users), identity.value, newId))
      ensures identity.Some? && StoredId(old(users), identity.value, newId).None? ==> r.Err?
    {
      if identity.None? {
        return Ok(None);
      }
      var ident := identity.value;
      var user, rekeyed := FindForStore(ident);
      if user.Some? {
        var u := user.value;
        var name := if ident.name.Some? && ident.name.value != "" then ident.name else u.name;
        var email := if ident.email.Some? && Lower(ident.email.value) != "" then Lower(ident.email.value) else u.email;
        var refreshed := u.(clerkId := ident.subject, name := name, email := email);
        assert refreshed == Refreshed(u, ident);
        StoredWhenFound(old(users), ident, newId, u);
        if rekeyed {
          PatchUserTwice(old(users), u.id, u.(clerkId := ident.subject), refreshed);
          users := PatchUser(users, u.id, refreshed);
        } else {
          users := PatchUser(users, u.id, refreshed);
        }
        return Ok(Some(u.id));
      }
      StoredWhenMissing(old(users), ident, newId);
      if ident.email.None? {
        return Err("identity.email is undefined");
      }
      users := users + [NewUser(ident, ident.email.value, newId)];
      r := Ok(Some(newId));
    }
  }

  /** If the first user with a given `clerkId` sits at position `k`, the lookup by
      subject finds it. */
  lemma ByClerkIdAt(users: seq<UserDoc>, subject: string, k: nat)
    requires k < |users| && users[k].clerkId == subject
    requires forall i :: 0 <= i < k ==> users[i].clerkId != subject
    ensures ByClerkId(users, subject) == Some(users[k])
  {
    var j := FindIndex(users, (u: UserDoc) => u.clerkId == subject);
    assert j.Some? && j.value == k;
  }

  /** Once `store` has succeeded, `currentUser` for the same identity finds the stored
      user, under the returned id and keyed by the identity's subject. */
  lemma {:induction false} StoreThenCurrentUser(users: seq<UserDoc>, ident: Identity, newId: string)
    requires DistinctIds(users) && Fresh(users, newId)
    requires StoredId(users, ident, newId).Some?
    ensures var u := CurrentUser(StoredUsers(users, ident, newId), Some(ident));
            u.Some? && u.value.id == StoredId(users, ident, newId).value && u.value.clerkId == ident.subject
  {
    var after := StoredUsers(users, ident, newId);
    match StoreLookup(users, ident)
    case Some(u) => {
      var k :| 0 <= k < |users| && users[k] == u;
      var byId := ByClerkId(users, ident.subject);
      forall i | 0 <= i < k ensures after[i].clerkId != ident.subject {
        assert users[i].id != u.id;
        assert after[i] == users[i];
        if byId.Some? {
          var j := FindIndex(users, (x: UserDoc) => x.clerkId == ident.subject);
          assert users[j.value].clerkId == ident.subject;
          assert users[j.value] == u by {
            assert byId == Some(users[j.value]);
          }
          assert users[j.value].id == users[k].id;
        }
      }
      ByClerkIdAt(after, ident.subject, k);
    }
    case None => {
      assert after == users + [NewUser(ident, ident.email.value, newId)];
      forall i | 0 <= i < |users| ensures after[i].clerkId != ident.subject {
        assert after[i] == users[i];
      }
      ByClerkIdAt(after, ident.subject, |users|);
    }
  }

  /** Running `store` a second time with the same identity changes nothing more. */
  lemma StoreTwice(users: seq<UserDoc>, ident: Identity, newId: string, newId2: string)
    requires DistinctIds(users) && Fresh(users, newId)
    requires StoredId(users, ident, newId).Some?
    ensures StoredUsers(StoredUsers(users, ident, newId), ident, newId2) == StoredUsers(users, ident, newId)
  {
    StoreThenCurrentUser(users, ident, newId);
    var after := StoredUsers(users, ident, newId);
    var found := ByClerkId(after, ident.subject);
    assert found.Some?;
    var u := found.value;
    assert StoreLookup(after, ident) == found;
    var again := PatchUser(after, u.id, Refreshed(u, ident));
    forall i | 0 <= i < |after| ensures again[i] == after[i] {
      if after[i].id == u.id {
        StoredUserUnique(users, ident, newId, i, u);
      }
    }
  }

  /** The user the lookup finds after `store` is the only one with its id, and it is
      already refreshed. */
  lemma StoredUserUnique(users: seq<UserDoc>, ident: Identity, newId: string, i: nat, u: UserDoc)
    requires DistinctIds(users) && Fresh(users, newId)
    requires StoredId(users, ident, newId).Some?
    requires i < |StoredUsers(users, ident, newId)|
    requires ByClerkId(StoredUsers(users, ident, newId), ident.subject) == Some(u)
    requires StoredUsers(users, ident, newId)[i].id == u.id
    ensures StoredUsers(users, ident, newId)[i] == Refreshed(u, ident)
  {
    var after := StoredUsers(users, ident, newId);
    StoreThenCurrentUser(users, ident, newId);
    match StoreLookup(users, ident)
    case Some(v) => {
      assert u.id == v.id;
      var k :| 0 <= k < |after| && after[k] == u;
      assert after[k] == Refreshed(v, ident) by {
        assert users[k].id == v.id;
      }
      assert after[i] == Refreshed(v, ident);
    }
    case None => {
      assert u.id == newId;
      assert i == |users|;
    }
  }
}
