/**
 * The signup and login handlers of backend/app.py. Password hashing, password checking and
 * token creation are foreign calls: the hash and the token come in as values and the password
 * check as a function. The random parts of generated ids are inputs (`pmIds(k)` for the
 * membership of the k-th accepted invite, `actIds(k)` for the k-th logged activity) and `now`
 * is the request's timestamp.
 */
module AuthRoutes {
  import opened Wrappers
  import opened Json
  import opened Store
  import opened Http

  /** `all([name, email, password])`. */
  predicate SignupFieldsPresent(data: Record) {
    PyTruthy(Get(data, "name")) && PyTruthy(Get(data, "email")) && PyTruthy(Get(data, "password"))
  }

  /** Some stored user has this email (`find_one(Users, "email", email)` is truthy). */
  predicate EmailTaken(users: seq<Record>, email: Value) {
    var i := FirstIndex(users, "email", email);
    i < |users| && users[i] != map[]
  }

  /** The user record signup stores. */
  function NewUser(id: string, name: Value, email: Value, passwordHash: Value): Record {
    map["id" := Str(id), "name" := name, "email" := email, "password_hash" := passwordHash,
        "status" := Str("online")]
  }

  /** The memberships after accepting invites in order: `add_member(..., role="member")` for each. */
  function JoinMembers(members: seq<Record>, invs: seq<Record>, userId: Value, pmIds: nat -> string): seq<Record> {
    if invs == [] then members
    else
      var n := |invs| - 1;
      WithMember(JoinMembers(members, invs[..n], userId, pmIds), Get(invs[n], "projectId"), userId, "member", GenId("pm", pmIds(n)))
  }

  /** The activities signup logs: "joined the project", one per accepted invite. */
  function JoinedActivities(invs: seq<Record>, userId: Value, actIds: nat -> string, now: string): seq<Record> {
    seq(|invs|, k requires 0 <= k < |invs| =>
      ActivityRecord(GenId("act", actIds(k)), Get(invs[k], "projectId"), userId, "joined the project", now))
  }

  /**
   * The store after accepting invites: memberships added, each invite's id deleted in turn,
   * one activity per invite appended; no other collection changes.
   */
  predicate AcceptedInvites(before: Tables, after: Tables, invs: seq<Record>, userId: Value, pmIds: nat -> string, actIds: nat -> string, now: string)
    requires HasCollections(before)
  {
    after == before[ProjectMembers := JoinMembers(before[ProjectMembers], invs, userId, pmIds)]
                   [Invites := DeleteIds(before[Invites], IdsOf(invs))]
                   [Activities := before[Activities] + JoinedActivities(invs, userId, actIds, now)]
  }

  /** Rewriting the three collections the invite loop touches: reads back, and a second rewrite wins. */
  lemma RewriteThree(m: Tables, members: seq<Record>, invites: seq<Record>, acts: seq<Record>,
                     members': seq<Record>, invites': seq<Record>, acts': seq<Record>)
    ensures var r := m[ProjectMembers := members][Invites := invites][Activities := acts];
            && r[ProjectMembers] == members && r[Invites] == invites && r[Activities] == acts
            && r[ProjectMembers := members'][Invites := invites'][Activities := acts']
               == m[ProjectMembers := members'][Invites := invites'][Activities := acts']
  {
  }

  lemma JoinedActivitiesStep(invs: seq<Record>, k: nat, userId: Value, actIds: nat -> string, now: string)
    requires k < |invs|
    ensures JoinedActivities(invs[..k + 1], userId, actIds, now)
            == JoinedActivities(invs[..k], userId, actIds, now)
               + [ActivityRecord(GenId("act", actIds(k)), Get(invs[k], "projectId"), userId, "joined the project", now)]
  {
    var before := JoinedActivities(invs[..k], userId, actIds, now);
    var after := JoinedActivities(invs[..k + 1], userId, actIds, now);
    forall i | 0 <= i < k ensures after[i] == before[i] {
      assert invs[..k][i] == invs[i] && invs[..k + 1][i] == invs[i];
    }
    assert after == before + [after[k]];
  }

  lemma JoinMembersStep(members: seq<Record>, invs: seq<Record>, k: nat, userId: Value, pmIds: nat -> string)
    requires k < |invs|
    ensures JoinMembers(members, invs[..k + 1], userId, pmIds)
            == WithMember(JoinMembers(members, invs[..k], userId, pmIds), Get(invs[k], "projectId"), userId, "member", GenId("pm", pmIds(k)))
  {
    var s := invs[..k + 1];
    assert s != [] && |s| - 1 == k;
    assert s[..k] == invs[..k];
    assert s[k] == invs[k];
  }

  lemma IdsStep(invs: seq<Record>, k: nat)
    requires k < |invs|
    ensures IdsOf(invs[..k + 1]) == IdsOf(invs[..k]) + [Get(invs[k], "id")]
  {
    assert invs[..k + 1] == invs[..k] + [invs[k]];
    IdsOfAppend(invs[..k], [invs[k]]);
    assert [invs[k]][1..] == [];
  }

  /** After accepting invites the new user is a member of every invited project. */
  lemma {:induction false} AcceptInvitesJoins(members: seq<Record>, invs: seq<Record>, userId: Value, pmIds: nat -> string)
    ensures forall k :: 0 <= k < |invs| ==> HasMembership(JoinMembers(members, invs, userId, pmIds), Get(invs[k], "projectId"), userId)
  {
    if invs != [] {
      var n := |invs| - 1;
      var prev := JoinMembers(members, invs[..n], userId, pmIds);
      AcceptInvitesJoins(members, invs[..n], userId, pmIds);
      var r := WithMember(prev, Get(invs[n], "projectId"), userId, "member", GenId("pm", pmIds(n)));
      assert r == JoinMembers(members, invs, userId, pmIds);
      WithMemberKeepsPairs(prev, Get(invs[n], "projectId"), userId, "member", GenId("pm", pmIds(n)));
      forall k | 0 <= k < |invs| ensures HasMembership(r, Get(invs[k], "projectId"), userId) {
        if k < n {
          assert invs[..n][k] == invs[k];
          assert HasMembership(prev, Get(invs[k], "projectId"), userId);
          var j :| 0 <= j < |prev| && Get(prev[j], "projectId") == Get(invs[k], "projectId")
                   && Get(prev[j], "userId") == userId;
          assert Get(r[j], "projectId") == Get(invs[k], "projectId") && Get(r[j], "userId") == userId;
        } else {
          assert k == n;
        }
      }
    }
  }

  /**
   * Signup, when invite ids are unique, removes every invite for the new email, whatever its
   * status, and keeps every other invite in order.
   */
  lemma SignupClearsInvites(before: Tables, after: Tables, email: Value, userId: Value, pmIds: nat -> string, actIds: nat -> string, now: string)
    requires HasCollections(before) && UniqueIds(before[Invites])
    requires AcceptedInvites(before, after, Select(before[Invites], [("email", email)]), userId, pmIds, actIds, now)
    ensures after[Invites] == WhereNot(before[Invites], MatchesQuery([("email", email)]))
  {
    DeleteFound(before[Invites], [("email", email)]);
  }

  /** Signup makes the new user a member of every project that invited the email. */
  lemma SignupJoinsInvitedProjects(before: Tables, after: Tables, email: Value, userId: Value, pmIds: nat -> string, actIds: nat -> string, now: string)
    requires HasCollections(before)
    requires AcceptedInvites(before, after, Select(before[Invites], [("email", email)]), userId, pmIds, actIds, now)
    ensures forall inv :: inv in before[Invites] && Get(inv, "email") == email ==>
              HasMembership(after[ProjectMembers], Get(inv, "projectId"), userId)
  {
    var found := Select(before[Invites], [("email", email)]);
    AcceptInvitesJoins(before[ProjectMembers], found, userId, pmIds);
    SelectMembers(before[Invites], [("email", email)]);
    forall inv | inv in before[Invites] && Get(inv, "email") == email
      ensures HasMembership(after[ProjectMembers], Get(inv, "projectId"), userId)
    {
      MatchesOne(inv, "email", email);
      var k :| 0 <= k < |found| && found[k] == inv;
    }
  }

  /** Joining projects as "member" never gives a user who only had member entries another role. */
  lemma {:induction false} JoinMembersRole(members: seq<Record>, invs: seq<Record>, userId: Value, pmIds: nat -> string)
    requires UserHasRole(members, userId, "member")
    ensures UserHasRole(JoinMembers(members, invs, userId, pmIds), userId, "member")
  {
    if invs != [] {
      var n := |invs| - 1;
      JoinMembersRole(members, invs[..n], userId, pmIds);
      WithMemberUserRole(JoinMembers(members, invs[..n], userId, pmIds), Get(invs[n], "projectId"), userId, "member", GenId("pm", pmIds(n)));
    }
  }

  /**
   * A user signing up with an id no membership carries yet joins every inviting project with
   * role "member", and holds no other role anywhere.
   */
  lemma SignupJoinsAsMember(before: Tables, after: Tables, email: Value, userId: Value, pmIds: nat -> string, actIds: nat -> string, now: string)
    requires HasCollections(before)
    requires forall k :: 0 <= k < |before[ProjectMembers]| ==> Get(before[ProjectMembers][k], "userId") != userId
    requires AcceptedInvites(before, after, Select(before[Invites], [("email", email)]), userId, pmIds, actIds, now)
    ensures forall inv :: inv in before[Invites] && Get(inv, "email") == email ==>
              HasMembership(after[ProjectMembers], Get(inv, "projectId"), userId)
    ensures UserHasRole(after[ProjectMembers], userId, "member")
  {
    SignupJoinsInvitedProjects(before, after, email, userId, pmIds, actIds, now);
    JoinMembersRole(before[ProjectMembers], Select(before[Invites], [("email", email)]), userId, pmIds);
  }

  /** Accepting one more invite extends each of the three collections by that invite's step. */
  lemma AcceptStep(t: Tables, invites: seq<Record>, k: nat, userId: Value, pmIds: nat -> string, actIds: nat -> string, now: string)
    requires HasCollections(t) && k < |invites|
    ensures WithMember(JoinMembers(t[ProjectMembers], invites[..k], userId, pmIds), Get(invites[k], "projectId"), userId, "member", GenId("pm", pmIds(k)))
            == JoinMembers(t[ProjectMembers], invites[..k + 1], userId, pmIds)
    ensures DeleteId(DeleteIds(t[Invites], IdsOf(invites[..k])), Get(invites[k], "id"))
            == DeleteIds(t[Invites], IdsOf(invites[..k + 1]))
    ensures t[Activities] + JoinedActivities(invites[..k], userId, actIds, now)
              + [ActivityRecord(GenId("act", actIds(k)), Get(invites[k], "projectId"), userId, "joined the project", now)]
            == t[Activities] + JoinedActivities(invites[..k + 1], userId, actIds, now)
  {
    JoinMembersStep(t[ProjectMembers], invites, k, userId, pmIds);
    JoinedActivitiesStep(invites, k, userId, actIds, now);
    IdsStep(invites, k);
    DeleteIdsAppend(t[Invites], IdsOf(invites[..k]), Get(invites[k], "id"));
  }

  /** One turn of the invite loop: add the membership, delete the invite, log the join. */
  method AcceptOne(db: Db, inv: Record, userId: Value, pmId: string, actId: string, now: string)
    requires db.Valid()
    modifies db
    ensures db.Valid()
    ensures db.tables == old(db.tables)
              [ProjectMembers := WithMember(old(db.tables[ProjectMembers]), Get(inv, "projectId"), userId, "member", GenId("pm", pmId))]
              [Invites := DeleteId(old(db.tables[Invites]), Get(inv, "id"))]
              [Activities := old(db.tables[Activities])
                 + [ActivityRecord(GenId("act", actId), Get(inv, "projectId"), userId, "joined the project", now)]]
  {
    var projectId := Get(inv, "projectId");
    ghost var pending, acts := db.tables[Invites], db.tables[Activities];
    var _ := db.AddMember(projectId, userId, "member", pmId);
    ghost var members := db.tables[ProjectMembers];
    assert db.tables[Invites] == pending && db.tables[Activities] == acts;
    var _ := db.Delete(Invites, Get(inv, "id"));
    assert db.tables[Invites] == DeleteId(pending, Get(inv, "id"));
    assert db.tables[ProjectMembers] == members;
    var act := db.LogActivity(projectId, userId, "joined the project", actId, now);
  }

  /** The loop of signup, one invite further. */
  method AcceptNext(db: Db, ghost t: Tables, invites: seq<Record>, k: nat, userId: Value,
                    pmIds: nat -> string, actIds: nat -> string, now: string)
    requires db.Valid() && HasCollections(t) && k < |invites|
    requires AcceptedInvites(t, db.tables, invites[..k], userId, pmIds, actIds, now)
    modifies db
    ensures db.Valid()
    ensures AcceptedInvites(t, db.tables, invites[..k + 1], userId, pmIds, actIds, now)
  {
    RewriteThree(t, JoinMembers(t[ProjectMembers], invites[..k], userId, pmIds),
                 DeleteIds(t[Invites], IdsOf(invites[..k])),
                 t[Activities] + JoinedActivities(invites[..k], userId, actIds, now),
                 JoinMembers(t[ProjectMembers], invites[..k + 1], userId, pmIds),
                 DeleteIds(t[Invites], IdsOf(invites[..k + 1])),
                 t[Activities] + JoinedActivities(invites[..k + 1], userId, actIds, now));
    AcceptOne(db, invites[k], userId, pmIds(k), actIds(k), now);
    AcceptStep(t, invites, k, userId, pmIds, actIds, now);
  }

  /** The invite loop of signup: join, delete the invite, log "joined the project", per invite. */
  method AcceptInvites(db: Db, invites: seq<Record>, userId: Value, pmIds: nat -> string, actIds: nat -> string, now: string)
    requires db.Valid()
    modifies db
    ensures db.Valid()
    ensures AcceptedInvites(old(db.tables), db.tables, invites, userId, pmIds, actIds, now)
  {
    ghost var t := db.tables;
    assert invites[..0] == [];
    assert JoinedActivities([], userId, actIds, now) == [];
    assert t[Activities] + [] == t[Activities];
    var k := 0;
    while k < |invites|
      invariant 0 <= k <= |invites|
      invariant db.Valid() && HasCollections(t)
      invariant AcceptedInvites(t, db.tables, invites[..k], userId, pmIds, actIds, now)
    {
      AcceptNext(db, t, invites, k, userId, pmIds, actIds, now);
      k := k + 1;
    }
    assert invites[..k] == invites;
  }

  /**
   * `signup`: 400 without a name, email and password, 400 for a taken email, both with no
   * change; otherwise the user is stored online, the invites for the email are accepted, and
   * the response is 201 with the token and the public user.
   */
  method Signup(db: Db, data: Record, passwordHash: Value, token: Value,
                userSuffix: string, pmIds: nat -> string, actIds: nat -> string, now: string)
    returns (resp: Response)
    requires db.Valid()
    modifies db
    ensures db.Valid()
    ensures !SignupFieldsPresent(data) ==>
              resp == Error("name, email, password required", 400) && db.tables == old(db.tables)
    ensures SignupFieldsPresent(data) && EmailTaken(old(db.tables[Users]), Get(data, "email")) ==>
              resp == Error("email already exists", 400) && db.tables == old(db.tables)
    ensures SignupFieldsPresent(data) && !EmailTaken(old(db.tables[Users]), Get(data, "email")) ==>
              var user := NewUser(GenId("user", userSuffix), Get(data, "name"), Get(data, "email"), passwordHash);
              var t := old(db.tables)[Users := old(db.tables[Users]) + [user]];
              && resp == Response(201, Obj(map["token" := token, "user" := Obj(UserPublic(user))]))
              && AcceptedInvites(t, db.tables, Select(t[Invites], [("email", Get(data, "email"))]), user["id"], pmIds, actIds, now)
  {
    var name, email, password := Get(data, "name"), Get(data, "email"), Get(data, "password");
    if !(PyTruthy(name) && PyTruthy(email) && PyTruthy(password)) {
      return Error("name, email, password required", 400);
    }
    var existing := db.FindOne(Users, "email", email);
    if existing.Some? && existing.value != map[] {
      return Error("email already exists", 400);
    }
    var user := NewUser(GenId("user", userSuffix), name, email, passwordHash);
    user := db.Insert(Users, user);
    ghost var t := db.tables;
    var invites := db.Find(Invites, [("email", email)]);
    assert invites == Select(t[Invites], [("email", email)]);
    AcceptInvites(db, invites, user["id"], pmIds, actIds, now);
    assert AcceptedInvites(t, db.tables, invites, user["id"], pmIds, actIds, now);
    resp := Response(201, Obj(map["token" := token, "user" := Obj(UserPublic(user))]));
  }

  /** The activities login logs: "logged in", once per membership of the user. */
  function LoginActivities(memberships: seq<Record>, userId: Value, actIds: nat -> string, now: string): seq<Record> {
    seq(|memberships|, k requires 0 <= k < |memberships| =>
      ActivityRecord(GenId("act", actIds(k)), Get(memberships[k], "projectId"), userId, "logged in", now))
  }

  lemma LoginActivitiesStep(memberships: seq<Record>, k: nat, userId: Value, actIds: nat -> string, now: string)
    requires k < |memberships|
    ensures LoginActivities(memberships[..k + 1], userId, actIds, now)
            == LoginActivities(memberships[..k], userId, actIds, now)
               + [ActivityRecord(GenId("act", actIds(k)), Get(memberships[k], "projectId"), userId, "logged in", now)]
  {
    var before := LoginActivities(memberships[..k], userId, actIds, now);
    var after := LoginActivities(memberships[..k + 1], userId, actIds, now);
    forall i | 0 <= i < k ensures after[i] == before[i] {
      assert memberships[..k][i] == memberships[i] && memberships[..k + 1][i] == memberships[i];
    }
    assert after == before + [after[k]];
  }

  /** The credentials match: a user has the email and the password check accepts its hash. */
  predicate CredentialsMatch(users: seq<Record>, data: Record, verify: (Value, Value) -> bool) {
    var i := FirstIndex(users, "email", Get(data, "email"));
    i < |users| && users[i] != map[] && verify(Get(users[i], "password_hash"), Get(data, "password"))
  }

  /** The activity loop of login: one "logged in" activity per membership, nothing else changes. */
  method LogLogins(db: Db, memberships: seq<Record>, userId: Value, actIds: nat -> string, now: string)
    requires db.Valid()
    modifies db
    ensures db.Valid()
    ensures db.tables == old(db.tables)[Activities := old(db.tables[Activities]) + LoginActivities(memberships, userId, actIds, now)]
  {
    ghost var t := db.tables;
    assert LoginActivities(memberships[..0], userId, actIds, now) == [];
    assert t[Activities] + [] == t[Activities];
    var k := 0;
    while k < |memberships|
      invariant 0 <= k <= |memberships|
      invariant db.Valid()
      invariant db.tables == t[Activities := t[Activities] + LoginActivities(memberships[..k], userId, actIds, now)]
    {
      ghost var logged := t[Activities] + LoginActivities(memberships[..k], userId, actIds, now);
      var act := db.LogActivity(Get(memberships[k], "projectId"), userId, "logged in", actIds(k), now);
      LoginActivitiesStep(memberships, k, userId, actIds, now);
      assert logged + [act] == t[Activities] + LoginActivities(memberships[..k + 1], userId, actIds, now);
      assert t[Activities := logged][Activities := logged + [act]] == t[Activities := logged + [act]];
      k := k + 1;
    }
    assert memberships[..k] == memberships;
  }

  /**
   * `login`: 401 with no change unless the credentials match; otherwise the user's status
   * becomes "online", one "logged in" activity is logged per membership, and the response
   * carries the token and the public user.
   */
  method Login(db: Db, data: Record, verify: (Value, Value) -> bool, token: Value, actIds: nat -> string, now: string)
    returns (resp: Response)
    requires db.Valid()
    modifies db
    ensures db.Valid()
    ensures !CredentialsMatch(old(db.tables[Users]), data, verify) ==>
              resp == Error("invalid credentials", 401) && db.tables == old(db.tables)
    ensures CredentialsMatch(old(db.tables[Users]), data, verify) ==>
              var users := old(db.tables[Users]);
              var i := FirstIndex(users, "email", Get(data, "email"));
              var user := users[i]["status" := Str("online")];
              var memberships := Select(old(db.tables[ProjectMembers]), [("userId", Get(user, "id"))]);
              && resp == Response(200, Obj(map["token" := token, "user" := Obj(UserPublic(user))]))
              && Get(UserPublic(user), "status") == Str("online")
              && db.tables == old(db.tables)[Users := users[i := user]]
                   [Activities := old(db.tables[Activities]) + LoginActivities(memberships, Get(user, "id"), actIds, now)]
  {
    var email, password := Get(data, "email"), Get(data, "password");
    var found := db.FindOne(Users, "email", email);
    if found.None? || found.value == map[] || !verify(Get(found.value, "password_hash"), password) {
      return Error("invalid credentials", 401);
    }
    var users := db.tables[Users];
    var i := FirstIndex(users, "email", email);
    // user["status"] = "online" rewrites the stored record itself.
    var user := found.value["status" := Str("online")];
    db.tables := db.tables[Users := users[i := user]];
    ghost var t := db.tables;
    assert Get(user, "id") == Get(old(db.tables[Users])[i], "id");
    var memberships := db.Find(ProjectMembers, [("userId", Get(user, "id"))]);
    assert memberships == Select(old(db.tables[ProjectMembers]), [("userId", Get(user, "id"))]);
    LogLogins(db, memberships, Get(user, "id"), actIds, now);
    resp := Response(200, Obj(map["token" := token, "user" := Obj(UserPublic(user))]));
  }
}
