/**
 * frontend/src/components/chat/chat-client.tsx: the sender lookup built from the user list and
 * the choice between the placeholder and the open chat windows.
 */
module ChatClient {
  import opened Json
  import opened Client

  /** A JavaScript `Map<string, User>`; keys are compared as values, as `Map` does. */
  type UserMap = map<Value, JsObject>

  /** The keys one user is filed under: its id and its email, each when truthy. */
  function UserKeys(u: JsObject): set<Value> {
    (if JsTruthy(Field(u, "id")) then {Field(u, "id")} else {})
    + (if JsTruthy(Field(u, "email")) then {Field(u, "email")} else {})
  }

  /** The map after the `forEach` has visited every user, as a function of the list. */
  function UserMapOf(users: seq<JsObject>): (m: UserMap)
    ensures forall u :: u in users ==> UserKeys(u) <= m.Keys
  {
    if users == [] then map[]
    else
      var u := users[|users| - 1];
      var m := UserMapOf(users[..|users| - 1]);
      var m := if JsTruthy(Field(u, "id")) then m[Field(u, "id") := u] else m;
      if JsTruthy(Field(u, "email")) then m[Field(u, "email") := u] else m
  }

  /**
   * The `forEach` over the users: each user is filed under its id, then under its email, each
   * only when truthy.
   */
  method BuildUserMap(users: seq<JsObject>) returns (userMap: UserMap)
    ensures userMap == UserMapOf(users)
  {
    userMap := map[];
    var i := 0;
    while i < |users|
      invariant 0 <= i <= |users|
      invariant userMap == UserMapOf(users[..i])
    {
      var u := users[i];
      assert users[..i + 1][..i] == users[..i];
      if JsTruthy(Field(u, "id")) {
        userMap := userMap[Field(u, "id") := u];
      }
      if JsTruthy(Field(u, "email")) {
        userMap := userMap[Field(u, "email") := u];
      }
      i := i + 1;
    }
    assert users[..i] == users;
  }

  /** A key is in the map exactly when some user is filed under it. */
  lemma {:induction false} UserMapKeys(users: seq<JsObject>, key: Value)
    ensures key in UserMapOf(users) <==> exists i :: 0 <= i < |users| && key in UserKeys(users[i])
    decreases |users|
  {
    if users != [] {
      var init := users[..|users| - 1];
      UserMapKeys(init, key);
      if exists i :: 0 <= i < |init| && key in UserKeys(init[i]) {
        var i :| 0 <= i < |init| && key in UserKeys(init[i]);
        assert users[i] == init[i];
      }
      if exists i :: 0 <= i < |users| && key in UserKeys(users[i]) {
        var i :| 0 <= i < |users| && key in UserKeys(users[i]);
        if i < |init| {
          assert init[i] == users[i];
        }
      }
    }
  }

  /** A key shared by several users maps to the last of them in the list. */
  lemma {:induction false} LaterUserWins(users: seq<JsObject>, i: nat, key: Value)
    requires i < |users| && key in UserKeys(users[i])
    requires forall j :: i < j < |users| ==> key !in UserKeys(users[j])
    ensures key in UserMapOf(users) && UserMapOf(users)[key] == users[i]
    decreases |users|
  {
    if i < |users| - 1 {
      var init := users[..|users| - 1];
      forall j | i < j < |init| ensures key !in UserKeys(init[j]) {
        assert init[j] == users[j];
      }
      LaterUserWins(init, i, key);
    }
  }

  /** What the component renders. */
  datatype ChatView = Placeholder | Windows(threads: seq<JsObject>)

  /** The placeholder with no open thread, otherwise one window per open thread, in order. */
  function View(openThreads: seq<JsObject>): (v: ChatView)
    ensures v == Placeholder <==> openThreads == []
    ensures v.Windows? ==> v.threads == openThreads
  {
    if |openThreads| == 0 then Placeholder else Windows(openThreads)
  }
}
