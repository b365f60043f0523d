/**
 * The chat-thread handlers of backend/app.py: list a project's threads, open a thread, post a
 * message or patch a thread, and delete a thread. Posting and opening are logged as
 * activities; a patch is not.
 */
module ChatRoutes {
  import opened Wrappers
  import opened Json
  import opened Store
  import opened Http
  import Text

  /** `get_chat_threads`: 400 without a truthy projectId, otherwise the project's threads. */
  method GetChatThreads(db: Db, projectId: Option<string>) returns (resp: Response)
    requires db.Valid()
    ensures !Truthy(projectId) ==> resp == Error("projectId required", 400)
    ensures Truthy(projectId) ==>
              resp == Response(200, Arr(Objs(Select(db.tables[ChatThreads], [("projectId", Str(projectId.value))]))))
  {
    if !Truthy(projectId) {
      return Error("projectId required", 400);
    }
    var threads := db.GetChatThreadsByProject(Str(projectId.value));
    resp := Response(200, Arr(Objs(threads)));
  }

  /**
   * `create_chat_thread_route`: 400 unless both title and projectId are truthy; otherwise a
   * thread with no messages is stored, "created chat thread: <title>" is logged, and the
   * answer is 201 with the thread.
   */
  method CreateChatThreadRoute(db: Db, data: Record, userId: Value, threadSuffix: string,
                               actSuffix: string, now: string) returns (resp: Response)
    requires db.Valid()
    modifies db
    ensures db.Valid()
    ensures !PyTruthy(Get(data, "title")) || !PyTruthy(Get(data, "projectId")) ==>
              resp == Error("title and projectId required", 400) && db.tables == old(db.tables)
    ensures PyTruthy(Get(data, "title")) && PyTruthy(Get(data, "projectId")) ==>
              var thread := ThreadRecord(GenId("thread", threadSuffix), Get(data, "title"), Get(data, "projectId"), userId, now);
              && resp == Response(201, Obj(thread))
              && db.tables == Logged(old(db.tables), ChatThreads, old(db.tables[ChatThreads]) + [thread],
                                     ActivityRecord(GenId("act", actSuffix), Get(data, "projectId"), userId,
                                                    "created chat thread: " + PyStr(Get(data, "title")), now))
  {
    var title := Get(data, "title");
    var projectId := Get(data, "projectId");
    if !PyTruthy(title) || !PyTruthy(projectId) {
      return Error("title and projectId required", 400);
    }
    var thread := db.CreateChatThread(title, projectId, userId, threadSuffix, now);
    var _ := db.LogActivity(projectId, userId, "created chat thread: " + PyStr(title), actSuffix, now);
    resp := Response(201, Obj(thread));
  }

  // ---------------------------------------------------------------------------
  // Posting a message
  // ---------------------------------------------------------------------------

  /**
   * `(msg.get("text") or "").strip()`: None when Python raises, that is when the message is
   * not a dictionary or its text is truthy but not a string.
   */
  function MessageText(msg: Value): (r: Option<string>)
    ensures r.Some? ==> msg.Obj?
    ensures r.Some? ==> Text.PyStrip(r.value) == r.value
  {
    match msg
    case Obj(m) =>
      var text := Get(m, "text");
      if !PyTruthy(text) then Some("")
      else if text.Str? then (Text.TrimIdempotent(text.s, Text.IsPySpace); Some(Text.PyStrip(text.s)))
      else None
    case _ => None
  }

  /** `list(s)` of a Python string: its characters, each as a one-character string, in order. */
  function CharList(s: string): (r: seq<Value>)
    ensures |r| == |s|
    ensures forall k :: 0 <= k < |s| ==> r[k] == Str([s[k]])
  {
    if s == [] then [] else [Str([s[0]])] + CharList(s[1..])
  }

  /**
   * `list(thread.get("messages", []))`: no messages for a missing key, the elements of a stored
   * list and the characters of a stored string. None for what `list` rejects (null, numbers,
   * booleans) and for a dictionary, whose keys Python lists in an order the model does not keep.
   */
  function StoredMessages(thread: Record): (r: Option<seq<Value>>)
    ensures "messages" !in thread ==> r == Some([])
    ensures "messages" in thread && thread["messages"].Arr? ==> r == Some(thread["messages"].items)
    ensures "messages" in thread && thread["messages"].Str? ==>
              r.Some? && |r.value| == |thread["messages"].s|
              && forall k :: 0 <= k < |r.value| ==> r.value[k] == Str([thread["messages"].s[k]])
    ensures r.None? <==> "messages" in thread && !thread["messages"].Arr? && !thread["messages"].Str?
  {
    var msgs := GetOr(thread, "messages", Arr([]));
    if msgs.Arr? then Some(msgs.items)
    else if msgs.Str? then Some(CharList(msgs.s))
    else None
  }

  /** The message object the handler builds; the sender defaults to the caller. */
  function NewMessage(msg: Record, text: string, userId: Value, id: string, now: string): Record {
    map["id" := Str(id), "text" := Str(text), "senderId" := GetOr(msg, "senderId", userId), "timestamp" := Str(now)]
  }

  /** The patch the message branch hands to `update_chat_thread`. */
  function WithMessage(msgs: seq<Value>, message: Record, now: string): Record {
    map["messages" := Arr(msgs + [Obj(message)]), "updatedAt" := Str(now)]
  }

  /**
   * A message dictionary is refused with 400 exactly when its text is missing, falsy or made
   * only of whitespace; a posted text is a string of the body with its ends stripped.
   */
  lemma MessageTextBlank(m: Record)
    ensures MessageText(Obj(m)).Some? <==> !PyTruthy(Get(m, "text")) || Get(m, "text").Str?
    ensures MessageText(Obj(m)) == Some("") <==>
              !PyTruthy(Get(m, "text"))
              || (Get(m, "text").Str? && forall k :: 0 <= k < |Get(m, "text").s| ==> Text.IsPySpace(Get(m, "text").s[k]))
    ensures MessageText(Obj(m)).Some? && MessageText(Obj(m)).value != "" ==>
              Get(m, "text").Str? && MessageText(Obj(m)).value == Text.PyStrip(Get(m, "text").s)
  {
    var text := Get(m, "text");
    if text.Str? {
      Text.TrimEmptyIffBlank(text.s, Text.IsPySpace);
    }
  }

  /**
   * Posting appends exactly one message at the end: the earlier messages stay in place, the
   * thread keeps every other field, and only `messages` and `updatedAt` change.
   */
  lemma PostAppends(thread: Record, msgs: seq<Value>, message: Record, now: string)
    ensures var u := thread + WithMessage(msgs, message, now);
            && u.Keys == thread.Keys + {"messages", "updatedAt"}
            && u["messages"].Arr? && |u["messages"].items| == |msgs| + 1
            && u["messages"].items[..|msgs|] == msgs
            && u["messages"].items[|msgs|] == Obj(message)
            && u["updatedAt"] == Str(now)
            && forall k :: k in thread && k != "messages" && k != "updatedAt" ==> u[k] == thread[k]
  {
    var u := thread + WithMessage(msgs, message, now);
    assert u["messages"].items == msgs + [Obj(message)];
  }

  // ---------------------------------------------------------------------------
  // Patching a thread
  // ---------------------------------------------------------------------------

  /** `{k: data[k] for k in ["title", "messages"] if k in data}`. */
  function ThreadPatch(data: Record): Record {
    CopyKeys(map[], data, ["title", "messages"])
  }

  /** The patch holds the body's title and messages, when present, and nothing else. */
  lemma ThreadPatchExact(data: Record)
    ensures forall k :: k in ThreadPatch(data) <==> (k == "title" || k == "messages") && k in data
    ensures forall k :: k in ThreadPatch(data) ==> ThreadPatch(data)[k] == data[k]
  {
    CopyKeysSpec(map[], data, ["title", "messages"]);
  }

  /** A thread patch never touches the thread's id, project, creator or creation time. */
  lemma ThreadPatchKeepsIdentity(thread: Record, data: Record, now: string)
    ensures var u := thread + ThreadPatch(data)["updatedAt" := Str(now)];
            && Get(u, "id") == Get(thread, "id") && Get(u, "projectId") == Get(thread, "projectId")
            && Get(u, "creatorId") == Get(thread, "creatorId") && Get(u, "createdAt") == Get(thread, "createdAt")
            && u["updatedAt"] == Str(now)
  {
    ThreadPatchExact(data);
  }

  /**
   * `update_chat_thread_route`. 404 with no change when no stored thread (an empty one counts
   * as none) has the id. With a "message" key: a raised exception (500) or a blank text (400)
   * changes nothing; otherwise the message is appended to the thread's messages, the thread's
   * `updatedAt` is set, "sent a message in thread: <title>" is logged and the updated thread
   * answered. Without one: a non-empty title/messages patch is merged with `updatedAt` and the
   * updated thread answered, unlogged; an empty patch answers the stored thread unchanged.
   */
  method UpdateChatThreadRoute(db: Db, threadId: string, data: Record, userId: Value, msgSuffix: string,
                               actSuffix: string, now: string) returns (resp: Response)
    requires db.Valid()
    modifies db
    ensures db.Valid()
    ensures var items := old(db.tables[ChatThreads]);
            var i := FirstIndex(items, "id", Str(threadId));
            !(i < |items| && items[i] != map[]) ==>
              resp == Error("thread not found", 404) && db.tables == old(db.tables)
    ensures var items := old(db.tables[ChatThreads]);
            var i := FirstIndex(items, "id", Str(threadId));
            i < |items| && items[i] != map[] && "message" in data ==>
              var text := MessageText(data["message"]);
              var msgs := StoredMessages(items[i]);
              if text.None? then resp == Crash && db.tables == old(db.tables)
              else if text.value == "" then resp == Error("message.text required", 400) && db.tables == old(db.tables)
              else if msgs.None? then resp == Crash && db.tables == old(db.tables)
              else
                var message := NewMessage(data["message"].fields, text.value, userId, GenId("msg", msgSuffix), now);
                var updated := items[i] + WithMessage(msgs.value, message, now);
                && resp == Response(200, Obj(updated))
                && db.tables == Logged(old(db.tables), ChatThreads, items[i := updated],
                                       ActivityRecord(GenId("act", actSuffix), Get(items[i], "projectId"), userId,
                                                      "sent a message in thread: " + PyStr(Get(items[i], "title")), now))
    ensures var items := old(db.tables[ChatThreads]);
            var i := FirstIndex(items, "id", Str(threadId));
            i < |items| && items[i] != map[] && "message" !in data ==>
              var patch := ThreadPatch(data);
              if patch == map[] then resp == Response(200, Obj(items[i])) && db.tables == old(db.tables)
              else
                var updated := items[i] + patch["updatedAt" := Str(now)];
                resp == Response(200, Obj(updated)) && db.tables == old(db.tables)[ChatThreads := items[i := updated]]
  {
    var thread := db.FindOne(ChatThreads, "id", Str(threadId));
    if thread.None? || thread.value == map[] {
      return Error("thread not found", 404);
    }
    if "message" in data {
      var text := MessageText(data["message"]);
      if text.None? {
        return Crash;
      }
      if text.value == "" {
        return Error("message.text required", 400);
      }
      var msgs := StoredMessages(thread.value);
      if msgs.None? {
        return Crash;
      }
      var message := NewMessage(data["message"].fields, text.value, userId, GenId("msg", msgSuffix), now);
      var updated := db.UpdateChatThread(Str(threadId), WithMessage(msgs.value, message, now));
      var _ := db.LogActivity(Get(thread.value, "projectId"), userId,
                              "sent a message in thread: " + PyStr(Get(thread.value, "title")), actSuffix, now);
      return Response(200, Obj(updated.value));
    }
    var patch := ThreadPatch(data);
    if patch != map[] {
      var updated := db.UpdateChatThread(Str(threadId), patch["updatedAt" := Str(now)]);
      return Response(200, Obj(updated.value));
    }
    resp := Response(200, Obj(thread.value));
  }

  /**
   * `delete_chat_thread_route`: 404 with no change when no stored thread has the id; otherwise
   * the thread is removed, "deleted chat thread: <title>" is logged, and the answer is
   * `{"ok": true}`.
   */
  method DeleteChatThreadRoute(db: Db, threadId: string, userId: Value, actSuffix: string, now: string)
    returns (resp: Response)
    requires db.Valid()
    modifies db
    ensures db.Valid()
    ensures var items := old(db.tables[ChatThreads]);
            var i := FirstIndex(items, "id", Str(threadId));
            !(i < |items| && items[i] != map[]) ==>
              resp == Error("thread not found", 404) && db.tables == old(db.tables)
    ensures var items := old(db.tables[ChatThreads]);
            var i := FirstIndex(items, "id", Str(threadId));
            i < |items| && items[i] != map[] ==>
              && resp == Response(200, OkBody)
              && db.tables == Logged(old(db.tables), ChatThreads, items[..i] + items[i + 1..],
                                     ActivityRecord(GenId("act", actSuffix), Get(items[i], "projectId"), userId,
                                                    "deleted chat thread: " + PyStr(Get(items[i], "title")), now))
  {
    var thread := db.FindOne(ChatThreads, "id", Str(threadId));
    if thread.None? || thread.value == map[] {
      return Error("thread not found", 404);
    }
    var _ := db.DeleteChatThread(Str(threadId));
    var _ := db.LogActivity(Get(thread.value, "projectId"), userId,
                            "deleted chat thread: " + PyStr(Get(thread.value, "title")), actSuffix, now);
    resp := Response(200, OkBody);
  }
}
