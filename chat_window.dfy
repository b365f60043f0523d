/**
 * frontend/src/components/chat/chat-window.tsx: one open thread, its local message list and the
 * message input. The thread belongs to the parent; the model records the threads handed to
 * `onUpdateThread`, in order. `Date.now()` and the ISO timestamp are inputs, and so is what
 * `JSON.parse` makes of the stored user.
 */
module ChatWindow {
  import opened Wrappers
  import opened Json
  import opened Text
  import opened Client
  import opened ChatClient

  /** The messages a thread carries; a `ChatThread` holds them as an array. */
  function ThreadMessages(thread: JsObject): seq<Value>
    requires Field(thread, "messages").Arr?
  {
    Field(thread, "messages").items
  }

  /** `currentUser.id || currentUser.email`. */
  function SenderId(user: Value): (r: Value)
    ensures JsTruthy(Prop(user, "id")) ==> r == Prop(user, "id")
    ensures !JsTruthy(Prop(user, "id")) ==> r == Prop(user, "email")
  {
    JsOr(Prop(user, "id"), Prop(user, "email"))
  }

  /** The message `handleSendMessage` builds from the input. */
  function NewMessage(input: string, user: Value, now: nat, timestamp: string): (m: JsObject)
    ensures m.Keys == {"id", "text", "senderId", "timestamp"}
    ensures m["text"] == Str(JsTrim(input)) && m["senderId"] == SenderId(user)
  {
    var m := map["id" := Str("msg-" + NatToString(now)), "timestamp" := Str(timestamp)];
    assert "text" != "id" && "text" != "timestamp" && "senderId" != "text";
    m["senderId" := SenderId(user)]["text" := Str(JsTrim(input))]
  }

  /** How a message's sender is shown. */
  datatype Sender =
    | Known(user: JsObject)
    | Fallback(name: string, initials: string)
    | Throws   // `charAt` on a sender id that is not a string

  /**
   * `userMap.get(senderId) || { name: senderId, initials: senderId.charAt(0).toUpperCase() }`.
   */
  function SenderOf(userMap: UserMap, senderId: Value): (s: Sender)
    ensures senderId in userMap ==> s == Known(userMap[senderId])
    ensures senderId !in userMap && senderId.Str? ==>
              s.Fallback? && s.name == senderId.s && |s.initials| == (if senderId.s == "" then 0 else 1)
    ensures senderId !in userMap && senderId.Str? && senderId.s != "" ==> s.initials == [UpperChar(senderId.s[0])]
  {
    if senderId in userMap then Known(userMap[senderId])
    else if senderId.Str? then Fallback(senderId.s, Upper(if senderId.s == "" then "" else senderId.s[..1]))
    else Throws
  }

  /** A sender filed under its id is shown as that user, never by the fallback. */
  lemma KnownSenderShown(users: seq<JsObject>, i: nat)
    requires i < |users| && JsTruthy(Field(users[i], "id"))
    requires forall j :: i < j < |users| ==> Field(users[i], "id") !in UserKeys(users[j])
    ensures SenderOf(UserMapOf(users), Field(users[i], "id")) == Known(users[i])
  {
    LaterUserWins(users, i, Field(users[i], "id"));
  }

  class Window {
    var thread: JsObject
    var messages: seq<Value>
    var newMessage: string
    var currentUser: Value
    var delivered: seq<JsObject>

    constructor (thread: JsObject)
      requires Field(thread, "messages").Arr?
      ensures this.thread == thread && messages == ThreadMessages(thread)
      ensures newMessage == "" && currentUser == Null && delivered == []
    {
      this.thread := thread;
      messages := Field(thread, "messages").items;
      newMessage := "";
      currentUser := Null;
      delivered := [];
    }

    /**
     * The `useUser` effect. `stored` is the string under "user" (`None` when absent) and `parsed`
     * what `JSON.parse` makes of it (`None` when it rejects it). A stored user replaces the
     * initial `null`; a string that does not parse throws before the setter, so `threw` is set.
     */
    method LoadUser(stored: Option<string>, parsed: Option<Value>) returns (threw: bool)
      modifies this
      ensures threw <==> stored.Some? && stored.value != "" && parsed.None?
      ensures stored.Some? && stored.value != "" && parsed.Some? ==> currentUser == parsed.value
      ensures !(stored.Some? && stored.value != "" && parsed.Some?) ==> currentUser == old(currentUser)
      ensures thread == old(thread) && messages == old(messages) && newMessage == old(newMessage)
      ensures delivered == old(delivered)
    {
      threw := stored.Some? && stored.value != "" && parsed.None?;
      if stored.Some? && stored.value != "" && parsed.Some? {
        currentUser := parsed.value;
      }
    }

    /** The parent passes a new thread; the effect on `thread.messages` copies its messages. */
    method Receive(t: JsObject)
      requires Field(t, "messages").Arr?
      modifies this
      ensures thread == t && messages == ThreadMessages(t)
      ensures newMessage == old(newMessage) && currentUser == old(currentUser) && delivered == old(delivered)
    {
      thread := t;
      messages := Field(t, "messages").items;
    }

    /**
     * `handleSendMessage`: blank input or no user changes nothing. Otherwise the trimmed message
     * is appended, the thread with only its messages replaced goes to the parent, and the input
     * is cleared.
     */
    method SendMessage(now: nat, timestamp: string)
      modifies this
      ensures JsTrim(old(newMessage)) == "" || !JsTruthy(currentUser) ==>
                messages == old(messages) && newMessage == old(newMessage) && delivered == old(delivered)
      ensures JsTrim(old(newMessage)) != "" && JsTruthy(currentUser) ==>
                var m := NewMessage(old(newMessage), currentUser, now, timestamp);
                && messages == old(messages) + [Obj(m)]
                && delivered == old(delivered) + [thread["messages" := Arr(messages)]]
                && newMessage == ""
      ensures thread == old(thread) && currentUser == old(currentUser)
    {
      if JsTrim(newMessage) == "" || !JsTruthy(currentUser) {
        return;
      }
      var m := NewMessage(newMessage, currentUser, now, timestamp);
      messages := messages + [Obj(m)];
      delivered := delivered + [thread["messages" := Arr(messages)]];
      newMessage := "";
    }
  }

  /**
   * A sent thread differs from the window's thread only in its messages, which are the old ones
   * followed by the new message.
   */
  lemma SentThreadOnlyMessages(thread: JsObject, old_messages: seq<Value>, m: JsObject)
    ensures var sent := thread["messages" := Arr(old_messages + [Obj(m)])];
            && sent.Keys == thread.Keys + {"messages"}
            && (forall k :: k in thread && k != "messages" ==> sent[k] == thread[k])
            && |sent["messages"].items| == |old_messages| + 1
            && sent["messages"].items[..|old_messages|] == old_messages
            && sent["messages"].items[|old_messages|] == Obj(m)
  {
  }

  /** The text sent is never blank and has no surrounding white space. */
  lemma SentTextTrimmed(input: string, user: Value, now: nat, timestamp: string)
    requires JsTrim(input) != ""
    ensures var t := NewMessage(input, user, now, timestamp)["text"].s;
            t != "" && JsTrim(t) == t && !IsJsSpace(t[0]) && !IsJsSpace(t[|t| - 1])
  {
    TrimIdempotent(input, IsJsSpace);
    TrimIsCore(input, IsJsSpace);
  }
}
