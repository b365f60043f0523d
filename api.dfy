/**
 * The request side of frontend/src/lib/api.ts: header merging, the bearer header read from
 * storage, the error message `apiFetch` throws, and the requests the project, task,
 * milestone and chat calls send. `fetch` itself is an input: the status it reported and the
 * body it parsed, if any. Storage is a map from key to string.
 */
module Api {
  import opened Wrappers
  import opened Json
  import Text

  type Headers = map<string, string>
  type Storage = map<string, string>

  /**
   * One argument of `mergeHeaders`: `undefined`, something iterated as `[key, value]` pairs
   * (an array of pairs, or a `Headers` object through its `forEach`), or a plain record.
   */
  datatype HeaderPart = Absent | Pairs(pairs: seq<(string, string)>) | Rec(fields: Headers)

  // ---------------------------------------------------------------------------
  // mergeHeaders
  // ---------------------------------------------------------------------------

  /** `p.forEach(([k, v]) => out[k] = v)`, as a function of the starting record. */
  function SetPairs(out: Headers, ps: seq<(string, string)>): Headers {
    if ps == [] then out else SetPairs(out, ps[..|ps| - 1])[ps[|ps| - 1].0 := ps[|ps| - 1].1]
  }

  /** What one part does to the merged record. */
  function MergePart(out: Headers, p: HeaderPart): Headers {
    match p
    case Absent => out
    case Pairs(ps) => SetPairs(out, ps)
    case Rec(m) => out + m
  }

  /** The record `mergeHeaders(...parts)` returns, as a function of the parts. */
  function MergeAll(parts: seq<HeaderPart>): Headers {
    if parts == [] then map[] else MergePart(MergeAll(parts[..|parts| - 1]), parts[|parts| - 1])
  }

  predicate HasKey(ps: seq<(string, string)>, k: string) {
    exists j :: 0 <= j < |ps| && ps[j].0 == k
  }

  /** The value of the last pair with key `k`. */
  function LastValue(ps: seq<(string, string)>, k: string): string
    requires HasKey(ps, k)
  {
    var last := ps[|ps| - 1];
    if last.0 == k then last.1 else LastValue(ps[..|ps| - 1], k)
  }

  /** The part sets key `k`. */
  predicate Sets(p: HeaderPart, k: string) {
    match p
    case Absent => false
    case Pairs(ps) => HasKey(ps, k)
    case Rec(m) => k in m
  }

  /** The value the part gives key `k`: the last pair wins inside an array of pairs. */
  function ValueIn(p: HeaderPart, k: string): string
    requires Sets(p, k)
  {
    match p
    case Pairs(ps) => LastValue(ps, k)
    case Rec(m) => m[k]
  }

  /** `mergeHeaders`: the loop over the parts, skipping the falsy ones. */
  method MergeHeaders(parts: seq<HeaderPart>) returns (out: Headers)
    ensures out == MergeAll(parts)
  {
    out := map[];
    var i := 0;
    while i < |parts|
      invariant 0 <= i <= |parts|
      invariant out == MergeAll(parts[..i])
    {
      assert parts[..i + 1][..i] == parts[..i];
      match parts[i] {
        case Absent =>
        case Pairs(ps) =>
        var j := 0;
        ghost var before := out;
        while j < |ps|
          invariant 0 <= j <= |ps|
          invariant out == SetPairs(before, ps[..j])
        {
          assert ps[..j + 1][..j] == ps[..j];
          out := out[ps[j].0 := ps[j].1];
          j := j + 1;
        }
        assert ps[..j] == ps;
        case Rec(m) =>
          out := out + m;
      }
      i := i + 1;
    }
    assert parts[..i] == parts;
  }

  /** Setting pairs adds exactly their keys, and each key ends with the value of its last pair. */
  lemma {:induction false} SetPairsSpec(out: Headers, ps: seq<(string, string)>)
    ensures forall k :: k in SetPairs(out, ps) <==> k in out || HasKey(ps, k)
    ensures forall k :: k in SetPairs(out, ps) ==>
              SetPairs(out, ps)[k] == if HasKey(ps, k) then LastValue(ps, k) else out[k]
    decreases |ps|
  {
    if ps != [] {
      var init := ps[..|ps| - 1];
      SetPairsSpec(out, init);
      forall k ensures HasKey(ps, k) <==> HasKey(init, k) || ps[|ps| - 1].0 == k {
        if HasKey(ps, k) && ps[|ps| - 1].0 != k {
          var j :| 0 <= j < |ps| && ps[j].0 == k;
          assert init[j].0 == k;
        }
        if HasKey(init, k) {
          var j :| 0 <= j < |init| && init[j].0 == k;
          assert ps[j].0 == k;
        }
      }
    }
  }

  /** A part that does not set `k` leaves `k` as it was. */
  lemma MergePartKeeps(out: Headers, p: HeaderPart, k: string)
    requires !Sets(p, k)
    ensures k in MergePart(out, p) <==> k in out
    ensures k in out ==> MergePart(out, p)[k] == out[k]
  {
    if p.Pairs? {
      SetPairsSpec(out, p.pairs);
    }
  }

  /** A part that sets `k` decides its value. */
  lemma MergePartSets(out: Headers, p: HeaderPart, k: string)
    requires Sets(p, k)
    ensures k in MergePart(out, p) && MergePart(out, p)[k] == ValueIn(p, k)
  {
    if p.Pairs? {
      SetPairsSpec(out, p.pairs);
    }
  }

  /**
   * A later part overrides an earlier one: the merged value of `k` is the one given by the last
   * part that sets `k`.
   */
  lemma {:induction false} LaterPartWins(parts: seq<HeaderPart>, i: nat, k: string)
    requires i < |parts| && Sets(parts[i], k)
    requires forall j :: i < j < |parts| ==> !Sets(parts[j], k)
    ensures k in MergeAll(parts) && MergeAll(parts)[k] == ValueIn(parts[i], k)
    decreases |parts|
  {
    var n := |parts| - 1;
    if i == n {
      MergePartSets(MergeAll(parts[..n]), parts[n], k);
    } else {
      LaterPartWins(parts[..n], i, k);
      MergePartKeeps(MergeAll(parts[..n]), parts[n], k);
    }
  }

  /** The merged record has exactly the keys some part sets. */
  lemma {:induction false} MergedKeys(parts: seq<HeaderPart>, k: string)
    ensures k in MergeAll(parts) <==> exists i :: 0 <= i < |parts| && Sets(parts[i], k)
    decreases |parts|
  {
    if parts != [] {
      var n := |parts| - 1;
      MergedKeys(parts[..n], k);
      if Sets(parts[n], k) {
        MergePartSets(MergeAll(parts[..n]), parts[n], k);
      } else {
        MergePartKeeps(MergeAll(parts[..n]), parts[n], k);
        if exists i :: 0 <= i < |parts| && Sets(parts[i], k) {
          var i :| 0 <= i < |parts| && Sets(parts[i], k);
          assert parts[..n][i] == parts[i];
        }
      }
    }
  }

  /** The parts that are not `undefined`. */
  function Present(parts: seq<HeaderPart>): seq<HeaderPart> {
    if parts == [] then []
    else Present(parts[..|parts| - 1]) + (if parts[|parts| - 1].Absent? then [] else [parts[|parts| - 1]])
  }

  /** `undefined` parts are skipped: dropping them changes nothing. */
  lemma {:induction false} AbsentPartsSkipped(parts: seq<HeaderPart>)
    ensures MergeAll(Present(parts)) == MergeAll(parts)
    decreases |parts|
  {
    if parts != [] {
      var n := |parts| - 1;
      AbsentPartsSkipped(parts[..n]);
      if parts[n].Absent? {
        assert Present(parts) == Present(parts[..n]) + [] == Present(parts[..n]);
        assert MergeAll(parts) == MergePart(MergeAll(parts[..n]), parts[n]) == MergeAll(parts[..n]);
      } else {
        var p := Present(parts[..n]) + [parts[n]];
        assert p[..|p| - 1] == Present(parts[..n]) && p[|p| - 1] == parts[n];
      }
    }
  }

  // ---------------------------------------------------------------------------
  // getAuthHeaders and apiFetch
  // ---------------------------------------------------------------------------

  /** `localStorage.getItem("token")` is truthy: stored and not empty. */
  predicate HasToken(storage: Storage) {
    "token" in storage && storage["token"] != ""
  }

  /**
   * `getAuthHeaders()`: no header outside the browser or without a token, otherwise exactly the
   * bearer header.
   */
  function AuthHeaders(inBrowser: bool, storage: Storage): (h: Headers)
    ensures h == map[] <==> !inBrowser || !HasToken(storage)
    ensures h != map[] ==> h == map["Authorization" := "Bearer " + storage["token"]]
  {
    if !inBrowser then map[]
    else if !HasToken(storage) then map[]
    else
      var h := map["Authorization" := "Bearer " + storage["token"]];
      assert "Authorization" in h;
      h
  }

  /** What `res.json()` gave: the parsed body, or `{}` when parsing failed. */
  function BodyOrEmpty(parsed: Option<Value>): Value {
    if parsed.Some? then parsed.value else Obj(map[])
  }

  /** `data.error || data.message || "API error"`, for a body whose properties can be read. */
  function ErrorValue(data: Value): (v: Value)
    ensures JsTruthy(Prop(data, "error")) ==> v == Prop(data, "error")
    ensures !JsTruthy(Prop(data, "error")) && JsTruthy(Prop(data, "message")) ==> v == Prop(data, "message")
    ensures !JsTruthy(Prop(data, "error")) && !JsTruthy(Prop(data, "message")) ==> v == Str("API error")
  {
    JsOr(JsOr(Prop(data, "error"), Prop(data, "message")), Str("API error"))
  }

  /** The message V8 gives the TypeError raised by reading a property of a JSON `null` body. */
  const NullBodyMessage: string := "Cannot read properties of null (reading 'error')"

  /**
   * `apiFetch` once `fetch` has answered: an OK status yields the body (`{}` when it did not
   * parse); otherwise the promise rejects with the error message chosen from the body.
   */
  function ApiFetch(ok: bool, parsed: Option<Value>): (r: Outcome<Value>)
    ensures ok ==> r == Success(BodyOrEmpty(parsed))
    ensures !ok && parsed.None? ==> r == Failure("API error")
    ensures !ok && parsed == Some(Null) ==> r == Failure(NullBodyMessage)
    ensures !ok && parsed.Some? && parsed.value != Null && ErrorValue(parsed.value).Str? ==>
              r == Failure(ErrorValue(parsed.value).s)
  {
    var data := BodyOrEmpty(parsed);
    if ok then Success(data)
    else if data == Null then Failure(NullBodyMessage)
    else Failure(JsString(ErrorValue(data)))
  }

  /** `String(v)` for the values an error field can hold; arrays and objects are not rendered. */
  function JsString(v: Value): string {
    match v
    case Str(s) => s
    case Num(n) => if n < 0 then "-" + Text.NatToString(-n) else Text.NatToString(n)
    case Bool(b) => if b then "true" else "false"
    case Null => "null"
    case Undefined => "undefined"
    case _ => ""
  }

  /** The server's `{"error": msg}` bodies surface as `msg` in the client. */
  lemma ServerErrorSurfaces(msg: string)
    ensures msg != "" ==> ApiFetch(false, Some(Obj(map["error" := Str(msg)]))) == Failure(msg)
    ensures msg == "" ==> ApiFetch(false, Some(Obj(map["error" := Str(msg)]))) == Failure("API error")
  {
  }

  // ---------------------------------------------------------------------------
  // Requests
  // ---------------------------------------------------------------------------

  datatype Request = Request(verb: string, url: string, headers: Headers, body: Option<Value>)

  /** `headers: mergeHeaders(getAuthHeaders())` in the browser. */
  function AuthOnly(storage: Storage): Headers {
    MergeAll([Rec(AuthHeaders(true, storage))])
  }

  /** `mergeHeaders({"Content-Type": "application/json"}, getAuthHeaders())` in the browser. */
  function JsonHeaders(storage: Storage): Headers {
    MergeAll([Rec(map["Content-Type" := "application/json"]), Rec(AuthHeaders(true, storage))])
  }

  /** A request sent with a token carries it as the bearer header; JSON requests also name their content type. */
  lemma HeadersCarryToken(storage: Storage)
    requires HasToken(storage)
    ensures AuthOnly(storage) == map["Authorization" := "Bearer " + storage["token"]]
    ensures JsonHeaders(storage) ==
              map["Content-Type" := "application/json", "Authorization" := "Bearer " + storage["token"]]
  {
    var auth := AuthHeaders(true, storage);
    var json := map["Content-Type" := "application/json"];
    assert [Rec(auth)][..0] == [];
    assert map[] + auth == auth;
    var parts := [Rec(json), Rec(auth)];
    assert parts[..1] == [Rec(json)] && [Rec(json)][..0] == [];
    assert map[] + json == json;
    assert MergeAll([Rec(auth)]) == MergePart(MergeAll([]), Rec(auth)) == auth;
    assert MergeAll(parts[..1]) == json;
    assert MergeAll(parts) == MergePart(MergeAll(parts[..1]), Rec(auth)) == json + auth;
  }

  /** `fetchProjects`: no request (and `[]`) without a token; otherwise a GET carrying the token. */
  function FetchProjects(base: string, storage: Storage): (r: Option<Request>)
    ensures r.None? <==> !HasToken(storage)
    ensures r.Some? ==> r.value.url == base + "/api/projects" && r.value.verb == "GET" && r.value.body.None?
    ensures r.Some? ==> r.value.headers == map["Authorization" := "Bearer " + storage["token"]]
  {
    if !HasToken(storage) then None
    else HeadersCarryToken(storage); Some(Request("GET", base + "/api/projects", AuthOnly(storage), None))
  }

  /** The listing URL of `fetchTasks`/`fetchMilestones`: the query only for a truthy project id. */
  function ListUrl(base: string, path: string, projectId: Option<string>): string {
    if projectId.Some? && projectId.value != "" then base + path + "?projectId=" + Text.EncodeURIComponent(projectId.value)
    else base + path
  }

  /** `fetchTasks(projectId)`: no request (and `[]`) without a token; otherwise a GET carrying the token. */
  function FetchTasks(base: string, storage: Storage, projectId: Option<string>): (r: Option<Request>)
    ensures r.None? <==> !HasToken(storage)
    ensures r.Some? ==> r.value.url == ListUrl(base, "/api/tasks", projectId) && r.value.verb == "GET" && r.value.body.None?
    ensures r.Some? ==> r.value.headers == map["Authorization" := "Bearer " + storage["token"]]
  {
    if !HasToken(storage) then None
    else HeadersCarryToken(storage); Some(Request("GET", ListUrl(base, "/api/tasks", projectId), AuthOnly(storage), None))
  }

  /** `fetchMilestones(projectId)`: no request (and `[]`) without a token; otherwise a GET carrying the token. */
  function FetchMilestones(base: string, storage: Storage, projectId: Option<string>): (r: Option<Request>)
    ensures r.None? <==> !HasToken(storage)
    ensures r.Some? ==> r.value.url == ListUrl(base, "/api/milestones", projectId) && r.value.verb == "GET" && r.value.body.None?
    ensures r.Some? ==> r.value.headers == map["Authorization" := "Bearer " + storage["token"]]
  {
    if !HasToken(storage) then None
    else HeadersCarryToken(storage); Some(Request("GET", ListUrl(base, "/api/milestones", projectId), AuthOnly(storage), None))
  }

  /**
   * The query is added exactly for a truthy project id, and its value is percent-encoded, so it
   * never carries a character that would end or split the query.
   */
  lemma ListUrlQuery(base: string, path: string, projectId: Option<string>)
    ensures projectId.None? || projectId.value == "" ==> ListUrl(base, path, projectId) == base + path
    ensures projectId.Some? && projectId.value != "" ==>
              var url := ListUrl(base, path, projectId);
              var q := Text.EncodeURIComponent(projectId.value);
              && url == base + path + "?projectId=" + q
              && forall k :: 0 <= k < |q| ==> q[k] == '%' || Text.IsUnreserved(q[k])
  {
    if projectId.Some? && projectId.value != "" {
      Text.EncodedIsQuerySafe(projectId.value);
    }
  }

  /** The per-thread URL of the chat calls. */
  function ThreadUrl(base: string, threadId: string): string {
    base + "/api/chatThreads/" + threadId
  }

  /** `sendChatMessage(threadId, {text, senderId})`: PUT `{message: {text, senderId}}`. */
  function SendChatMessage(base: string, storage: Storage, threadId: string, text: string, senderId: string): (r: Request)
    ensures r.verb == "PUT" && r.url == ThreadUrl(base, threadId)
    ensures r.body.Some? && r.body.value.Obj? && r.body.value.fields.Keys == {"message"}
    ensures r.body.value.fields["message"] == Obj(map["text" := Str(text), "senderId" := Str(senderId)])
  {
    Request("PUT", ThreadUrl(base, threadId), JsonHeaders(storage),
            Some(Obj(map["message" := Obj(map["text" := Str(text), "senderId" := Str(senderId)])])))
  }

  /** `renameChatThread(threadId, newTitle)`: PUT `{title: newTitle}`. */
  function RenameChatThread(base: string, storage: Storage, threadId: string, newTitle: string): (r: Request)
    ensures r.verb == "PUT" && r.url == ThreadUrl(base, threadId)
    ensures r.body == Some(Obj(map["title" := Str(newTitle)]))
  {
    Request("PUT", ThreadUrl(base, threadId), JsonHeaders(storage), Some(Obj(map["title" := Str(newTitle)])))
  }

  /**
   * Both chat calls go to the same URL with the same method; the server tells them apart by the
   * body alone: a message body has "message" and a rename body has not.
   */
  lemma ChatCallsShareUrl(base: string, storage: Storage, threadId: string, text: string, senderId: string, newTitle: string)
    ensures var send := SendChatMessage(base, storage, threadId, text, senderId);
            var rename := RenameChatThread(base, storage, threadId, newTitle);
            && send.url == rename.url && send.verb == rename.verb && send.headers == rename.headers
            && "message" in send.body.value.fields && "message" !in rename.body.value.fields
  {
  }
}
