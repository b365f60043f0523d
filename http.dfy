/**
 * What the route handlers of backend/app.py share once Flask is stripped away: a response is
 * a status code and a JSON body, errors carry `{"error": msg}`, and updates copy a whitelist
 * of keys from the request body onto a stored record.
 */
module Http {
  import opened Wrappers
  import opened Json
  import opened Store
  import Text

  type Tables = map<Collection, seq<Record>>

  datatype Response = Response(status: int, body: Value)

  /** `error(msg, code)`. */
  function Error(msg: string, code: int): Response {
    Response(code, Obj(map["error" := Str(msg)]))
  }

  /** The body of every successful delete. */
  const OkBody: Value := Obj(map["ok" := Bool(true)])

  /** An uncaught exception in a handler: Flask answers 500 and the store keeps what was done before it. */
  const Crash: Response := Response(500, Null)

  /** The store after a handler rewrote one collection and logged one activity. */
  function Logged(t: Tables, c: Collection, items: seq<Record>, act: Record): Tables
    requires HasCollections(t)
  {
    t[c := items][Activities := t[Activities] + [act]]
  }

  /** `request.args.get("projectId")` is truthy: present and not empty. */
  predicate Truthy(arg: Option<string>) {
    arg.Some? && arg.value != ""
  }

  /** A list of records as the JSON array `jsonify` sends. */
  function Objs(rs: seq<Record>): (vs: seq<Value>)
    ensures |vs| == |rs|
    ensures forall i :: 0 <= i < |rs| ==> vs[i] == Obj(rs[i])
  {
    if rs == [] then [] else [Obj(rs[0])] + Objs(rs[1..])
  }

  /**
   * Python's `str(v)` as an f-string applies it, for the values a title can hold.
   * Lists and dictionaries render as the empty string here.
   */
  function PyStr(v: Value): string {
    match v
    case Str(s) => s
    case Num(n) => if n < 0 then "-" + Text.NatToString(-n) else Text.NatToString(n)
    case Bool(b) => if b then "True" else "False"
    case Null => "None"
    case _ => ""
  }

  /** `user_public(u)`: the user without the password hash; status defaults to "offline". */
  function UserPublic(u: Record): (r: Record)
    ensures "password_hash" !in r
    ensures r.Keys == {"id", "name", "email", "status"}
    ensures r["status"] == if "status" in u then u["status"] else Str("offline")
  {
    map["id" := Get(u, "id"), "name" := Get(u, "name"), "email" := Get(u, "email"),
        "status" := GetOr(u, "status", Str("offline"))]
  }

  /** `for k in allowed: if k in patch: rec[k] = patch[k]`, as a function of the starting record. */
  function CopyKeys(rec: Record, patch: Record, keys: seq<string>): Record
    decreases |keys|
  {
    if keys == [] then rec
    else CopyKeys(if keys[0] in patch then rec[keys[0] := patch[keys[0]]] else rec, patch, keys[1..])
  }

  /**
   * The whitelist copy takes a key from the patch exactly when the key is allowed and present
   * in the patch; every other key keeps its stored value, and no other key appears.
   */
  lemma {:induction false} CopyKeysSpec(rec: Record, patch: Record, keys: seq<string>)
    ensures var r := CopyKeys(rec, patch, keys);
            forall k :: (k in r <==> k in rec || (k in keys && k in patch))
                        && (k in r ==> r[k] == if k in keys && k in patch then patch[k] else rec[k])
    decreases |keys|
  {
    if keys != [] {
      var next := if keys[0] in patch then rec[keys[0] := patch[keys[0]]] else rec;
      CopyKeysSpec(next, patch, keys[1..]);
      forall k ensures k in keys <==> k == keys[0] || k in keys[1..] {
        assert keys == [keys[0]] + keys[1..];
      }
    }
  }

  /** The whitelist copy as the handlers run it: a loop over the allowed keys. */
  method ApplyAllowed(rec: Record, patch: Record, allowed: seq<string>) returns (r: Record)
    ensures r == CopyKeys(rec, patch, allowed)
    ensures forall k :: k !in allowed ==> (k in r <==> k in rec) && (k in rec ==> r[k] == rec[k])
  {
    r := rec;
    var i := 0;
    while i < |allowed|
      invariant 0 <= i <= |allowed|
      invariant CopyKeys(r, patch, allowed[i..]) == CopyKeys(rec, patch, allowed)
    {
      var k := allowed[i];
      assert allowed[i..][0] == k && allowed[i..][1..] == allowed[i + 1..];
      if k in patch {
        r := r[k := patch[k]];
      }
      i := i + 1;
    }
    CopyKeysSpec(rec, patch, allowed);
  }

  /** The first of the required keys that the body lacks, in the listed order. */
  function FirstMissing(data: Record, required: seq<string>): (r: Option<string>)
    ensures r.None? <==> forall k :: k in required ==> k in data
    ensures r.Some? ==> r.value in required && r.value !in data
    ensures r.Some? ==> exists i :: 0 <= i < |required| && required[i] == r.value
                                     && forall j :: 0 <= j < i ==> required[j] in data
  {
    if required == [] then None
    else if required[0] !in data then Some(required[0])
    else
      var rest := FirstMissing(data, required[1..]);
      if rest.Some? then
        var i :| 0 <= i < |required[1..]| && required[1..][i] == rest.value
                 && forall j :: 0 <= j < i ==> required[1..][j] in data;
        assert required[i + 1] == rest.value;
        Some(rest.value)
      else rest
  }

  /** `for r in required: if r not in data: return error(f"{r} is required")`. */
  method CheckRequired(data: Record, required: seq<string>) returns (missing: Option<string>)
    ensures missing == FirstMissing(data, required)
  {
    var i := 0;
    while i < |required|
      invariant 0 <= i <= |required|
      invariant forall j :: 0 <= j < i ==> required[j] in data
      invariant FirstMissing(data, required) == FirstMissing(data, required[i..])
    {
      assert required[i..][0] == required[i] && required[i..][1..] == required[i + 1..];
      if required[i] !in data {
        return Some(required[i]);
      }
      i := i + 1;
    }
    return None;
  }
}
