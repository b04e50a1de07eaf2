/**
 * JSON values as `JSON.parse` produces them and `JSON.stringify` consumes
 * them, and the two fallback envelopes the service builds.
 */
module Json {
  import opened Wrappers

  /**
   * A JSON value. An object is its list of members in the property order
   * the object has (the order `JSON.stringify` writes them in); a number is
   * the exact decimal `mantissa * 10^exponent`.
   */
  datatype Json =
    | JNull
    | JBool(b: bool)
    | JNumber(mantissa: int, exponent: int)
    | JString(str: string)
    | JArray(items: seq<Json>)
    | JObject(members: seq<(string, Json)>)

  /** The empty object literal `{}`. */
  const EmptyObject: Json := JObject([])

  /** The names of a list of members, in order. */
  function Names(members: seq<(string, Json)>): (ks: seq<string>)
    ensures |ks| == |members|
    ensures forall i :: 0 <= i < |ks| ==> ks[i] == members[i].0
    decreases |members|
  {
    if |members| == 0 then [] else [members[0].0] + Names(members[1..])
  }

  /** The member names of an object, in order; nothing for other values. */
  function Keys(j: Json): seq<string> {
    if j.JObject? then Names(j.members) else []
  }

  /** The value of the first member named `key`, if there is one. */
  function Lookup(members: seq<(string, Json)>, key: string): (r: Option<Json>)
    decreases |members|
  {
    if |members| == 0 then None
    else if members[0].0 == key then Some(members[0].1)
    else
      Lookup(members[1..], key)
  }

  /** The first member named `key` decides the lookup. */
  lemma {:induction false} LookupFirst(members: seq<(string, Json)>, key: string, i: nat)
    requires i < |members| && members[i].0 == key
    requires forall j :: 0 <= j < i ==> members[j].0 != key
    ensures Lookup(members, key) == Some(members[i].1)
    decreases i
  {
    if i > 0 {
      LookupFirst(members[1..], key, i - 1);
    }
  }

  /** Without a member named `key` there is nothing to find. */
  lemma {:induction false} LookupAbsent(members: seq<(string, Json)>, key: string)
    requires forall j :: 0 <= j < |members| ==> members[j].0 != key
    ensures Lookup(members, key) == None
    decreases |members|
  {
    if |members| > 0 {
      LookupAbsent(members[1..], key);
    }
  }

  /** Property access `j[key]` on a JSON value; only objects have properties. */
  function Get(j: Json, key: string): Option<Json> {
    if j.JObject? then Lookup(j.members, key) else None
  }

  /** The fixed message of the request-failure envelope. */
  const FailureMessage: string := "Something went wrong while generating AI response."

  /** The members of a fallback envelope carrying `text`: the text and three empty objects. */
  function FallbackMembers(text: string): seq<(string, Json)> {
    [("text", JString(text)), ("fileTree", EmptyObject), ("buildCommand", EmptyObject), ("startCommand", EmptyObject)]
  }

  /** Names and lookups of the fallback members. */
  lemma FallbackMembersShape(text: string)
    ensures Names(FallbackMembers(text)) == ["text", "fileTree", "buildCommand", "startCommand"]
    ensures Lookup(FallbackMembers(text), "text") == Some(JString(text))
    ensures Lookup(FallbackMembers(text), "fileTree") == Some(EmptyObject)
    ensures Lookup(FallbackMembers(text), "buildCommand") == Some(EmptyObject)
    ensures Lookup(FallbackMembers(text), "startCommand") == Some(EmptyObject)
    ensures Lookup(FallbackMembers(text), "error") == None
  {
    var ms := FallbackMembers(text);
    LookupFirst(ms, "fileTree", 1);
    LookupFirst(ms, "buildCommand", 2);
    LookupFirst(ms, "startCommand", 3);
    LookupAbsent(ms, "error");
  }

  /** The fallback members followed by `error: true`. */
  function FlaggedMembers(text: string): seq<(string, Json)> {
    FallbackMembers(text) + [("error", JBool(true))]
  }

  /** Appending `error: true` to the fallback members adds that one name and lookup. */
  lemma FlaggedMembersShape(text: string)
    ensures Names(FlaggedMembers(text)) == ["text", "fileTree", "buildCommand", "startCommand", "error"]
    ensures Lookup(FlaggedMembers(text), "text") == Some(JString(text))
    ensures Lookup(FlaggedMembers(text), "fileTree") == Some(EmptyObject)
    ensures Lookup(FlaggedMembers(text), "buildCommand") == Some(EmptyObject)
    ensures Lookup(FlaggedMembers(text), "startCommand") == Some(EmptyObject)
    ensures Lookup(FlaggedMembers(text), "error") == Some(JBool(true))
  {
    var ms := FlaggedMembers(text);
    assert ms == [("text", JString(text)), ("fileTree", EmptyObject), ("buildCommand", EmptyObject), ("startCommand", EmptyObject), ("error", JBool(true))];
    LookupFirst(ms, "fileTree", 1);
    LookupFirst(ms, "buildCommand", 2);
    LookupFirst(ms, "startCommand", 3);
    LookupFirst(ms, "error", 4);
  }

  /**
   * The envelope built when the reply does not parse: `text` holds the
   * normalised reply, the three placeholders are empty objects, and there
   * is no `error` member.
   */
  function UnparsedFallback(text: string): (j: Json)
    ensures Keys(j) == ["text", "fileTree", "buildCommand", "startCommand"]
    ensures Get(j, "text") == Some(JString(text))
    ensures Get(j, "fileTree") == Some(EmptyObject)
    ensures Get(j, "buildCommand") == Some(EmptyObject)
    ensures Get(j, "startCommand") == Some(EmptyObject)
    ensures Get(j, "error") == None
  {
    FallbackMembersShape(text);
    JObject(FallbackMembers(text))
  }

  /**
   * The envelope built when the request fails: the fixed message, the same
   * three empty objects, and `error: true` as its last member.
   */
  function FailureEnvelope(): (j: Json)
    ensures Keys(j) == ["text", "fileTree", "buildCommand", "startCommand", "error"]
    ensures Get(j, "text") == Some(JString(FailureMessage))
    ensures Get(j, "fileTree") == Some(EmptyObject)
    ensures Get(j, "buildCommand") == Some(EmptyObject)
    ensures Get(j, "startCommand") == Some(EmptyObject)
    ensures Get(j, "error") == Some(JBool(true))
    ensures j.members == UnparsedFallback(FailureMessage).members + [("error", JBool(true))]
  {
    FlaggedMembersShape(FailureMessage);
    JObject(FlaggedMembers(FailureMessage))
  }
}
