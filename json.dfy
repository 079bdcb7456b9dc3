/** The parsed JSON document as the DOM parser hands it over. Integers are tagged as
    the parser stores them: `JInt` when they fit in int64, `JUInt` when they only fit
    in uint64. `JDouble` is any other number; its value plays no part here. */
module JsonTree {
  import opened Shared

  datatype Json =
    | JNull
    | JBool(b: bool)
    | JInt(i: int)
    | JUInt(u: nat)
    | JDouble
    | JString(s: string)
    | JArray(items: seq<Json>)
    | JObject(members: seq<(string, Json)>)

  /** Index of the first member named `key`. */
  function MemberIndex(members: seq<(string, Json)>, key: string): (r: Option<nat>)
    ensures r.Some? ==> r.value < |members| && members[r.value].0 == key
    ensures r.Some? ==> forall j :: 0 <= j < r.value ==> members[j].0 != key
    ensures r.None? ==> forall j :: 0 <= j < |members| ==> members[j].0 != key
  {
    if members == [] then None
    else if members[0].0 == key then Some(0)
    else match MemberIndex(members[1..], key)
      case None => None
      case Some(k) => Some(k + 1)
  }

  /** `doc[key]`: the value of the first member named `key`; absent on a non-object. */
  function Field(doc: Json, key: string): (r: Option<Json>)
    ensures r.Some? <==> doc.JObject? && exists j :: 0 <= j < |doc.members| && doc.members[j].0 == key
    ensures r.Some? ==>
      exists j :: 0 <= j < |doc.members| && doc.members[j].0 == key && r.value == doc.members[j].1 &&
        forall i :: 0 <= i < j ==> doc.members[i].0 != key
  {
    if !doc.JObject? then None
    else match MemberIndex(doc.members, key)
      case None => None
      case Some(k) => Some(doc.members[k].1)
  }
}
