/** JSON trees and the token stream a decoder reads them as. */
module Json {
  import opened Prelude

  datatype Member = Member(key: Text, value: Value)

  /** An integer literal is kept apart from every other number. */
  datatype Value =
    | JNull
    | JBool(b: bool)
    | JInt(n: int)
    | JOtherNumber
    | JString(s: Text)
    | JArray(items: seq<Value>)
    | JObject(members: seq<Member>)

  datatype Token = OpenObject | CloseObject | OpenArray | CloseArray | Str(s: Text) | Scalar

  function TokensOf(v: Value): seq<Token>
    decreases v, 0
  {
    match v
    case JString(s) => [Str(s)]
    case JArray(items) => [OpenArray] + (TokensOfAll(items) + [CloseArray])
    case JObject(members) => [OpenObject] + (TokensOfMembers(members) + [CloseObject])
    case _ => [Scalar]
  }

  /** Several documents one after another, or the elements of an array. */
  function TokensOfAll(vs: seq<Value>): seq<Token>
    decreases vs, 0
  {
    if vs == [] then [] else TokensOf(vs[0]) + TokensOfAll(vs[1..])
  }

  function TokensOfMembers(ms: seq<Member>): seq<Token>
    decreases ms, 0
  {
    if ms == [] then [] else [Str(ms[0].key)] + (TokensOf(ms[0].value) + TokensOfMembers(ms[1..]))
  }

  function Keys(ms: seq<Member>): set<Text> {
    set m | m in ms :: m.key
  }
}
