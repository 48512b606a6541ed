/** JSON values. An atom is a number, `true` or `false`, as it is written. */
module Json {
  datatype Value =
    | Null
    | Atom(literal: string)
    | Text(text: string)
    | Array(items: seq<Value>)
    | Object(members: map<string, Value>)

  type Members = map<string, Value>
}
