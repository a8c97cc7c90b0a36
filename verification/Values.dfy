/** JSON documents as Go sees them after json.Unmarshal, plus KubeMod's Undefined. */
module Values {
  datatype Option<+T> = None | Some(value: T)

  /** A Go (value, error) pair; error texts are not modelled. */
  datatype Result<+T> = Ok(value: T) | Err

  datatype Json =
    | Null
    | Undefined
    | Bool(b: bool)
    | Number(n: real)
    | String(s: string)
    | Array(elems: seq<Json>)
    | Object(members: seq<Member>) // a map, in the order one range statement visits it

  datatype Member = Member(key: string, value: Json)
}
