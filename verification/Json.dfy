/** The tree a cJSON item stands for, without its links. */
module Json {
  import opened Bytes

  /** CJSON_NESTING_LIMIT */
  const NESTING_LIMIT: nat := 1000
  const INT_MAX: int := 0x7FFF_FFFF
  const INT_MIN: int := -0x8000_0000

  datatype Json =
    | Null
    | Bool(b: bool)
    | Number(d: real)
    | String(s: CString)
    | Array(elems: seq<Json>)
    | Object(members: seq<Member>)

  datatype Member = Member(key: CString, value: Json)

  predicate IsInt32(d: real) {
    d == d.Floor as real && INT_MIN <= d.Floor <= INT_MAX
  }

  /** Every number of the tree is a 32-bit integer, so that it prints with "%d". */
  predicate IntTree(v: Json) {
    match v
    case Number(d) => IsInt32(d)
    case Array(es) => forall i :: 0 <= i < |es| ==> IntTree(es[i])
    case Object(ms) => forall i :: 0 <= i < |ms| ==> IntTree(ms[i].value)
    case _ => true
  }

  /** How many containers are open at the deepest point of the tree. */
  function Height(v: Json): nat {
    match v
    case Array(es) => 1 + HeightElems(es)
    case Object(ms) => 1 + HeightMembers(ms)
    case _ => 0
  }

  function HeightElems(es: seq<Json>): nat {
    if es == [] then 0 else Max(Height(es[0]), HeightElems(es[1..]))
  }

  function HeightMembers(ms: seq<Member>): nat {
    if ms == [] then 0 else Max(Height(ms[0].value), HeightMembers(ms[1..]))
  }

  function Max(a: nat, b: nat): nat {
    if a < b then b else a
  }
}
