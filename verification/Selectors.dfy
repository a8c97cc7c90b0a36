/** The selectors of jsonpath/selector.go, each with the list of callbacks it makes. */
module Selectors {
  import opened Values
  import opened Decimals
  import opened Documents

  type GoValue = v: Json | IsGoValue(v) witness Null

  /** A gval expression: opaque functions of the current element and the root. */
  datatype Expr = Expr(
    evalString: (Json, Json) -> Result<string>,
    evalInt: (Json, Json) -> Result<Int64>,
    evalBool: (Json, Json) -> Result<bool>,
    eval: (Json, Json) -> Result<GoValue>)

  /** How gval reads a constant string as an index unless it is an index as Itoa prints it: any
      function whatever. */
  const OTHER_INDEX: string -> Result<Int64>

  predicate IsIndex(key: string) { IsCanonical(key) && Value(key) <= MAX_INT64 }

  /** The key reads as an array index although no index is written like that. */
  predicate ReadsOdd(key: string) {
    OTHER_INDEX(key).Ok? && !IsIndex(key) && 0 <= OTHER_INDEX(key).value < MAX_INT64
  }

  /** A constant string key. */
  function ConstKey(key: string): Expr {
    Expr((c, r) => Ok(key),
         (c, r) => if IsIndex(key) then Ok(Value(key)) else OTHER_INDEX(key),
         (c, r) => Err,
         (c, r) => Ok(String(key)))
  }

  /** A constant number, as the parser supplies for omitted range parts. */
  function ConstInt(n: Int64): Expr {
    Expr((c, r) => Ok(Itoa(n)), (c, r) => Ok(n), (c, r) => Err, (c, r) => Ok(Number(n as real)))
  }

  /** plainSelector: exactly one result. */
  datatype PlainSelector = Direct(key: Expr) | Script(script: Expr) | CurrentElement

  /** ambiguousSelector: any number of callbacks. Multi without keys is the bracket star. */
  datatype BranchSelector =
    | Star
    | Multi(keys: seq<Expr>)
    | Filter(filter: Expr)
    | Range(min: Expr, max: Expr, step: Expr)
    | Descend

  /** `*` and `[*]`. */
  predicate IsStar(sel: BranchSelector) { sel.Star? || (sel.Multi? && sel.keys == []) }

  /** A captured wildcard: one key, or the key list of a `..`. */
  datatype Key = One(name: string) | Many(keys: seq<Key>)

  datatype Call = Call(key: Key, value: Json)

  datatype Selected = Selected(value: Json, jkey: string)

  /** selectValue: one key looked up in one value. */
  function SelectValue(key: Expr, root: Json, v: Json): Result<Selected> {
    match v
    case Null => UndefinedUnder(key.evalString(v, root))
    case Undefined => UndefinedUnder(key.evalString(v, root))
    case Array(elems) =>
      (match key.evalInt(v, root)
       case Err => Err
       case Ok(i) => if i < 0 || i >= |elems| then Err else Ok(Selected(elems[i], Digits(i))))
    case Object(members) =>
      (match key.evalString(v, root)
       case Err => Err
       case Ok(k) =>
         match Find(members, k)
         case Some(e) => Ok(Selected(e, k))
         case None => Ok(Selected(Undefined, k)))
    case _ => Err
  }

  function UndefinedUnder(key: Result<string>): Result<Selected> {
    match key
    case Ok(k) => Ok(Selected(Undefined, k))
    case Err => Err
  }

  /** One plain selector; `current` is the element that `@` names. */
  function ApplyPlain(sel: PlainSelector, current: Json, root: Json, v: Json): Result<Json> {
    match sel
    case Direct(key) =>
      (match SelectValue(key, root, v)
       case Ok(selected) => Ok(selected.value)
       case Err => Err)
    case Script(script) => script.eval(v, root)
    case CurrentElement => Ok(current)
  }

  /** The calls one ambiguous selector makes on its visitor, in order. */
  function Calls(sel: BranchSelector, root: Json, v: Json): seq<Call> {
    match sel
    case Star => StarCalls(Children(v))
    case Multi(keys) => if keys == [] then StarCalls(Children(v)) else MultiCalls(keys, root, v)
    case Filter(filter) => FilterCalls(filter, root, Children(v))
    case Range(min, max, step) => RangeCalls(min, max, step, root, v)
    case Descend => DescendCalls(Descendants(v))
  }

  function StarCalls(kids: seq<Member>): (calls: seq<Call>)
    ensures |calls| == |kids|
    ensures forall i | 0 <= i < |calls| :: calls[i] == Call(One(kids[i].key), kids[i].value)
  {
    if kids == [] then [] else [Call(One(kids[0].key), kids[0].value)] + StarCalls(kids[1..])
  }

  function MultiCalls(keys: seq<Expr>, root: Json, v: Json): seq<Call> {
    if keys == [] then []
    else MultiCall(keys[0], root, v) + MultiCalls(keys[1..], root, v)
  }

  function MultiCall(key: Expr, root: Json, v: Json): seq<Call> {
    match SelectValue(key, root, v)
    case Ok(Selected(e, wildcard)) => if e.Undefined? then [] else [Call(One(wildcard), e)]
    case Err => []
  }

  function FilterCalls(filter: Expr, root: Json, kids: seq<Member>): seq<Call> {
    if kids == [] then []
    else
      (if filter.evalBool(kids[0].value, root) == Ok(true)
       then [Call(One(kids[0].key), kids[0].value)] else [])
      + FilterCalls(filter, root, kids[1..])
  }

  /** negmax: an index from the end when negative, clamped to [0, size]. */
  function NegMax(n: int, size: nat): (r: nat)
    ensures r <= size
  {
    if n < 0 then (if size + n < 0 then 0 else size + n) else if n > size then size else n
  }

  function UpFrom(i: nat, hi: nat, step: int): (r: seq<nat>)
    requires step > 0
    ensures forall j | 0 <= j < |r| :: i <= r[j] < hi
    decreases hi - i
  {
    if i < hi then [i] + UpFrom(i + step, hi, step) else []
  }

  function DownFrom(i: int, lo: nat, step: int): (r: seq<nat>)
    requires step < 0
    ensures forall j | 0 <= j < |r| :: lo <= r[j] <= i
    decreases i - lo
  {
    if i >= lo then [i as nat] + DownFrom(i + step, lo, step) else []
  }

  /** The indices visited between clamped bounds; step 0 is read as 1. */
  function RangeIndices(lo: nat, hi: nat, step: int): (r: seq<nat>)
    ensures forall j | 0 <= j < |r| :: lo <= r[j] < hi
  {
    if step < 0 then DownFrom(hi - 1, lo, step)
    else UpFrom(lo, hi, if step == 0 then 1 else step)
  }

  /** Evaluated range arguments, when all three evaluate and min <= max. */
  datatype Bounds = Bounds(lo: nat, hi: nat, step: Int64)

  function RangeBounds(min: Expr, max: Expr, step: Expr, root: Json, v: Json): (r: Option<Bounds>)
    ensures r.Some? ==> v.Array? && r.value.hi <= |v.elems|
  {
    if !v.Array? then None
    else
      match (min.evalInt(v, root), max.evalInt(v, root), step.evalInt(v, root))
      case (Ok(a), Ok(b), Ok(s)) =>
        if a > b then None else Some(Bounds(NegMax(a, |v.elems|), NegMax(b, |v.elems|), s))
      case _ => None
  }

  function RangeCalls(min: Expr, max: Expr, step: Expr, root: Json, v: Json): seq<Call> {
    match RangeBounds(min, max, step, root, v)
    case None => []
    case Some(Bounds(lo, hi, s)) => IndexCalls(v.elems, RangeIndices(lo, hi, s))
  }

  function IndexCalls(elems: seq<Json>, indices: seq<nat>): (calls: seq<Call>)
    requires forall i | 0 <= i < |indices| :: indices[i] < |elems|
    ensures |calls| == |indices|
    ensures forall i | 0 <= i < |calls| :: calls[i] == Call(One(Digits(indices[i])), elems[indices[i]])
  {
    if indices == [] then []
    else [Call(One(Digits(indices[0])), elems[indices[0]])] + IndexCalls(elems, indices[1..])
  }

  /** A node of a JSON tree under the list of keys that leads to it. */
  datatype Node = Node(path: seq<string>, value: Json)

  /** `..`: the value itself, then the descendants of each child under that child's key. */
  function Descendants(v: Json): seq<Node>
    decreases v, 0
  {
    [Node([], v)] + DescendantsOf(v, Children(v))
  }

  function DescendantsOf(ghost parent: Json, kids: seq<Member>): seq<Node>
    requires forall i | 0 <= i < |kids| :: kids[i].value < parent
    decreases parent, 0, |kids|
  {
    if kids == [] then []
    else Under(kids[0].key, Descendants(kids[0].value)) + DescendantsOf(parent, kids[1..])
  }

  function Under(key: string, nodes: seq<Node>): (r: seq<Node>)
    ensures |r| == |nodes|
    ensures forall i | 0 <= i < |r| :: r[i] == Node([key] + nodes[i].path, nodes[i].value)
  {
    seq(|nodes|, i requires 0 <= i < |nodes| => Node([key] + nodes[i].path, nodes[i].value))
  }

  function Ones(path: seq<string>): (keys: seq<Key>)
    ensures |keys| == |path|
    ensures forall i | 0 <= i < |keys| :: keys[i] == One(path[i])
  {
    seq(|path|, i requires 0 <= i < |path| => One(path[i]))
  }

  function DescendCalls(nodes: seq<Node>): (calls: seq<Call>)
    ensures |calls| == |nodes|
    ensures forall i | 0 <= i < |calls| :: calls[i] == Call(Many(Ones(nodes[i].path)), nodes[i].value)
  {
    if nodes == [] then []
    else [Call(Many(Ones(nodes[0].path)), nodes[0].value)] + DescendCalls(nodes[1..])
  }
}
