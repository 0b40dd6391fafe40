/** Parsed JSON documents as the token scripts see them: `null`, booleans,
    numbers, strings and objects whose members keep their order. */
module Json {
  import opened Text

  datatype Option<+T> = None | Some(value: T)

  datatype Json =
    | Null
    | Bool(b: bool)
    | Num(n: int)
    | Str(s: string)
    | Obj(members: seq<(string, Json)>)

  /** The value of the first member named `k`. */
  function Lookup(ms: seq<(string, Json)>, k: string): (r: Option<Json>)
    ensures r.Some? ==> (k, r.value) in ms
    ensures r.None? ==> forall i :: 0 <= i < |ms| ==> ms[i].0 != k
  {
    if ms == [] then None
    else if ms[0].0 == k then Some(ms[0].1)
    else Lookup(ms[1..], k)
  }

  /** `k in node` for an object node. */
  predicate HasKey(ms: seq<(string, Json)>, k: string) {
    Lookup(ms, k).Some?
  }

  /** JavaScript truthiness; `None` stands for `undefined`. */
  predicate IsTruthy(o: Option<Json>) {
    match o
    case None => false
    case Some(Null) => false
    case Some(Bool(b)) => b
    case Some(Num(n)) => n != 0
    case Some(Str(s)) => s != ""
    case Some(Obj(_)) => true
  }

  /** Optional property access `o?.k`: only objects have the properties the scripts read. */
  function Member(o: Option<Json>, k: string): (r: Option<Json>)
    ensures r.Some? ==> o.Some? && o.value.Obj?
  {
    if o.Some? && o.value.Obj? then Lookup(o.value.members, k) else None
  }

  /** The text a template literal `${j}` inserts for `j`. */
  function ToText(j: Json): string {
    match j
    case Null => "null"
    case Bool(b) => if b then "true" else "false"
    case Num(n) => IntText(n)
    case Str(s) => s
    case Obj(_) => "[object Object]"
  }

  /** Walking `parts` key by key from `node`: every step needs an object holding the key. */
  function Descend(node: Json, parts: seq<string>): Option<Json>
    decreases |parts|
  {
    if parts == [] then Some(node)
    else if node.Obj? && HasKey(node.members, parts[0]) then
      Descend(Lookup(node.members, parts[0]).value, parts[1..])
    else None
  }

  /** A walk that succeeds goes through every shorter prefix, and a walk extended by
      one key succeeds exactly when the node reached is an object holding that key. */
  lemma {:induction false} DescendSnoc(node: Json, parts: seq<string>, k: string)
    ensures Descend(node, parts + [k]) ==
      match Descend(node, parts)
      case Some(n) => if n.Obj? && HasKey(n.members, k) then Some(Lookup(n.members, k).value) else None
      case None => None
    decreases |parts|
  {
    if parts == [] {
      assert parts + [k] == [k];
    } else {
      assert (parts + [k])[1..] == parts[1..] + [k];
      if node.Obj? && HasKey(node.members, parts[0]) {
        DescendSnoc(Lookup(node.members, parts[0]).value, parts[1..], k);
      }
    }
  }

  /** No two members share a key, as in every object `JSON.parse` builds. */
  predicate DistinctKeys(ms: seq<(string, Json)>) {
    forall i, j :: 0 <= i < j < |ms| ==> ms[i].0 != ms[j].0
  }
}
