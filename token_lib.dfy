/** The render-time token resolver of src/lib/token.ts: `getTokenValue` walks a dotted
    path and `resolveToken` follows `{...}` aliases for a bounded number of hops. Both
    signal failure by throwing; here a thrown error is the `Throws` outcome. The token
    tree is a parameter and is only read. */
module TokenLib {
  import opened Text
  import opened Json

  /** The default hop bound of `resolveToken`. */
  const DefaultMaxDepth: nat := 10

  /** The errors the two functions throw. */
  datatype TokenError =
    | NotFound(path: string, missing: string)
    | NoValue(path: string)
    | DepthExceeded(path: string)
  {
    /** The thrown error's message. */
    function Message(): string {
      match this
      case NotFound(p, seg) => "Token path not found: " + p + " (missing: " + seg + ")"
      case NoValue(p) => "Token leaf has no value: " + p
      case DepthExceeded(p) => "Token reference depth exceeded: " + p
    }
  }

  /** A returned value, or a thrown error. */
  datatype Outcome = Ok(value: Json) | Throws(error: TokenError)

  /** The end of a walk along path segments: the node reached, or the first missing segment. */
  datatype Walk = Reached(node: Json) | MissingAt(segment: string)

  /** Walking `parts` key by key: each step needs an object that holds the key. */
  function WalkParts(node: Json, parts: seq<string>): Walk
    decreases |parts|
  {
    if parts == [] then Reached(node)
    else if node.Obj? && HasKey(node.members, parts[0]) then WalkParts(Lookup(node.members, parts[0]).value, parts[1..])
    else MissingAt(parts[0])
  }

  /** What `getTokenValue` returns or throws for `path`. A node counts as a leaf when it is
      an object with a `value` key (no `type` is needed); a bare string is its own value. */
  function TokenValue(tokens: Json, path: string): Outcome {
    match WalkParts(tokens, Split(path, '.'))
    case MissingAt(seg) => Throws(NotFound(path, seg))
    case Reached(cur) =>
      if cur.Obj? && HasKey(cur.members, "value") then Ok(Lookup(cur.members, "value").value)
      else if cur.Str? then Ok(cur)
      else Throws(NoValue(path))
  }

  /** `getTokenValue`. */
  method GetTokenValue(tokens: Json, path: string) returns (r: Outcome)
    ensures r == TokenValue(tokens, path)
  {
    var parts := Split(path, '.');
    var cur := tokens;
    var i := 0;
    while i < |parts|
      invariant 0 <= i <= |parts| && WalkParts(tokens, parts) == WalkParts(cur, parts[i..])
    {
      var p := parts[i];
      assert parts[i..][0] == p && parts[i..][1..] == parts[i + 1..];
      if !(cur.Obj? && HasKey(cur.members, p)) {
        return Throws(NotFound(path, p));
      }
      cur := Lookup(cur.members, p).value;
      i := i + 1;
    }
    assert parts[i..] == [];
    if cur.Obj? && HasKey(cur.members, "value") {
      return Ok(Lookup(cur.members, "value").value);
    }
    if cur.Str? {
      return Ok(cur);
    }
    return Throws(NoValue(path));
  }

  /** `/^\{(.+)\}$/` on the untrimmed value: only strings can match. */
  predicate IsRef(v: Json) {
    v.Str? && IsBraced(v.s)
  }

  /** The captured group `m[1]`: the text between the braces. */
  function RefPath(v: Json): string
    requires IsRef(v)
  {
    v.s[1..|v.s| - 1]
  }

  /** The lookups of `resolveToken` in one token tree. */
  function Lookups(tokens: Json): string -> Outcome {
    p => TokenValue(tokens, p)
  }

  /** The loop of `resolveToken` from value `v` with `fuel` iterations left: a value that is
      not a reference is returned, a reference is looked up (a failed lookup throws its own
      error), and running out of iterations throws the depth error for `path`. */
  function Chase(look: string -> Outcome, path: string, v: Json, fuel: nat): Outcome
    decreases fuel
  {
    if fuel == 0 then Throws(DepthExceeded(path))
    else if !IsRef(v) then Ok(v)
    else match look(RefPath(v))
      case Throws(e) => Throws(e)
      case Ok(w) => Chase(look, path, w, fuel - 1)
  }

  /** What `resolveToken(path, maxDepth)` returns or throws. */
  function ResolvedToken(tokens: Json, path: string, maxDepth: nat): Outcome {
    match TokenValue(tokens, path)
    case Throws(e) => Throws(e)
    case Ok(v) => Chase(Lookups(tokens), path, v, maxDepth)
  }

  /** `resolveToken`; callers that omit `maxDepth` pass `DefaultMaxDepth`. */
  method ResolveToken(tokens: Json, path: string, maxDepth: nat) returns (r: Outcome)
    ensures r == ResolvedToken(tokens, path, maxDepth)
  {
    var first := GetTokenValue(tokens, path);
    if first.Throws? {
      return first;
    }
    var v := first.value;
    var i := 0;
    while i < maxDepth
      invariant 0 <= i <= maxDepth
      invariant ResolvedToken(tokens, path, maxDepth) == Chase(Lookups(tokens), path, v, maxDepth - i)
    {
      if !IsRef(v) {
        return Ok(v);
      }
      var refPath := v.s[1..|v.s| - 1];
      var next := GetTokenValue(tokens, refPath);
      assert Lookups(tokens)(RefPath(v)) == next;
      if next.Throws? {
        return next;
      }
      v := next.value;
      i := i + 1;
    }
    return Throws(DepthExceeded(path));
  }

  // ---------------------------------------------------------------------------
  // Properties

  /** The walk of `getTokenValue` reaches a node exactly when the linter's `Descend` does. */
  lemma {:induction false} WalkAgreesWithDescend(node: Json, parts: seq<string>)
    ensures WalkParts(node, parts).Reached? <==> Descend(node, parts).Some?
    ensures WalkParts(node, parts).Reached? ==> Descend(node, parts) == Some(WalkParts(node, parts).node)
    decreases |parts|
  {
    if parts != [] && node.Obj? && HasKey(node.members, parts[0]) {
      WalkAgreesWithDescend(Lookup(node.members, parts[0]).value, parts[1..]);
    }
  }

  /** A failed walk names the first segment that is missing: every segment before it
      was found, and it was not. */
  lemma {:induction false} FirstMissingSegment(node: Json, parts: seq<string>)
    requires WalkParts(node, parts).MissingAt?
    ensures exists i :: 0 <= i < |parts| && parts[i] == WalkParts(node, parts).segment
                        && Descend(node, parts[..i]).Some? && Descend(node, parts[..i + 1]).None?
    decreases |parts|
  {
    if node.Obj? && HasKey(node.members, parts[0]) {
      var child := Lookup(node.members, parts[0]).value;
      FirstMissingSegment(child, parts[1..]);
      var i :| 0 <= i < |parts[1..]| && parts[1..][i] == WalkParts(child, parts[1..]).segment
               && Descend(child, parts[1..][..i]).Some? && Descend(child, parts[1..][..i + 1]).None?;
      assert parts[..i + 1][1..] == parts[1..][..i];
      assert parts[..i + 2][1..] == parts[1..][..i + 1];
      assert parts[..i + 1][0] == parts[0] && parts[..i + 2][0] == parts[0];
    } else {
      assert parts[..0] == [] && parts[..1] == [parts[0]];
    }
  }

  /** Every error `getTokenValue` throws names the path it was asked for. */
  lemma ErrorNamesItsPath(tokens: Json, path: string)
    requires TokenValue(tokens, path).Throws?
    ensures TokenValue(tokens, path).error.path == path
    ensures TokenValue(tokens, path).error.NotFound? || TokenValue(tokens, path).error.NoValue?
  {
  }

  /** The value reached after `k` reference hops from `v`, when every hop's lookup succeeds. */
  function Hops(look: string -> Outcome, v: Json, k: nat): Option<Json>
    decreases k
  {
    if k == 0 then Some(v)
    else if !IsRef(v) then None
    else match look(RefPath(v))
      case Throws(_) => None
      case Ok(w) => Hops(look, w, k - 1)
  }

  /** `k` hops then the rest of the loop is the loop from where the hops ended. */
  lemma {:induction false} ChaseAfterHops(look: string -> Outcome, path: string, v: Json, k: nat, w: Json, fuel: nat)
    requires Hops(look, v, k) == Some(w) && k <= fuel
    ensures Chase(look, path, v, fuel) == Chase(look, path, w, fuel - k)
    decreases k
  {
    if k > 0 {
      ChaseAfterHops(look, path, look(RefPath(v)).value, k - 1, w, fuel - 1);
    }
  }

  /** A starting value that is not a reference is returned unchanged. */
  lemma ConcreteStartUnchanged(tokens: Json, path: string, maxDepth: nat)
    requires maxDepth >= 1 && TokenValue(tokens, path).Ok? && !IsRef(TokenValue(tokens, path).value)
    ensures ResolvedToken(tokens, path, maxDepth) == TokenValue(tokens, path)
  {
  }

  /** A returned value is not a reference, and is reached after fewer than `fuel` hops. */
  lemma {:induction false} ChaseResult(look: string -> Outcome, path: string, v: Json, fuel: nat)
    requires Chase(look, path, v, fuel).Ok?
    ensures !IsRef(Chase(look, path, v, fuel).value)
    ensures exists k :: 0 <= k < fuel && Hops(look, v, k) == Some(Chase(look, path, v, fuel).value)
    decreases fuel
  {
    if IsRef(v) {
      var w := look(RefPath(v)).value;
      ChaseResult(look, path, w, fuel - 1);
      var k :| 0 <= k < fuel - 1 && Hops(look, w, k) == Some(Chase(look, path, w, fuel - 1).value);
      assert Hops(look, v, k + 1) == Hops(look, w, k);
    } else {
      assert Hops(look, v, 0) == Some(v);
    }
  }

  /** A chain of exactly `maxDepth` successful hops throws the depth error, even when the
      value it ends on is not a reference. */
  lemma MaxDepthHopsThrow(look: string -> Outcome, path: string, v: Json, maxDepth: nat)
    requires Hops(look, v, maxDepth).Some?
    ensures Chase(look, path, v, maxDepth) == Throws(DepthExceeded(path))
  {
    ChaseAfterHops(look, path, v, maxDepth, Hops(look, v, maxDepth).value, maxDepth);
  }

  /** `a` hops then `b` more hops are `a + b` hops. */
  lemma {:induction false} HopsAdd(look: string -> Outcome, v: Json, a: nat, b: nat)
    requires Hops(look, v, a).Some?
    ensures Hops(look, v, a + b) == Hops(look, Hops(look, v, a).value, b)
    decreases a
  {
    if a > 0 {
      HopsAdd(look, look(RefPath(v)).value, a - 1, b);
    }
  }

  lemma {:induction false} HopsPrefix(look: string -> Outcome, v: Json, a: nat, b: nat)
    requires Hops(look, v, a + b).Some?
    ensures Hops(look, v, a).Some?
    decreases a
  {
    if a > 0 {
      HopsPrefix(look, look(RefPath(v)).value, a - 1, b);
    }
  }

  lemma {:induction false} HopsAround(look: string -> Outcome, v: Json, n: nat, m: nat)
    requires n >= 1 && Hops(look, v, n) == Some(v)
    ensures Hops(look, v, m).Some?
    decreases m
  {
    if m >= n {
      HopsAround(look, v, n, m - n);
      HopsAdd(look, v, n, m - n);
    } else {
      HopsPrefix(look, v, m, n - m);
    }
  }

  /** A reference cycle throws the depth error, whatever the bound. */
  lemma CycleThrows(look: string -> Outcome, path: string, v: Json, n: nat, maxDepth: nat)
    requires n >= 1 && Hops(look, v, n) == Some(v)
    ensures Chase(look, path, v, maxDepth) == Throws(DepthExceeded(path))
  {
    HopsAround(look, v, n, maxDepth);
    MaxDepthHopsThrow(look, path, v, maxDepth);
  }

  /** A dangling reference met after `k < maxDepth` hops surfaces as the lookup's own error,
      which names the referenced path rather than the path asked for. */
  lemma DanglingRefSurfaces(tokens: Json, path: string, v: Json, k: nat, w: Json, maxDepth: nat)
    requires Hops(Lookups(tokens), v, k) == Some(w) && k < maxDepth
    requires IsRef(w) && TokenValue(tokens, RefPath(w)).Throws?
    ensures Chase(Lookups(tokens), path, v, maxDepth) == TokenValue(tokens, RefPath(w))
    ensures Chase(Lookups(tokens), path, v, maxDepth).error.path == RefPath(w)
  {
    ChaseAfterHops(Lookups(tokens), path, v, k, w, maxDepth);
    assert Lookups(tokens)(RefPath(w)) == TokenValue(tokens, RefPath(w));
    ErrorNamesItsPath(tokens, RefPath(w));
  }
}
