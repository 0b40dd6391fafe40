/** The design-token linter of scripts/lint-tokens.mjs. It walks the token tree,
    validates every leaf (metadata, typos, raw colours, alias resolution and the
    component-to-primitive policy), cross-checks component subtrees against the
    schema's allow-lists, and accumulates every violation it finds. The token tree
    and the schema are parameters; nothing here changes them. */
module LintTokens {
  import opened Text
  import opened Json

  /** The default hop bound of `resolveRef`. */
  const MaxRefDepth: nat := 20

  /** The marker a primitive token path may start with. */
  const PrimitiveMarker: string := "\U{1F512}primitive"

  // ---------------------------------------------------------------------------
  // Leaves and values

  /** A token leaf is an object carrying both a `type` and a `value` key. */
  predicate IsTokenLeaf(node: Json) {
    node.Obj? && HasKey(node.members, "type") && HasKey(node.members, "value")
  }

  function LeafValue(leaf: Json): Json
    requires IsTokenLeaf(leaf)
  {
    Lookup(leaf.members, "value").value
  }

  predicate IsHexDigits(h: string) {
    forall k :: 0 <= k < |h| ==> IsHexDigit(h[k])
  }

  /** `/^#([0-9a-fA-F]{3}|[0-9a-fA-F]{6}|[0-9a-fA-F]{8})$/`. */
  predicate IsHexColor(s: string) {
    (|s| == 4 || |s| == 7 || |s| == 9) && s[0] == '#' && IsHexDigits(s[1..])
  }

  /** `isRawColorValue`: a string whose trimmed text is a 3-, 6- or 8-digit hex
      colour or starts with `rgb(` or `rgba(`. */
  predicate IsRawColorValue(v: Json) {
    v.Str? && (IsHexColor(Trim(v.s)) || "rgb(" <= Trim(v.s) || "rgba(" <= Trim(v.s))
  }

  /** `isAliasRef`: a string whose trimmed text has the form `{...}`. */
  predicate IsAliasRef(v: Json) {
    v.Str? && IsBraced(Trim(v.s))
  }

  /** `stripBraces`: the trimmed text without its first and last character. */
  function StripBraces(s: string): string
  {
    var t := Trim(s);
    if |t| >= 2 then t[1..|t| - 1] else ""
  }

  // ---------------------------------------------------------------------------
  // Layers

  datatype Layer = Semantic | Component | Primitive | Unknown

  function LayerName(l: Layer): string {
    match l
    case Semantic => "semantic"
    case Component => "component"
    case Primitive => "primitive"
    case Unknown => "unknown"
  }

  /** `isPrimitivePath`; its second test is subsumed by its third. */
  predicate IsPrimitivePath(refPath: string)
    ensures IsPrimitivePath(refPath) <==> Contains(refPath, ".primitive.") || PrimitiveMarker <= refPath
  {
    || Contains(refPath, ".primitive.")
    || PrimitiveMarker + " " <= refPath
    || PrimitiveMarker <= refPath
  }

  /** `layerFromPath`, with its fixed precedence: semantic prefix, component prefix,
      primitive marker, otherwise unknown. */
  function LayerFromPath(path: string): (l: Layer)
    ensures l == Semantic <==> "color.semantic." <= path
    ensures l == Component <==> "color.component." <= path
    ensures l == Primitive <==> !("color.semantic." <= path) && !("color.component." <= path) && IsPrimitivePath(path)
  {
    if "color.semantic." <= path then assert path[6] == 's'; Semantic
    else if "color.component." <= path then Component
    else if Contains(path, ".primitive.") then Primitive
    else if PrimitiveMarker <= path then Primitive
    else Unknown
  }

  // ---------------------------------------------------------------------------
  // Path lookup and alias resolution

  /** `getByPath`: the node reached by splitting `path` on dots and walking the keys. */
  method GetByPath(root: Json, path: string) returns (hit: Option<Json>)
    ensures hit == Descend(root, Split(path, '.'))
  {
    var parts := Split(path, '.');
    var cur := root;
    var i := 0;
    while i < |parts|
      invariant 0 <= i <= |parts|
      invariant Descend(root, parts) == Descend(cur, parts[i..])
    {
      var p := parts[i];
      assert parts[i..][1..] == parts[i + 1..];
      if !cur.Obj? || !HasKey(cur.members, p) {
        return None;
      }
      cur := Lookup(cur.members, p).value;
      i := i + 1;
    }
    return Some(cur);
  }

  /** What `getTokenValueByPath` finds: the value and the node it came from. */
  datatype Hit = Hit(value: Json, node: Json)

  /** A path names a token value when it reaches a leaf (its `value`) or a bare string (itself). */
  function TokenAt(tokens: Json, path: string): Option<Hit>
  {
    match Descend(tokens, Split(path, '.'))
    case None => None
    case Some(node) =>
      if IsTokenLeaf(node) then Some(Hit(LeafValue(node), node))
      else if node.Str? then Some(Hit(node, node))
      else None
  }

  method GetTokenValueByPath(tokens: Json, path: string) returns (hit: Option<Hit>)
    ensures hit == TokenAt(tokens, path)
  {
    var found := GetByPath(tokens, path);
    if found.None? {
      return None;
    }
    var node := found.value;
    if IsTokenLeaf(node) {
      return Some(Hit(LeafValue(node), node));
    }
    if node.Str? {
      return Some(Hit(node, node));
    }
    return None;
  }

  /** The outcome of `resolveRef`. */
  datatype Resolution = Resolved(value: Json, leafPath: string, leafNode: Json) | Unresolved(reason: string)

  /** What one lookup of `resolveRef` finds at a path: nothing, a final value, or an alias to follow. */
  datatype Step = Missing | Final(hit: Hit) | Alias(next: string)

  function StepAt(tokens: Json, cur: string): Step {
    match TokenAt(tokens, cur)
    case None => Missing
    case Some(hit) => if IsAliasRef(hit.value) then Alias(StripBraces(hit.value.s)) else Final(hit)
  }

  /** The lookups of `resolveRef` in one token tree. */
  function Steps(tokens: Json): string -> Step {
    cur => StepAt(tokens, cur)
  }

  /** The path reached from `p` after `k` alias hops, when every one of those hops
      starts at an alias. */
  function Follow(step: string -> Step, p: string, k: nat): Option<string>
    decreases k
  {
    if k == 0 then Some(p)
    else match step(p)
      case Alias(next) => Follow(step, next, k - 1)
      case _ => None
  }

  /** Resolution of `cur` with `fuel` lookups left, for a chain that started at `start`. */
  function ResolveFrom(step: string -> Step, start: string, cur: string, fuel: nat): Resolution
    decreases fuel
  {
    if fuel == 0 then Unresolved("reference loop/depth exceeded at " + start)
    else match step(cur)
      case Missing => Unresolved("missing token at " + cur)
      case Final(hit) => Resolved(hit.value, cur, hit.node)
      case Alias(next) => ResolveFrom(step, start, next, fuel - 1)
  }

  /** One more hop at the end of a chain of hops. */
  lemma {:induction false} FollowSnoc(step: string -> Step, p: string, k: nat, c: string)
    requires Follow(step, p, k) == Some(c) && step(c).Alias?
    ensures Follow(step, p, k + 1) == Some(step(c).next)
    decreases k
  {
    if k > 0 {
      FollowSnoc(step, step(p).next, k - 1, c);
    }
  }

  /** After `k` alias hops from `p` to `c`, resolving `p` is resolving `c` with `k` fewer lookups. */
  lemma {:induction false} ResolveAfterHops(step: string -> Step, start: string, p: string, k: nat, c: string, fuel: nat)
    requires Follow(step, p, k) == Some(c) && k <= fuel
    ensures ResolveFrom(step, start, p, fuel) == ResolveFrom(step, start, c, fuel - k)
    decreases k
  {
    if k > 0 {
      ResolveAfterHops(step, start, step(p).next, k - 1, c, fuel - 1);
    }
  }

  /** `resolveRef`: follows aliases from `path` for at most `maxDepth` lookups. */
  method ResolveRef(tokens: Json, path: string, maxDepth: nat) returns (r: Resolution)
    ensures r == ResolveFrom(Steps(tokens), path, path, maxDepth)
  {
    var curPath := path;
    var i := 0;
    while i < maxDepth
      invariant i <= maxDepth && Follow(Steps(tokens), path, i) == Some(curPath)
    {
      var hit := GetTokenValueByPath(tokens, curPath);
      assert Steps(tokens)(curPath) == StepAt(tokens, curPath);
      if hit.None? {
        ResolveAfterHops(Steps(tokens), path, path, i, curPath, maxDepth);
        return Unresolved("missing token at " + curPath);
      }
      var v := hit.value.value;
      if !IsAliasRef(v) {
        ResolveAfterHops(Steps(tokens), path, path, i, curPath, maxDepth);
        return Resolved(v, curPath, hit.value.node);
      }
      FollowSnoc(Steps(tokens), path, i, curPath);
      curPath := StripBraces(v.s);
      i := i + 1;
    }
    ResolveAfterHops(Steps(tokens), path, path, i, curPath, maxDepth);
    return Unresolved("reference loop/depth exceeded at " + path);
  }

  // ---------------------------------------------------------------------------
  // Violations

  datatype Violation =
    | MissingMeta(path: string)
    | LayerMismatch(path: string, declared: Json, pathLayer: Layer)
    | Typo(path: string, value: string)
    | RawColor(path: string, value: string)
    | UnresolvedRef(path: string, value: string, reason: string)
    | PrimitiveWithoutException(path: string, value: string)
    | UnknownException(path: string, category: Json)
    | PropertyNotAllowed(parts: seq<string>, allowed: seq<string>)
    | StateNotAllowed(parts: seq<string>, allowed: seq<string>)
  {
    /** The kind tag a violation's message starts with. */
    function Tag(): string {
      match this
      case MissingMeta(_) => "[META]"
      case LayerMismatch(_, _, _) => "[META]"
      case Typo(_, _) => "[TYPO]"
      case RawColor(_, _) => "[RAW]"
      case UnresolvedRef(_, _, _) => "[REF]"
      case PrimitiveWithoutException(_, _) => "[POLICY]"
      case UnknownException(_, _) => "[POLICY]"
      case PropertyNotAllowed(_, _) => "[SCHEMA]"
      case StateNotAllowed(_, _) => "[SCHEMA]"
    }

    function Detail(): string {
      match this
      case MissingMeta(p) => "missing meta: " + p
      case LayerMismatch(p, declared, l) =>
        "meta.layer mismatch: " + p + " (meta.layer=" + ToText(declared) + ", pathLayer=" + LayerName(l) + ")"
      case Typo(p, v) => "'.aplha.' found: " + p + " => " + v
      case RawColor(p, v) => "raw color forbidden: " + p + " => " + v
      case UnresolvedRef(p, v, reason) => "unresolved ref: " + p + " => " + v + " (" + reason + ")"
      case PrimitiveWithoutException(p, v) =>
        "component direct primitive not allowed without exceptionCategory: " + p + " => " + v
      case UnknownException(p, ex) => "unknown exceptionCategory: " + p + " (exceptionCategory=" + ToText(ex) + ")"
      case PropertyNotAllowed(parts, allowed) =>
        "property not allowed: " + Join(parts, ".") + " (allowed: " + Join(allowed, ",") + ")"
      case StateNotAllowed(parts, allowed) =>
        "state not allowed: " + Join(parts, ".") + " (allowed: " + Join(allowed, ",") + ")"
    }

    /** The line `fail` records. */
    function Message(): string {
      Tag() + " " + Detail()
    }
  }

  function Messages(vs: seq<Violation>): (ms: seq<string>)
    ensures |ms| == |vs|
    ensures forall i :: 0 <= i < |vs| ==> ms[i] == vs[i].Message()
  {
    if vs == [] then [] else [vs[0].Message()] + Messages(vs[1..])
  }

  lemma MessagesAppend(a: seq<Violation>, b: seq<Violation>)
    ensures Messages(a + b) == Messages(a) + Messages(b)
  {
  }

  // ---------------------------------------------------------------------------
  // Per-leaf rules (`validateMetaPolicy`)

  predicate NeedsMeta(l: Layer) {
    l == Semantic || l == Component
  }

  /** The exception categories that let a component alias a primitive. */
  predicate IsAllowedException(ex: Option<Json>) {
    ex == Some(Str("disabled")) || ex == Some(Str("overlay_alpha")) || ex == Some(Str("fixed_color"))
  }

  function LayerCheck(path: string, l: Layer, declared: Option<Json>): seq<Violation> {
    if IsTruthy(declared) && declared != Some(Str(LayerName(l))) && l != Unknown
    then [LayerMismatch(path, declared.value, l)] else []
  }

  function TypoCheck(path: string, value: Json): seq<Violation> {
    if value.Str? && Contains(value.s, ".aplha.") then [Typo(path, value.s)] else []
  }

  function RawCheck(path: string, l: Layer, value: Json): seq<Violation> {
    if NeedsMeta(l) && IsRawColorValue(value) then [RawColor(path, value.s)] else []
  }

  function RefCheck(tokens: Json, path: string, value: Json): seq<Violation> {
    if IsAliasRef(value) then
      var refPath := StripBraces(value.s);
      match ResolveFrom(Steps(tokens), refPath, refPath, MaxRefDepth)
      case Unresolved(reason) => [UnresolvedRef(path, value.s, reason)]
      case Resolved(_, _, _) => []
    else []
  }

  function PolicyCheck(path: string, l: Layer, meta: Option<Json>, value: Json): seq<Violation> {
    if l == Component && IsAliasRef(value) && IsPrimitivePath(StripBraces(value.s)) then
      var ex := Member(meta, "exceptionCategory");
      (if !IsTruthy(ex) || !IsAllowedException(ex) then [PrimitiveWithoutException(path, value.s)] else [])
      + (if IsTruthy(ex) && !IsAllowedException(ex) then [UnknownException(path, ex.value)] else [])
    else []
  }

  /** Everything `validateMetaPolicy` reports for one leaf, in order. A semantic or
      component leaf without truthy `meta` gets the META error and nothing else. */
  function LeafViolations(tokens: Json, path: string, leaf: Json): seq<Violation>
    requires IsTokenLeaf(leaf)
  {
    var l := LayerFromPath(path);
    var meta := Lookup(leaf.members, "meta");
    var value := LeafValue(leaf);
    if NeedsMeta(l) && !IsTruthy(meta) then [MissingMeta(path)]
    else LeafChecks(tokens, path, l, meta, value)
  }

  /** The five checks that run once the metadata test has passed, in source order. */
  function LeafChecks(tokens: Json, path: string, l: Layer, meta: Option<Json>, value: Json): seq<Violation> {
    LayerCheck(path, l, Member(meta, "layer")) + TypoCheck(path, value) + RawCheck(path, l, value)
    + RefCheck(tokens, path, value) + PolicyCheck(path, l, meta, value)
  }

  // ---------------------------------------------------------------------------
  // The leaf walker (`collectLeaves`)

  /** The leaves `collectLeaves` visits below `node`, each with its key path, in
      visiting order: non-objects are skipped and leaves are not descended into. */
  function Leaves(node: Json, keys: seq<string>): (r: seq<(seq<string>, Json)>)
    ensures forall e :: e in r ==> IsTokenLeaf(e.1) && keys <= e.0
    decreases node, 1
  {
    if !node.Obj? then []
    else if IsTokenLeaf(node) then [(keys, node)]
    else LeavesFrom(node, 0, keys)
  }

  /** The leaves below the members of `node` from index `i` on. */
  function LeavesFrom(node: Json, i: nat, keys: seq<string>): (r: seq<(seq<string>, Json)>)
    requires node.Obj? && i <= |node.members|
    ensures forall e :: e in r ==> IsTokenLeaf(e.1) && keys <= e.0
    decreases node, 0, |node.members| - i
  {
    if i == |node.members| then []
    else
      assert node.members[i] in node.members;
      Leaves(node.members[i].1, keys + [node.members[i].0]) + LeavesFrom(node, i + 1, keys)
  }

  /** The check `collectLeaves` applies at a leaf reached along `keys`:
      `validateMetaPolicy` under the dot-joined path. */
  function LeafCheck(tokens: Json): (seq<string>, Json) -> seq<Violation> {
    (keys: seq<string>, leaf: Json) => if IsTokenLeaf(leaf) then LeafViolations(tokens, Join(keys, "."), leaf) else []
  }

  /** The reports of `check` over a list of leaves, in order. */
  function Reports(check: (seq<string>, Json) -> seq<Violation>, leaves: seq<(seq<string>, Json)>): seq<Violation> {
    if leaves == [] then [] else check(leaves[0].0, leaves[0].1) + Reports(check, leaves[1..])
  }

  /** The reports of `check` below `node`, by direct recursion over the tree. */
  function TreeReports(check: (seq<string>, Json) -> seq<Violation>, node: Json, keys: seq<string>): seq<Violation>
    decreases node, 1
  {
    if !node.Obj? then []
    else if IsTokenLeaf(node) then check(keys, node)
    else TreeReportsFrom(check, node, 0, keys)
  }

  function TreeReportsFrom(check: (seq<string>, Json) -> seq<Violation>, node: Json, i: nat, keys: seq<string>): seq<Violation>
    requires node.Obj? && i <= |node.members|
    decreases node, 0, |node.members| - i
  {
    if i == |node.members| then []
    else
      assert node.members[i] in node.members;
      TreeReports(check, node.members[i].1, keys + [node.members[i].0])
      + TreeReportsFrom(check, node, i + 1, keys)
  }

  lemma Assoc<T>(a: seq<T>, b: seq<T>, c: seq<T>)
    ensures a + (b + c) == a + b + c
  {
  }

  lemma {:induction false} ReportsAppend(check: (seq<string>, Json) -> seq<Violation>, a: seq<(seq<string>, Json)>, b: seq<(seq<string>, Json)>)
    ensures Reports(check, a + b) == Reports(check, a) + Reports(check, b)
  {
    if a == [] {
      assert a + b == b;
    } else {
      assert (a + b)[0] == a[0];
      assert (a + b)[1..] == a[1..] + b;
      ReportsAppend(check, a[1..], b);
      Assoc(check(a[0].0, a[0].1), Reports(check, a[1..]), Reports(check, b));
    }
  }

  /** The tree recursion reports exactly what `check` says about the enumerated
      leaves, in their order: every leaf is checked once, and nothing else is. */
  lemma {:induction false} TreeReportsOfLeaves(check: (seq<string>, Json) -> seq<Violation>, node: Json, keys: seq<string>)
    ensures TreeReports(check, node, keys) == Reports(check, Leaves(node, keys))
    decreases node, 1
  {
    if node.Obj? && !IsTokenLeaf(node) {
      TreeReportsFromOfLeaves(check, node, 0, keys);
    } else if node.Obj? {
      assert Reports(check, [(keys, node)]) == check(keys, node) + [];
    }
  }

  lemma {:induction false} TreeReportsFromOfLeaves(check: (seq<string>, Json) -> seq<Violation>, node: Json, i: nat, keys: seq<string>)
    requires node.Obj? && i <= |node.members|
    ensures TreeReportsFrom(check, node, i, keys) == Reports(check, LeavesFrom(node, i, keys))
    decreases node, 0, |node.members| - i
  {
    if i < |node.members| {
      assert node.members[i] in node.members;
      var child, childKeys := node.members[i].1, keys + [node.members[i].0];
      TreeReportsOfLeaves(check, child, childKeys);
      TreeReportsFromOfLeaves(check, node, i + 1, keys);
      ReportsAppend(check, Leaves(child, childKeys), LeavesFrom(node, i + 1, keys));
    }
  }

  // ---------------------------------------------------------------------------
  // The schema cross-checker (`checkComponentSchema`)

  datatype ComponentSpec = ComponentSpec(
    pathPattern: Option<Json>,                 // tokenMap.pathPattern
    variants: Option<seq<Option<string>>>,     // axes.variant.values, null entries as None
    subparts: Option<seq<Option<string>>>,     // axes.subpart.values
    stateMatrix: map<string, seq<string>>,
    propertyAllowlist: map<string, seq<string>>)

  datatype Schema = Schema(components: seq<(string, ComponentSpec)>)

  /** `containsLeaf`: some token leaf lies at or below `node`. */
  predicate ContainsLeaf(node: Json)
    decreases node, 1
  {
    node.Obj? && (IsTokenLeaf(node) || SomeMemberContainsLeaf(node, 0))
  }

  predicate SomeMemberContainsLeaf(node: Json, i: nat)
    requires node.Obj? && i <= |node.members|
    decreases node, 0, |node.members| - i
  {
    i < |node.members| &&
    (assert node.members[i] in node.members;
     ContainsLeaf(node.members[i].1) || SomeMemberContainsLeaf(node, i + 1))
  }

  /** A truthy axis value. */
  predicate IsSet(axisValue: Option<string>) {
    axisValue.Some? && axisValue.value != ""
  }

  /** `values ?? [null]`. */
  function AxisValues(values: Option<seq<Option<string>>>): seq<Option<string>> {
    if values.Some? then values.value else [None]
  }

  /** `subpart ?? "default"`. */
  function SubKey(subpart: Option<string>): string {
    if subpart.Some? then subpart.value else "default"
  }

  /** `table?.[subKey] ?? table?.default ?? []`. */
  function AllowedFor(table: map<string, seq<string>>, subKey: string): seq<string> {
    if subKey in table then table[subKey]
    else if "default" in table then table["default"]
    else []
  }

  /** `color.component.<name>[.<variant>][.<subpart>]` as key parts. */
  function BaseParts(name: string, variant: Option<string>, subpart: Option<string>): seq<string> {
    ["color", "component", name]
    + (if IsSet(variant) then [variant.value] else [])
    + (if IsSet(subpart) then [subpart.value] else [])
  }

  /** What `walkPropState` reports below `n`, reached along `cur`: keys one level
      below the base are properties, keys two levels below are states, and the walk
      goes on below every key. */
  function WalkViolations(n: Json, cur: seq<string>, baseLen: nat, props: seq<string>, states: seq<string>): seq<Violation>
    decreases n, 1
  {
    if !n.Obj? then [] else WalkFrom(n, 0, cur, baseLen, props, states)
  }

  function KeyCheck(next: seq<string>, baseLen: nat, v: Json, props: seq<string>, states: seq<string>): seq<Violation>
    requires |next| >= 1
  {
    var k := next[|next| - 1];
    if |next| - baseLen == 1 then
      (if k !in props && ContainsLeaf(v) then [PropertyNotAllowed(next, props)] else [])
    else if |next| - baseLen == 2 then
      (if k !in states && ContainsLeaf(v) then [StateNotAllowed(next, states)] else [])
    else []
  }

  function WalkFrom(n: Json, i: nat, cur: seq<string>, baseLen: nat, props: seq<string>, states: seq<string>): seq<Violation>
    requires n.Obj? && i <= |n.members|
    decreases n, 0, |n.members| - i
  {
    if i == |n.members| then []
    else
      assert n.members[i] in n.members;
      var next := cur + [n.members[i].0];
      KeyCheck(next, baseLen, n.members[i].1, props, states)
      + WalkViolations(n.members[i].1, next, baseLen, props, states)
      + WalkFrom(n, i + 1, cur, baseLen, props, states)
  }

  /** One (variant, subpart) combination: skipped when its base path is absent. */
  function CombinationViolations(tokens: Json, name: string, spec: ComponentSpec,
                                 variant: Option<string>, subpart: Option<string>): seq<Violation>
  {
    var base := BaseParts(name, variant, subpart);
    match Descend(tokens, Split(Join(base, "."), '.'))
    case None => []
    case Some(b) =>
      WalkViolations(b, base, |base|,
                     AllowedFor(spec.propertyAllowlist, SubKey(subpart)),
                     AllowedFor(spec.stateMatrix, SubKey(subpart)))
  }

  function SubpartsViolations(tokens: Json, name: string, spec: ComponentSpec,
                              variant: Option<string>, subparts: seq<Option<string>>): seq<Violation>
    decreases |subparts|
  {
    if subparts == [] then []
    else CombinationViolations(tokens, name, spec, variant, subparts[0])
         + SubpartsViolations(tokens, name, spec, variant, subparts[1..])
  }

  function VariantsViolations(tokens: Json, name: string, spec: ComponentSpec,
                              variants: seq<Option<string>>): seq<Violation>
    decreases |variants|
  {
    if variants == [] then []
    else SubpartsViolations(tokens, name, spec, variants[0], AxisValues(spec.subparts))
         + VariantsViolations(tokens, name, spec, variants[1..])
  }

  /** One component: skipped when it has no token subtree or no `tokenMap.pathPattern`. */
  function ComponentViolations(tokens: Json, name: string, spec: ComponentSpec): seq<Violation> {
    if Descend(tokens, Split("color.component." + name, '.')).None? then []
    else if !IsTruthy(spec.pathPattern) then []
    else VariantsViolations(tokens, name, spec, AxisValues(spec.variants))
  }

  function ComponentsViolations(tokens: Json, comps: seq<(string, ComponentSpec)>): seq<Violation>
    decreases |comps|
  {
    if comps == [] then []
    else ComponentViolations(tokens, comps[0].0, comps[0].1) + ComponentsViolations(tokens, comps[1..])
  }

  /** The dotted path of the component subtree. */
  const ComponentRoot: string := "color.component"

  function SchemaViolations(tokens: Json, schema: Schema): seq<Violation> {
    if Descend(tokens, Split(ComponentRoot, '.')).None? then []
    else ComponentsViolations(tokens, schema.components)
  }

  /** Everything one lint run reports: the walker's leaf violations, then the schema's. */
  function LintViolations(tokens: Json, schema: Schema): seq<Violation> {
    Reports(LeafCheck(tokens), Leaves(tokens, [])) + SchemaViolations(tokens, schema)
  }

  // ---------------------------------------------------------------------------
  // The linter's state: `ok` and the `errors` it accumulates through `fail`
  class Linter {
    const tokens: Json
    const schema: Schema
    var ok: bool
    var errors: seq<string>
    /** The violations behind `errors`, one per recorded line. */
    ghost var reported: seq<Violation>

    /** `ok` turns false exactly when the first error is recorded. */
    ghost predicate Valid()
      reads this
    {
      (ok <==> errors == []) && errors == Messages(reported)
    }

    constructor (tokens: Json, schema: Schema)
      ensures Valid() && this.tokens == tokens && this.schema == schema && reported == []
    {
      this.tokens := tokens;
      this.schema := schema;
      ok := true;
      errors := [];
      reported := [];
    }

    /** `fail`: record the message of one violation. */
    method Fail(v: Violation)
      requires Valid()
      modifies this
      ensures Valid() && !ok && reported == old(reported) + [v]
    {
      ok := false;
      MessagesAppend(reported, [v]);
      errors := errors + [v.Message()];
      reported := reported + [v];
    }

    method CheckLayer(path: string, l: Layer, declared: Option<Json>)
      requires Valid()
      modifies this
      ensures Valid() && reported == old(reported) + LayerCheck(path, l, declared)
    {
      if IsTruthy(declared) && declared != Some(Str(LayerName(l))) && l != Unknown {
        Fail(LayerMismatch(path, declared.value, l));
      }
    }

    method CheckTypo(path: string, value: Json)
      requires Valid()
      modifies this
      ensures Valid() && reported == old(reported) + TypoCheck(path, value)
    {
      if value.Str? && Contains(value.s, ".aplha.") {
        Fail(Typo(path, value.s));
      }
    }

    method CheckRaw(path: string, l: Layer, value: Json)
      requires Valid()
      modifies this
      ensures Valid() && reported == old(reported) + RawCheck(path, l, value)
    {
      if NeedsMeta(l) && IsRawColorValue(value) {
        Fail(RawColor(path, value.s));
      }
    }

    method CheckRef(path: string, value: Json)
      requires Valid()
      modifies this
      ensures Valid() && reported == old(reported) + RefCheck(tokens, path, value)
    {
      if IsAliasRef(value) {
        var refPath := StripBraces(value.s);
        var r := ResolveRef(tokens, refPath, MaxRefDepth);
        if r.Unresolved? {
          Fail(UnresolvedRef(path, value.s, r.reason));
        }
      }
    }

    method CheckPolicy(path: string, l: Layer, meta: Option<Json>, value: Json)
      requires Valid()
      modifies this
      ensures Valid() && reported == old(reported) + PolicyCheck(path, l, meta, value)
    {
      if l == Component && IsAliasRef(value) {
        var refPath := StripBraces(value.s);
        if IsPrimitivePath(refPath) {
          var ex := Member(meta, "exceptionCategory");
          ghost var r0 := reported;
          ghost var first: seq<Violation> :=
            if !IsTruthy(ex) || !IsAllowedException(ex) then [PrimitiveWithoutException(path, value.s)] else [];
          ghost var second: seq<Violation> :=
            if IsTruthy(ex) && !IsAllowedException(ex) then [UnknownException(path, ex.value)] else [];
          if !IsTruthy(ex) || !IsAllowedException(ex) {
            Fail(PrimitiveWithoutException(path, value.s));
          }
          assert reported == r0 + first;
          if IsTruthy(ex) && !IsAllowedException(ex) {
            Fail(UnknownException(path, ex.value));
          }
          assert reported == r0 + first + second;
          Assoc(r0, first, second);
        }
      }
    }

    /** `validateMetaPolicy`. */
    method ValidateMetaPolicy(path: string, leaf: Json)
      requires Valid() && IsTokenLeaf(leaf)
      modifies this
      ensures Valid() && reported == old(reported) + LeafViolations(tokens, path, leaf)
    {
      var l := LayerFromPath(path);
      var meta := Lookup(leaf.members, "meta");
      if NeedsMeta(l) && !IsTruthy(meta) {
        Fail(MissingMeta(path));
        return;
      }
      var value := LeafValue(leaf);
      ghost var r0 := reported;
      ghost var a, b, c, d, e := LayerCheck(path, l, Member(meta, "layer")), TypoCheck(path, value),
        RawCheck(path, l, value), RefCheck(tokens, path, value), PolicyCheck(path, l, meta, value);
      CheckLayer(path, l, Member(meta, "layer"));
      CheckTypo(path, value);
      CheckRaw(path, l, value);
      CheckRef(path, value);
      CheckPolicy(path, l, meta, value);
      Assoc(r0, a + b + c + d, e);
      Assoc(r0, a + b + c, d);
      Assoc(r0, a + b, c);
      Assoc(r0, a, b);
    }

    /** `collectLeaves`: validates every leaf below `node`, reached along `keys`. */
    method CollectLeaves(node: Json, keys: seq<string>)
      requires Valid()
      modifies this
      ensures Valid() && reported == old(reported) + TreeReports(LeafCheck(tokens), node, keys)
      decreases node
    {
      if !node.Obj? {
        return;
      }
      if IsTokenLeaf(node) {
        ValidateMetaPolicy(Join(keys, "."), node);
        return;
      }
      var i := 0;
      while i < |node.members|
        invariant 0 <= i <= |node.members| && Valid()
        invariant old(reported) + TreeReportsFrom(LeafCheck(tokens), node, 0, keys)
                  == reported + TreeReportsFrom(LeafCheck(tokens), node, i, keys)
      {
        var k := node.members[i].0;
        var v := node.members[i].1;
        assert node.members[i] in node.members;
        ghost var before := reported;
        CollectLeaves(v, keys + [k]);
        Assoc(before, TreeReports(LeafCheck(tokens), v, keys + [k]), TreeReportsFrom(LeafCheck(tokens), node, i + 1, keys));
        i := i + 1;
      }
    }

    /** The check `walkPropState` makes at one key. */
    method CheckKey(nextPath: seq<string>, baseLen: nat, v: Json, allowedProps: seq<string>, allowedStates: seq<string>)
      requires Valid() && |nextPath| >= 1
      modifies this
      ensures Valid() && reported == old(reported) + KeyCheck(nextPath, baseLen, v, allowedProps, allowedStates)
    {
      var k := nextPath[|nextPath| - 1];
      var depth := |nextPath| - baseLen;
      if depth == 1 {
        if k !in allowedProps && ContainsLeaf(v) {
          Fail(PropertyNotAllowed(nextPath, allowedProps));
        }
      } else if depth == 2 {
        if k !in allowedStates && ContainsLeaf(v) {
          Fail(StateNotAllowed(nextPath, allowedStates));
        }
      }
    }

    /** `walkPropState`: checks property and state keys below a component base. */
    method WalkPropState(n: Json, curParts: seq<string>, baseLen: nat, allowedProps: seq<string>, allowedStates: seq<string>)
      requires Valid()
      modifies this
      ensures Valid() && reported == old(reported) + WalkViolations(n, curParts, baseLen, allowedProps, allowedStates)
      decreases n
    {
      if !n.Obj? {
        return;
      }
      var i := 0;
      while i < |n.members|
        invariant 0 <= i <= |n.members| && Valid()
        invariant old(reported) + WalkFrom(n, 0, curParts, baseLen, allowedProps, allowedStates)
                  == reported + WalkFrom(n, i, curParts, baseLen, allowedProps, allowedStates)
      {
        var k := n.members[i].0;
        var v := n.members[i].1;
        assert n.members[i] in n.members;
        var nextPath := curParts + [k];
        ghost var before := reported;
        ghost var kc := KeyCheck(nextPath, baseLen, v, allowedProps, allowedStates);
        ghost var below := WalkViolations(v, nextPath, baseLen, allowedProps, allowedStates);
        ghost var rest := WalkFrom(n, i + 1, curParts, baseLen, allowedProps, allowedStates);
        CheckKey(nextPath, baseLen, v, allowedProps, allowedStates);
        WalkPropState(v, nextPath, baseLen, allowedProps, allowedStates);
        Assoc(before, kc + below, rest);
        Assoc(before, kc, below);
        i := i + 1;
      }
    }

    /** One (variant, subpart) combination of `checkComponentSchema`. */
    method CheckCombination(name: string, spec: ComponentSpec, variant: Option<string>, subpart: Option<string>)
      requires Valid()
      modifies this
      ensures Valid() && reported == old(reported) + CombinationViolations(tokens, name, spec, variant, subpart)
    {
      var subKey := SubKey(subpart);
      var allowedStates := AllowedFor(spec.stateMatrix, subKey);
      var allowedProps := AllowedFor(spec.propertyAllowlist, subKey);
      var basePathParts := ["color", "component", name];
      if IsSet(variant) {
        basePathParts := basePathParts + [variant.value];
      }
      if IsSet(subpart) {
        basePathParts := basePathParts + [subpart.value];
      }
      assert basePathParts == BaseParts(name, variant, subpart);
      var baseHit := GetByPath(tokens, Join(basePathParts, "."));
      if baseHit.None? {
        return;
      }
      WalkPropState(baseHit.value, basePathParts, |basePathParts|, allowedProps, allowedStates);
    }

    /** The body of the loop over `schema.components` for one component. */
    method CheckComponent(name: string, spec: ComponentSpec)
      requires Valid()
      modifies this
      ensures Valid() && reported == old(reported) + ComponentViolations(tokens, name, spec)
    {
      var compNodeHit := GetByPath(tokens, "color.component." + name);
      if compNodeHit.None? {
        return;
      }
      if !IsTruthy(spec.pathPattern) {
        return;
      }
      var variantVals := AxisValues(spec.variants);
      var subpartVals := AxisValues(spec.subparts);
      var i := 0;
      while i < |variantVals|
        invariant 0 <= i <= |variantVals| && Valid()
        invariant old(reported) + VariantsViolations(tokens, name, spec, variantVals)
                  == reported + VariantsViolations(tokens, name, spec, variantVals[i..])
      {
        ghost var before := reported;
        CheckVariant(name, spec, variantVals[i], subpartVals);
        assert variantVals[i..][1..] == variantVals[i + 1..];
        Assoc(before, SubpartsViolations(tokens, name, spec, variantVals[i], subpartVals),
              VariantsViolations(tokens, name, spec, variantVals[i + 1..]));
        i := i + 1;
      }
    }

    /** The inner loop of `checkComponentSchema`, over the subparts of one variant. */
    method CheckVariant(name: string, spec: ComponentSpec, variant: Option<string>, subpartVals: seq<Option<string>>)
      requires Valid()
      modifies this
      ensures Valid() && reported == old(reported) + SubpartsViolations(tokens, name, spec, variant, subpartVals)
    {
      var j := 0;
      while j < |subpartVals|
        invariant 0 <= j <= |subpartVals| && Valid()
        invariant old(reported) + SubpartsViolations(tokens, name, spec, variant, subpartVals)
                  == reported + SubpartsViolations(tokens, name, spec, variant, subpartVals[j..])
      {
        ghost var mid := reported;
        CheckCombination(name, spec, variant, subpartVals[j]);
        assert subpartVals[j..][1..] == subpartVals[j + 1..];
        Assoc(mid, CombinationViolations(tokens, name, spec, variant, subpartVals[j]),
              SubpartsViolations(tokens, name, spec, variant, subpartVals[j + 1..]));
        j := j + 1;
      }
    }

    /** `checkComponentSchema`. */
    method CheckComponentSchema()
      requires Valid()
      modifies this
      ensures Valid() && reported == old(reported) + SchemaViolations(tokens, schema)
    {
      var componentRoot := GetByPath(tokens, ComponentRoot);
      if componentRoot.None? {
        return;
      }
      var components := schema.components;
      var i := 0;
      while i < |components|
        invariant 0 <= i <= |components| && Valid()
        invariant old(reported) + ComponentsViolations(tokens, components)
                  == reported + ComponentsViolations(tokens, components[i..])
      {
        ghost var before := reported;
        CheckComponent(components[i].0, components[i].1);
        assert components[i..][1..] == components[i + 1..];
        Assoc(before, ComponentViolations(tokens, components[i].0, components[i].1),
              ComponentsViolations(tokens, components[i + 1..]));
        i := i + 1;
      }
    }
  }

  /** One run of the linter: every leaf, then the schema; `ok` exactly when no error was recorded. */
  method Lint(tokens: Json, schema: Schema) returns (ok: bool, errors: seq<string>)
    ensures errors == Messages(LintViolations(tokens, schema))
    ensures ok <==> errors == []
  {
    var linter := new Linter(tokens, schema);
    linter.CollectLeaves(tokens, []);
    linter.CheckComponentSchema();
    ok, errors := linter.ok, linter.errors;
    TreeReportsOfLeaves(LeafCheck(tokens), tokens, []);
    assert [] + TreeReports(LeafCheck(tokens), tokens, []) == TreeReports(LeafCheck(tokens), tokens, []);
  }
}
