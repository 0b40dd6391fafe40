/** What the linter of scripts/lint-tokens.mjs promises, proved about the model in
    LintTokens: the value predicates against reference definitions, the bounded
    alias resolver's three outcomes, the early return on missing metadata, the
    POLICY error counts, the walker's coverage and the schema walk's reports. */
module LintProperties {
  import opened Text
  import opened Json
  import opened LintTokens

  // ---------------------------------------------------------------------------
  // Value predicates

  /** `isRawColorValue` is true exactly for strings whose trimmed text is `#` and
      3, 6 or 8 hex digits, or begins with `rgb(` or `rgba(`. */
  lemma RawColorForms(v: Json)
    ensures IsRawColorValue(v) <==>
      v.Str? && ((exists h :: Trim(v.s) == "#" + h && (|h| == 3 || |h| == 6 || |h| == 8) && IsHexDigits(h))
                 || "rgb(" <= Trim(v.s) || "rgba(" <= Trim(v.s))
  {
    if v.Str? {
      var t := Trim(v.s);
      if IsHexColor(t) {
        assert t == "#" + t[1..];
      }
      if exists h :: t == "#" + h && (|h| == 3 || |h| == 6 || |h| == 8) && IsHexDigits(h) {
        var h :| t == "#" + h && (|h| == 3 || |h| == 6 || |h| == 8) && IsHexDigits(h);
        assert t[1..] == h;
      }
    }
  }

  /** The 4-digit hex form `#rgba` is not treated as a raw colour. */
  lemma FourDigitHexNotRaw(s: string, h: string)
    requires Trim(s) == "#" + h && |h| == 4
    ensures !IsRawColorValue(Str(s))
  {
    assert Trim(s)[0] == '#';
  }

  /** An alias is a trimmed `{...}` with at least one character inside, and
      `stripBraces` gives exactly that inside. */
  lemma StripBracesOfAlias(v: Json)
    requires IsAliasRef(v)
    ensures Trim(v.s) == "{" + StripBraces(v.s) + "}"
    ensures |StripBraces(v.s)| >= 1
  {
    var t := Trim(v.s);
    assert t == [t[0]] + t[1..|t| - 1] + [t[|t| - 1]];
  }

  /** Wrapping a path without line terminators in braces gives an alias that
      `stripBraces` unwraps back to the path. */
  lemma AliasRoundTrip(p: string)
    requires |p| >= 1 && forall k :: 0 <= k < |p| ==> !IsLineTerminator(p[k])
    ensures IsAliasRef(Str("{" + p + "}"))
    ensures StripBraces("{" + p + "}") == p
  {
    var s := "{" + p + "}";
    TrimOfTrimmed(s);
    assert s[1..|s| - 1] == p;
    assert forall k :: 1 <= k < |s| - 1 ==> s[k] == p[k - 1];
  }

  // ---------------------------------------------------------------------------
  // The bounded resolver

  /** A successful resolution is the final value reached after fewer than `fuel`
      alias hops. */
  lemma {:induction false} ResolvedWithinFuel(step: string -> Step, start: string, p: string, fuel: nat)
    requires ResolveFrom(step, start, p, fuel).Resolved?
    ensures exists k :: 0 <= k < fuel && Follow(step, p, k).Some? && step(Follow(step, p, k).value).Final?
                        && ResolveFrom(step, start, p, fuel)
                           == Resolved(step(Follow(step, p, k).value).hit.value, Follow(step, p, k).value,
                                       step(Follow(step, p, k).value).hit.node)
    decreases fuel
  {
    if step(p).Final? {
      assert Follow(step, p, 0) == Some(p);
    } else {
      var next := step(p).next;
      ResolvedWithinFuel(step, start, next, fuel - 1);
      var k :| 0 <= k < fuel - 1 && Follow(step, next, k).Some? && step(Follow(step, next, k).value).Final?
               && ResolveFrom(step, start, next, fuel - 1)
                  == Resolved(step(Follow(step, next, k).value).hit.value, Follow(step, next, k).value,
                              step(Follow(step, next, k).value).hit.node);
      assert Follow(step, p, k + 1) == Follow(step, next, k);
    }
  }

  /** A hop that lands on a missing token ends the resolution with that hop's path. */
  lemma MissingHopFails(step: string -> Step, start: string, p: string, k: nat, c: string, fuel: nat)
    requires Follow(step, p, k) == Some(c) && k < fuel && step(c).Missing?
    ensures ResolveFrom(step, start, p, fuel) == Unresolved("missing token at " + c)
  {
    ResolveAfterHops(step, start, p, k, c, fuel);
  }

  /** A chain of `fuel` alias hops exhausts the resolver, which blames the start path. */
  lemma ChainTooLongFails(step: string -> Step, start: string, p: string, fuel: nat)
    requires Follow(step, p, fuel).Some?
    ensures ResolveFrom(step, start, p, fuel) == Unresolved("reference loop/depth exceeded at " + start)
  {
    ResolveAfterHops(step, start, p, fuel, Follow(step, p, fuel).value, fuel);
  }

  /** `a` hops then `b` more hops are `a + b` hops. */
  lemma {:induction false} FollowAdd(step: string -> Step, p: string, a: nat, b: nat)
    requires Follow(step, p, a).Some?
    ensures Follow(step, p, a + b) == Follow(step, Follow(step, p, a).value, b)
    decreases a
  {
    if a > 0 {
      FollowAdd(step, step(p).next, a - 1, b);
    }
  }

  /** A chain that makes `a + b` hops makes its first `a`. */
  lemma {:induction false} FollowPrefix(step: string -> Step, p: string, a: nat, b: nat)
    requires Follow(step, p, a + b).Some?
    ensures Follow(step, p, a).Some?
    decreases a
  {
    if a > 0 {
      FollowPrefix(step, step(p).next, a - 1, b);
    }
  }

  /** A path that comes back to itself after `n >= 1` hops can be followed forever. */
  lemma {:induction false} FollowAround(step: string -> Step, p: string, n: nat, m: nat)
    requires n >= 1 && Follow(step, p, n) == Some(p)
    ensures Follow(step, p, m).Some?
    decreases m
  {
    if m >= n {
      FollowAround(step, p, n, m - n);
      FollowAdd(step, p, n, m - n);
    } else {
      FollowPrefix(step, p, m, n - m);
    }
  }

  /** Any alias cycle through the start fails with the loop error, whatever the bound. */
  lemma CycleNeverResolves(step: string -> Step, start: string, p: string, n: nat, fuel: nat)
    requires n >= 1 && Follow(step, p, n) == Some(p)
    ensures ResolveFrom(step, start, p, fuel) == Unresolved("reference loop/depth exceeded at " + start)
  {
    FollowAround(step, p, n, fuel);
    ChainTooLongFails(step, start, p, fuel);
  }

  /** The two-token cycle `a -> {b} -> {a}`. */
  lemma TwoCycleNeverResolves(step: string -> Step, start: string, a: string, b: string, fuel: nat)
    requires step(a) == Alias(b) && step(b) == Alias(a)
    ensures ResolveFrom(step, start, a, fuel) == Unresolved("reference loop/depth exceeded at " + start)
  {
    assert Follow(step, a, 2) == Follow(step, b, 1) == Follow(step, a, 0);
    CycleNeverResolves(step, start, a, 2, fuel);
  }

  /** In a token tree, a resolved value is a token value that is not an alias,
      found at the reported leaf path. */
  lemma ResolvedIsConcrete(tokens: Json, start: string, p: string, fuel: nat)
    requires ResolveFrom(Steps(tokens), start, p, fuel).Resolved?
    ensures var r := ResolveFrom(Steps(tokens), start, p, fuel);
            !IsAliasRef(r.value) && TokenAt(tokens, r.leafPath) == Some(Hit(r.value, r.leafNode))
  {
    ResolvedWithinFuel(Steps(tokens), start, p, fuel);
    var k :| 0 <= k < fuel && Follow(Steps(tokens), p, k).Some? && Steps(tokens)(Follow(Steps(tokens), p, k).value).Final?
             && ResolveFrom(Steps(tokens), start, p, fuel)
                == Resolved(Steps(tokens)(Follow(Steps(tokens), p, k).value).hit.value, Follow(Steps(tokens), p, k).value,
                            Steps(tokens)(Follow(Steps(tokens), p, k).value).hit.node);
    var c := Follow(Steps(tokens), p, k).value;
    assert Steps(tokens)(c) == StepAt(tokens, c);
  }

  // ---------------------------------------------------------------------------
  // validateMetaPolicy

  /** A semantic or component leaf without truthy `meta` gets exactly one META error
      and none of the other checks runs for it. */
  lemma MissingMetaAlone(tokens: Json, path: string, leaf: Json)
    requires IsTokenLeaf(leaf)
    requires NeedsMeta(LayerFromPath(path)) && !IsTruthy(Lookup(leaf.members, "meta"))
    ensures LeafViolations(tokens, path, leaf) == [MissingMeta(path)]
  {
  }

  /** Any other leaf gets no "missing meta" error: only the five later checks report. */
  lemma NoMissingMetaOtherwise(tokens: Json, path: string, leaf: Json)
    requires IsTokenLeaf(leaf)
    requires !(NeedsMeta(LayerFromPath(path)) && !IsTruthy(Lookup(leaf.members, "meta")))
    ensures forall v :: v in LeafViolations(tokens, path, leaf) ==> !v.MissingMeta?
  {
    var l, meta, value := LayerFromPath(path), Lookup(leaf.members, "meta"), LeafValue(leaf);
    var a, b, c := LayerCheck(path, l, Member(meta, "layer")), TypoCheck(path, value), RawCheck(path, l, value);
    var d, e := RefCheck(tokens, path, value), PolicyCheck(path, l, meta, value);
    assert LeafViolations(tokens, path, leaf) == LeafChecks(tokens, path, l, meta, value);
    CheckKinds(tokens, path, l, meta, value);
    NoneMissingMeta(a, b, c, d, e);
  }

  /** Each of the five later checks reports violations of its own kind only. */
  lemma CheckKinds(tokens: Json, path: string, l: Layer, meta: Option<Json>, value: Json)
    ensures forall v :: v in LayerCheck(path, l, Member(meta, "layer")) ==> v.LayerMismatch?
    ensures forall v :: v in TypoCheck(path, value) ==> v.Typo?
    ensures forall v :: v in RawCheck(path, l, value) ==> v.RawColor?
    ensures forall v :: v in RefCheck(tokens, path, value) ==> v.UnresolvedRef?
    ensures forall v :: v in PolicyCheck(path, l, meta, value) ==> v.PrimitiveWithoutException? || v.UnknownException?
  {
    RefKind(tokens, path, value);
    PolicyKind(path, l, meta, value);
  }

  lemma RefKind(tokens: Json, path: string, value: Json)
    ensures forall v :: v in RefCheck(tokens, path, value) ==> v.UnresolvedRef?
  {
    if IsAliasRef(value) {
      var refPath := StripBraces(value.s);
      var r := ResolveFrom(Steps(tokens), refPath, refPath, MaxRefDepth);
      assert RefCheck(tokens, path, value) == if r.Unresolved? then [UnresolvedRef(path, value.s, r.reason)] else [];
    }
  }

  lemma PolicyKind(path: string, l: Layer, meta: Option<Json>, value: Json)
    ensures forall v :: v in PolicyCheck(path, l, meta, value) ==> v.PrimitiveWithoutException? || v.UnknownException?
  {
    if l == Component && IsAliasRef(value) && IsPrimitivePath(StripBraces(value.s)) {
      var ex := Member(meta, "exceptionCategory");
      var p: seq<Violation> := if !IsTruthy(ex) || !IsAllowedException(ex) then [PrimitiveWithoutException(path, value.s)] else [];
      var q: seq<Violation> := if IsTruthy(ex) && !IsAllowedException(ex) then [UnknownException(path, ex.value)] else [];
      assert PolicyCheck(path, l, meta, value) == p + q;
    }
  }

  lemma NoneMissingMeta(a: seq<Violation>, b: seq<Violation>, c: seq<Violation>, d: seq<Violation>, e: seq<Violation>)
    requires forall v :: v in a ==> v.LayerMismatch?
    requires forall v :: v in b ==> v.Typo?
    requires forall v :: v in c ==> v.RawColor?
    requires forall v :: v in d ==> v.UnresolvedRef?
    requires forall v :: v in e ==> v.PrimitiveWithoutException? || v.UnknownException?
    ensures forall v :: v in a + b + c + d + e ==> !v.MissingMeta?
  {
  }

  /** For a component leaf aliasing a primitive path, an allowed exception category
      gives no POLICY error, a missing one gives one, and an unknown one gives two. */
  lemma PolicyErrorCount(path: string, meta: Option<Json>, value: Json)
    requires IsAliasRef(value) && IsPrimitivePath(StripBraces(value.s))
    ensures var ex := Member(meta, "exceptionCategory");
            PolicyCheck(path, Component, meta, value) ==
              if !IsTruthy(ex) then [PrimitiveWithoutException(path, value.s)]
              else if IsAllowedException(ex) then []
              else [PrimitiveWithoutException(path, value.s), UnknownException(path, ex.value)]
  {
  }

  /** The POLICY rule applies to component leaves only. */
  lemma PolicyOnlyForComponents(path: string, l: Layer, meta: Option<Json>, value: Json)
    requires l != Component
    ensures PolicyCheck(path, l, meta, value) == []
  {
  }

  // ---------------------------------------------------------------------------
  // collectLeaves and containsLeaf

  /** Objects nested anywhere in `node` have distinct keys, as `JSON.parse` builds them. */
  predicate WellFormed(node: Json)
    decreases node, 1
  {
    !node.Obj? || (DistinctKeys(node.members) && MembersWellFormed(node, 0))
  }

  predicate MembersWellFormed(node: Json, i: nat)
    requires node.Obj? && i <= |node.members|
    decreases node, 0, |node.members| - i
  {
    i == |node.members| ||
    (assert node.members[i] in node.members;
     WellFormed(node.members[i].1) && MembersWellFormed(node, i + 1))
  }

  /** With distinct keys, looking up a member's key finds that member. */
  lemma {:induction false} LookupDistinct(ms: seq<(string, Json)>, i: nat)
    requires DistinctKeys(ms) && i < |ms|
    ensures Lookup(ms, ms[i].0) == Some(ms[i].1)
    decreases i
  {
    if i > 0 {
      assert DistinctKeys(ms[1..]) by {
        forall a, b | 0 <= a < b < |ms| - 1 ensures ms[1..][a].0 != ms[1..][b].0 {
          assert ms[1..][a] == ms[a + 1] && ms[1..][b] == ms[b + 1];
        }
      }
      assert ms[1..][i - 1] == ms[i];
      LookupDistinct(ms[1..], i - 1);
    }
  }

  /** Every leaf the walker visits is reached from `node` by its own key path. */
  lemma {:induction false} LeavesReachable(node: Json, keys: seq<string>)
    requires WellFormed(node)
    ensures forall e :: e in Leaves(node, keys) ==> Descend(node, e.0[|keys|..]) == Some(e.1)
    decreases node, 1
  {
    if node.Obj? && !IsTokenLeaf(node) {
      LeavesFromReachable(node, 0, keys);
    } else if node.Obj? {
      assert forall e :: e in Leaves(node, keys) ==> e.0[|keys|..] == [];
    }
  }

  lemma {:induction false} LeavesFromReachable(node: Json, i: nat, keys: seq<string>)
    requires node.Obj? && i <= |node.members| && DistinctKeys(node.members) && MembersWellFormed(node, i)
    ensures forall e :: e in LeavesFrom(node, i, keys) ==> Descend(node, e.0[|keys|..]) == Some(e.1)
    decreases node, 0, |node.members| - i
  {
    if i < |node.members| {
      assert node.members[i] in node.members;
      var k, child := node.members[i].0, node.members[i].1;
      LeavesReachable(child, keys + [k]);
      LeavesFromReachable(node, i + 1, keys);
      LookupDistinct(node.members, i);
      forall e | e in Leaves(child, keys + [k])
        ensures Descend(node, e.0[|keys|..]) == Some(e.1)
      {
        assert keys + [k] <= e.0;
        assert e.0[|keys|..] == [k] + e.0[|keys| + 1..];
      }
    }
  }

  /** `containsLeaf` holds exactly when the walker finds some leaf below the node. */
  lemma {:induction false} ContainsLeafIffLeaves(node: Json, keys: seq<string>)
    ensures ContainsLeaf(node) <==> |Leaves(node, keys)| > 0
    decreases node, 1
  {
    if node.Obj? && !IsTokenLeaf(node) {
      SomeMemberIffLeavesFrom(node, 0, keys);
    }
  }

  lemma {:induction false} SomeMemberIffLeavesFrom(node: Json, i: nat, keys: seq<string>)
    requires node.Obj? && i <= |node.members|
    ensures SomeMemberContainsLeaf(node, i) <==> |LeavesFrom(node, i, keys)| > 0
    decreases node, 0, |node.members| - i
  {
    if i < |node.members| {
      assert node.members[i] in node.members;
      ContainsLeafIffLeaves(node.members[i].1, keys + [node.members[i].0]);
      SomeMemberIffLeavesFrom(node, i + 1, keys);
    }
  }

  /** A member of a well-formed object is well-formed. */
  lemma {:induction false} MemberWellFormed(node: Json, i: nat, m: nat)
    requires node.Obj? && i <= m < |node.members| && MembersWellFormed(node, i)
    ensures node.members[m] in node.members && WellFormed(node.members[m].1)
    decreases m - i
  {
    assert node.members[i] in node.members;
    if i < m {
      MemberWellFormed(node, i + 1, m);
    }
  }

  /** Whatever a path reaches inside a well-formed tree is well-formed. */
  lemma {:induction false} DescendWellFormed(node: Json, parts: seq<string>)
    requires WellFormed(node) && Descend(node, parts).Some?
    ensures WellFormed(Descend(node, parts).value)
    decreases |parts|
  {
    if parts != [] {
      var c := Lookup(node.members, parts[0]).value;
      var m :| 0 <= m < |node.members| && node.members[m] == (parts[0], c);
      MemberWellFormed(node, 0, m);
      DescendWellFormed(c, parts[1..]);
    }
  }

  /** The leaves found below member `m` are among those the walk finds from any `i <= m`. */
  lemma {:induction false} LeavesFromKeeps(node: Json, i: nat, m: nat, keys: seq<string>)
    requires node.Obj? && i <= m < |node.members|
    ensures node.members[m] in node.members
    ensures forall e :: e in Leaves(node.members[m].1, keys + [node.members[m].0]) ==> e in LeavesFrom(node, i, keys)
    decreases m - i
  {
    assert node.members[i] in node.members;
    var here := Leaves(node.members[i].1, keys + [node.members[i].0]);
    var rest := LeavesFrom(node, i + 1, keys);
    assert LeavesFrom(node, i, keys) == here + rest;
    if i < m {
      LeavesFromKeeps(node, i + 1, m, keys);
    }
  }

  /** Every token leaf of the tree is visited, under its own key path, when no leaf
      lies on the way to it (the walker does not descend into a leaf). */
  lemma {:induction false} LeavesComplete(node: Json, keys: seq<string>, ks: seq<string>)
    requires Descend(node, ks).Some? && IsTokenLeaf(Descend(node, ks).value)
    requires forall j :: 0 <= j < |ks| ==> Descend(node, ks[..j]).Some? && !IsTokenLeaf(Descend(node, ks[..j]).value)
    ensures (keys + ks, Descend(node, ks).value) in Leaves(node, keys)
    decreases |ks|
  {
    if ks == [] {
      assert keys + ks == keys;
    } else {
      assert ks[..0] == [];
      var k, rest := ks[0], ks[1..];
      var child := Lookup(node.members, k).value;
      forall j | 0 <= j < |rest|
        ensures Descend(child, rest[..j]).Some? && !IsTokenLeaf(Descend(child, rest[..j]).value)
      {
        var p := ks[..j + 1];
        assert p[0] == k && p[1..] == rest[..j];
      }
      LeavesComplete(child, keys + [k], rest);
      var m :| 0 <= m < |node.members| && node.members[m] == (k, child);
      LeavesFromKeeps(node, 0, m, keys);
      assert keys + [k] + rest == keys + ks;
    }
  }

  /** No two visited leaves share a key path. */
  predicate DistinctPaths(r: seq<(seq<string>, Json)>) {
    forall a, b :: 0 <= a < b < |r| ==> r[a].0 != r[b].0
  }

  lemma DistinctPathsAppend(r: seq<(seq<string>, Json)>, s: seq<(seq<string>, Json)>)
    requires DistinctPaths(r) && DistinctPaths(s)
    requires forall x, y :: x in r && y in s ==> x.0 != y.0
    ensures DistinctPaths(r + s)
  {
    forall a, b | 0 <= a < b < |r + s| ensures (r + s)[a].0 != (r + s)[b].0 {
      if a >= |r| {
        assert (r + s)[a] == s[a - |r|] && (r + s)[b] == s[b - |r|];
      } else if b >= |r| {
        assert (r + s)[a] in r && (r + s)[b] in s;
      }
    }
  }

  /** The leaves found from member `i` on lie below the key of some member `m >= i`. */
  lemma {:induction false} LeavesFromFirstKey(node: Json, i: nat, keys: seq<string>)
    requires node.Obj? && i <= |node.members|
    ensures forall e :: e in LeavesFrom(node, i, keys) ==>
              |keys| < |e.0| && exists m :: i <= m < |node.members| && node.members[m].0 == e.0[|keys|]
    decreases |node.members| - i
  {
    if i < |node.members| {
      assert node.members[i] in node.members;
      var k := node.members[i].0;
      var here := Leaves(node.members[i].1, keys + [k]);
      var rest := LeavesFrom(node, i + 1, keys);
      assert LeavesFrom(node, i, keys) == here + rest;
      LeavesFromFirstKey(node, i + 1, keys);
      forall e | e in here ensures |keys| < |e.0| && e.0[|keys|] == k {
        assert (keys + [k])[|keys|] == k;
      }
    }
  }

  /** In a well-formed tree the walker visits each key path at most once. */
  lemma {:induction false} LeavesDistinct(node: Json, keys: seq<string>)
    requires WellFormed(node)
    ensures DistinctPaths(Leaves(node, keys))
    decreases node, 1
  {
    if node.Obj? && !IsTokenLeaf(node) {
      LeavesFromDistinct(node, 0, keys);
    }
  }

  lemma {:induction false} LeavesFromDistinct(node: Json, i: nat, keys: seq<string>)
    requires node.Obj? && i <= |node.members| && DistinctKeys(node.members) && MembersWellFormed(node, i)
    ensures DistinctPaths(LeavesFrom(node, i, keys))
    decreases node, 0, |node.members| - i
  {
    if i < |node.members| {
      assert node.members[i] in node.members;
      var k, child := node.members[i].0, node.members[i].1;
      var here := Leaves(child, keys + [k]);
      var rest := LeavesFrom(node, i + 1, keys);
      assert LeavesFrom(node, i, keys) == here + rest;
      LeavesDistinct(child, keys + [k]);
      LeavesFromDistinct(node, i + 1, keys);
      LeavesFromFirstKey(node, i + 1, keys);
      forall x, y | x in here && y in rest ensures x.0 != y.0 {
        assert (keys + [k])[|keys|] == k;
        var m :| i + 1 <= m < |node.members| && node.members[m].0 == y.0[|keys|];
        assert x.0[|keys|] == k != node.members[m].0;
      }
      DistinctPathsAppend(here, rest);
    }
  }

  // ---------------------------------------------------------------------------
  // checkComponentSchema / walkPropState

  /** A subtree without leaves produces no SCHEMA report, whatever its keys are. */
  lemma {:induction false} LeaflessSilent(n: Json, cur: seq<string>, baseLen: nat, props: seq<string>, states: seq<string>)
    requires !ContainsLeaf(n)
    ensures WalkViolations(n, cur, baseLen, props, states) == []
    decreases n, 1
  {
    if n.Obj? {
      LeaflessFromSilent(n, 0, cur, baseLen, props, states);
    }
  }

  lemma {:induction false} LeaflessFromSilent(n: Json, i: nat, cur: seq<string>, baseLen: nat, props: seq<string>, states: seq<string>)
    requires n.Obj? && i <= |n.members| && !SomeMemberContainsLeaf(n, i)
    ensures WalkFrom(n, i, cur, baseLen, props, states) == []
    decreases n, 0, |n.members| - i
  {
    if i < |n.members| {
      assert n.members[i] in n.members;
      var next := cur + [n.members[i].0];
      LeaflessSilent(n.members[i].1, next, baseLen, props, states);
      LeaflessFromSilent(n, i + 1, cur, baseLen, props, states);
      assert KeyCheck(next, baseLen, n.members[i].1, props, states) == [];
    }
  }

  /** What a report of the walk below `cur` can be: a property key one level below
      the base that is not allowed, or a state key two levels below it that is not. */
  predicate IsWalkReport(v: Violation, cur: seq<string>, baseLen: nat, props: seq<string>, states: seq<string>) {
    || (v.PropertyNotAllowed? && |v.parts| == baseLen + 1 && cur <= v.parts
        && v.parts[baseLen] !in props && v.allowed == props)
    || (v.StateNotAllowed? && |v.parts| == baseLen + 2 && cur <= v.parts
        && v.parts[baseLen + 1] !in states && v.allowed == states)
  }

  /** Every report of the walk is a disallowed property or state key, at its level. */
  lemma {:induction false} WalkReportsSound(n: Json, cur: seq<string>, baseLen: nat, props: seq<string>, states: seq<string>)
    requires |cur| >= baseLen
    ensures forall v :: v in WalkViolations(n, cur, baseLen, props, states) ==> IsWalkReport(v, cur, baseLen, props, states)
    decreases n, 1
  {
    if n.Obj? {
      WalkFromReportsSound(n, 0, cur, baseLen, props, states);
    }
  }

  lemma {:induction false} WalkFromReportsSound(n: Json, i: nat, cur: seq<string>, baseLen: nat, props: seq<string>, states: seq<string>)
    requires n.Obj? && i <= |n.members| && |cur| >= baseLen
    ensures forall v :: v in WalkFrom(n, i, cur, baseLen, props, states) ==> IsWalkReport(v, cur, baseLen, props, states)
    decreases n, 0, |n.members| - i
  {
    if i < |n.members| {
      assert n.members[i] in n.members;
      var next := cur + [n.members[i].0];
      WalkReportsSound(n.members[i].1, next, baseLen, props, states);
      WalkFromReportsSound(n, i + 1, cur, baseLen, props, states);
      forall v | v in WalkViolations(n.members[i].1, next, baseLen, props, states)
        ensures IsWalkReport(v, cur, baseLen, props, states)
      {
        assert cur <= next;
      }
      KeyCheckReports(cur, n.members[i].0, baseLen, n.members[i].1, props, states);
    }
  }

  lemma KeyCheckReports(cur: seq<string>, k: string, baseLen: nat, n: Json, props: seq<string>, states: seq<string>)
    requires |cur| >= baseLen
    ensures forall v :: v in KeyCheck(cur + [k], baseLen, n, props, states) ==> IsWalkReport(v, cur, baseLen, props, states)
  {
    var next := cur + [k];
    assert cur <= next && next[|next| - 1] == k;
  }

  /** Reports found at member `i` of `n` are among the reports of the walk from `j <= i`. */
  lemma {:induction false} WalkFromKeeps(n: Json, j: nat, i: nat, cur: seq<string>, baseLen: nat, props: seq<string>, states: seq<string>)
    requires n.Obj? && j <= i < |n.members|
    ensures n.members[i] in n.members
    ensures forall v :: v in KeyCheck(cur + [n.members[i].0], baseLen, n.members[i].1, props, states)
                        + WalkViolations(n.members[i].1, cur + [n.members[i].0], baseLen, props, states)
                        ==> v in WalkFrom(n, j, cur, baseLen, props, states)
    decreases i - j
  {
    assert n.members[j] in n.members;
    var next := cur + [n.members[j].0];
    var here := KeyCheck(next, baseLen, n.members[j].1, props, states)
                + WalkViolations(n.members[j].1, next, baseLen, props, states);
    var rest := WalkFrom(n, j + 1, cur, baseLen, props, states);
    assert WalkFrom(n, j, cur, baseLen, props, states) == here + rest;
    if j < i {
      WalkFromKeeps(n, j + 1, i, cur, baseLen, props, states);
    }
  }

  /** A property key that is not allowed and has a leaf below it is reported. */
  lemma PropertyReported(n: Json, cur: seq<string>, baseLen: nat, props: seq<string>, states: seq<string>, i: nat)
    requires n.Obj? && |cur| == baseLen && i < |n.members|
    requires n.members[i].0 !in props && ContainsLeaf(n.members[i].1)
    ensures PropertyNotAllowed(cur + [n.members[i].0], props) in WalkViolations(n, cur, baseLen, props, states)
  {
    WalkFromKeeps(n, 0, i, cur, baseLen, props, states);
  }

  /** A state key that is not allowed and has a leaf below it is reported, whether
      or not the property key above it was allowed: the walk goes on below offending keys. */
  lemma StateReported(n: Json, cur: seq<string>, baseLen: nat, props: seq<string>, states: seq<string>, i: nat, j: nat)
    requires n.Obj? && |cur| == baseLen && i < |n.members|
    requires n.members[i].1.Obj? && j < |n.members[i].1.members|
    requires n.members[i].1.members[j].0 !in states && ContainsLeaf(n.members[i].1.members[j].1)
    ensures StateNotAllowed(cur + [n.members[i].0, n.members[i].1.members[j].0], states)
            in WalkViolations(n, cur, baseLen, props, states)
  {
    var c, next := n.members[i].1, cur + [n.members[i].0];
    WalkFromKeeps(c, 0, j, next, baseLen, props, states);
    WalkFromKeeps(n, 0, i, cur, baseLen, props, states);
    var leafward := next + [c.members[j].0];
    assert leafward == cur + [n.members[i].0, c.members[j].0];
    assert StateNotAllowed(leafward, states) in KeyCheck(leafward, baseLen, c.members[j].1, props, states);
    assert WalkViolations(c, next, baseLen, props, states) == WalkFrom(c, 0, next, baseLen, props, states);
  }

  /** For one (variant, subpart) combination, the reports are disallowed keys below the
      base path, judged against the subpart's allow-lists (else `default`, else empty). */
  lemma CombinationReportsSound(tokens: Json, name: string, spec: ComponentSpec,
                                variant: Option<string>, subpart: Option<string>)
    ensures var base := BaseParts(name, variant, subpart);
            forall v :: v in CombinationViolations(tokens, name, spec, variant, subpart) ==>
              IsWalkReport(v, base, |base|, AllowedFor(spec.propertyAllowlist, SubKey(subpart)),
                           AllowedFor(spec.stateMatrix, SubKey(subpart)))
  {
    var base := BaseParts(name, variant, subpart);
    var found := Descend(tokens, Split(Join(base, "."), '.'));
    if found.Some? {
      WalkReportsSound(found.value, base, |base|, AllowedFor(spec.propertyAllowlist, SubKey(subpart)),
                       AllowedFor(spec.stateMatrix, SubKey(subpart)));
    }
  }

  /** A report of the walk below `n`, reached along `cur`: its key path runs on below
      `cur`, and the subtree it names in `n` holds a leaf. */
  predicate ReportedBelow(v: Violation, n: Json, cur: seq<string>) {
    && (v.PropertyNotAllowed? || v.StateNotAllowed?)
    && |cur| < |v.parts| && cur <= v.parts
    && Descend(n, v.parts[|cur|..]).Some? && ContainsLeaf(Descend(n, v.parts[|cur|..]).value)
  }

  /** Every report of the walk names an existing subtree that holds a leaf. */
  lemma {:induction false} WalkReportsLeafward(n: Json, cur: seq<string>, baseLen: nat, props: seq<string>, states: seq<string>)
    requires WellFormed(n)
    ensures forall v :: v in WalkViolations(n, cur, baseLen, props, states) ==> ReportedBelow(v, n, cur)
    decreases n, 1
  {
    if n.Obj? {
      WalkFromReportsLeafward(n, 0, cur, baseLen, props, states);
    }
  }

  lemma {:induction false} WalkFromReportsLeafward(n: Json, i: nat, cur: seq<string>, baseLen: nat, props: seq<string>, states: seq<string>)
    requires n.Obj? && i <= |n.members| && DistinctKeys(n.members) && MembersWellFormed(n, i)
    ensures forall v :: v in WalkFrom(n, i, cur, baseLen, props, states) ==>
              ReportedBelow(v, n, cur) && exists m :: i <= m < |n.members| && n.members[m].0 == v.parts[|cur|]
    decreases n, 0, |n.members| - i
  {
    if i < |n.members| {
      assert n.members[i] in n.members;
      var k, c := n.members[i].0, n.members[i].1;
      var next := cur + [k];
      var check := KeyCheck(next, baseLen, c, props, states);
      var below := WalkViolations(c, next, baseLen, props, states);
      var rest := WalkFrom(n, i + 1, cur, baseLen, props, states);
      assert WalkFrom(n, i, cur, baseLen, props, states) == check + below + rest;
      LookupDistinct(n.members, i);
      WalkReportsLeafward(c, next, baseLen, props, states);
      WalkFromReportsLeafward(n, i + 1, cur, baseLen, props, states);
      assert next[|cur|] == k;
      forall v | v in check ensures ReportedBelow(v, n, cur) && v.parts[|cur|] == k {
        assert v.parts == next && next[|cur|..] == [k];
        assert [k][0] == k && [k][1..] == [];
      }
      forall v | v in below ensures ReportedBelow(v, n, cur) && v.parts[|cur|] == k {
        var p := v.parts[|next|..];
        assert v.parts[|cur|..] == [k] + p;
        assert ([k] + p)[0] == k && ([k] + p)[1..] == p;
      }
    }
  }

  /** No report appears twice. */
  predicate NoRepeats(vs: seq<Violation>) {
    forall a, b :: 0 <= a < b < |vs| ==> vs[a] != vs[b]
  }

  lemma NoRepeatsAppend(r: seq<Violation>, s: seq<Violation>)
    requires NoRepeats(r) && NoRepeats(s)
    requires forall x, y :: x in r && y in s ==> x != y
    ensures NoRepeats(r + s)
  {
    forall a, b | 0 <= a < b < |r + s| ensures (r + s)[a] != (r + s)[b] {
      if a >= |r| {
        assert (r + s)[a] == s[a - |r|] && (r + s)[b] == s[b - |r|];
      } else if b >= |r| {
        assert (r + s)[a] in r && (r + s)[b] in s;
      }
    }
  }

  /** In a well-formed tree each disallowed key is reported once. */
  lemma {:induction false} WalkReportsOnce(n: Json, cur: seq<string>, baseLen: nat, props: seq<string>, states: seq<string>)
    requires WellFormed(n)
    ensures NoRepeats(WalkViolations(n, cur, baseLen, props, states))
    decreases n, 1
  {
    if n.Obj? {
      WalkFromReportsOnce(n, 0, cur, baseLen, props, states);
    }
  }

  lemma {:induction false} WalkFromReportsOnce(n: Json, i: nat, cur: seq<string>, baseLen: nat, props: seq<string>, states: seq<string>)
    requires n.Obj? && i <= |n.members| && DistinctKeys(n.members) && MembersWellFormed(n, i)
    ensures NoRepeats(WalkFrom(n, i, cur, baseLen, props, states))
    decreases n, 0, |n.members| - i
  {
    if i < |n.members| {
      assert n.members[i] in n.members;
      var k, c := n.members[i].0, n.members[i].1;
      var next := cur + [k];
      var check := KeyCheck(next, baseLen, c, props, states);
      var below := WalkViolations(c, next, baseLen, props, states);
      var rest := WalkFrom(n, i + 1, cur, baseLen, props, states);
      assert WalkFrom(n, i, cur, baseLen, props, states) == check + below + rest;
      assert NoRepeats(check + below) by {
        MemberWellFormed(n, i, i);
        KeyReportsOnce(c, next, baseLen, props, states);
      }
      assert NoRepeats(rest) by {
        WalkFromReportsOnce(n, i + 1, cur, baseLen, props, states);
      }
      assert forall x, y :: x in check + below && y in rest ==> x != y by {
        MemberReportsApart(n, i, cur, baseLen, props, states, check + below, rest);
      }
      NoRepeatsAppend(check + below, rest);
    }
  }

  /** The report of a key itself differs from the reports below it, which are longer. */
  lemma KeyReportsOnce(c: Json, next: seq<string>, baseLen: nat, props: seq<string>, states: seq<string>)
    requires WellFormed(c) && |next| >= 1
    ensures NoRepeats(KeyCheck(next, baseLen, c, props, states) + WalkViolations(c, next, baseLen, props, states))
    decreases c, 2
  {
    var check := KeyCheck(next, baseLen, c, props, states);
    var below := WalkViolations(c, next, baseLen, props, states);
    WalkReportsOnce(c, next, baseLen, props, states);
    WalkReportsLeafward(c, next, baseLen, props, states);
    assert |check| <= 1;
    forall x, y | x in check && y in below ensures x != y {
      assert |x.parts| == |next| < |y.parts|;
    }
    NoRepeatsAppend(check, below);
  }

  /** The reports below member `i` (`here`) differ from those of the later members
      (`rest`): their key paths continue with different keys. */
  lemma MemberReportsApart(n: Json, i: nat, cur: seq<string>, baseLen: nat, props: seq<string>, states: seq<string>,
                           here: seq<Violation>, rest: seq<Violation>)
    requires n.Obj? && i < |n.members| && DistinctKeys(n.members) && MembersWellFormed(n, i)
    requires n.members[i] in n.members
    requires here == KeyCheck(cur + [n.members[i].0], baseLen, n.members[i].1, props, states)
                     + WalkViolations(n.members[i].1, cur + [n.members[i].0], baseLen, props, states)
    requires rest == WalkFrom(n, i + 1, cur, baseLen, props, states)
    ensures forall x, y :: x in here && y in rest ==> x != y
  {
    var k, c := n.members[i].0, n.members[i].1;
    var next := cur + [k];
    WalkReportsLeafward(c, next, baseLen, props, states);
    WalkFromReportsLeafward(n, i + 1, cur, baseLen, props, states);
    assert next[|cur|] == k;
    forall x, y | x in here && y in rest ensures x != y {
      assert x.parts[|cur|] == k;
      var m :| i + 1 <= m < |n.members| && n.members[m].0 == y.parts[|cur|];
    }
  }

  /** A property key is reported exactly when it is not allowed and has a leaf below it. */
  lemma PropertyReportedIff(n: Json, cur: seq<string>, baseLen: nat, props: seq<string>, states: seq<string>, i: nat)
    requires WellFormed(n) && n.Obj? && |cur| == baseLen && i < |n.members|
    ensures PropertyNotAllowed(cur + [n.members[i].0], props) in WalkViolations(n, cur, baseLen, props, states)
            <==> n.members[i].0 !in props && ContainsLeaf(n.members[i].1)
  {
    var k := n.members[i].0;
    var v := PropertyNotAllowed(cur + [k], props);
    if v in WalkViolations(n, cur, baseLen, props, states) {
      WalkReportsSound(n, cur, baseLen, props, states);
      WalkReportsLeafward(n, cur, baseLen, props, states);
      LookupDistinct(n.members, i);
      assert ReportedBelow(v, n, cur);
      assert v.parts[baseLen] == k && v.parts[|cur|..] == [k];
      assert [k][0] == k && [k][1..] == [];
      assert Descend(n, [k]) == Descend(n.members[i].1, []);
    } else if k !in props && ContainsLeaf(n.members[i].1) {
      PropertyReported(n, cur, baseLen, props, states, i);
    }
  }

  /** A state key is reported exactly when it is not allowed and has a leaf below it. */
  lemma StateReportedIff(n: Json, cur: seq<string>, baseLen: nat, props: seq<string>, states: seq<string>, i: nat, j: nat)
    requires WellFormed(n) && n.Obj? && |cur| == baseLen && i < |n.members|
    requires n.members[i].1.Obj? && j < |n.members[i].1.members|
    ensures StateNotAllowed(cur + [n.members[i].0, n.members[i].1.members[j].0], states)
              in WalkViolations(n, cur, baseLen, props, states)
            <==> n.members[i].1.members[j].0 !in states && ContainsLeaf(n.members[i].1.members[j].1)
  {
    var c := n.members[i].1;
    var ki, kj := n.members[i].0, c.members[j].0;
    var v := StateNotAllowed(cur + [ki, kj], states);
    if v in WalkViolations(n, cur, baseLen, props, states) {
      WalkReportsSound(n, cur, baseLen, props, states);
      WalkReportsLeafward(n, cur, baseLen, props, states);
      LookupDistinct(n.members, i);
      MemberWellFormed(n, 0, i);
      LookupDistinct(c.members, j);
      assert ReportedBelow(v, n, cur);
      var p := v.parts[|cur|..];
      assert v.parts[baseLen + 1] == kj && p == [ki, kj];
      assert p[0] == ki && p[1..] == [kj] && [kj][0] == kj && [kj][1..] == [];
      assert Descend(n, p) == Descend(c, [kj]) == Descend(c.members[j].1, []);
    } else if kj !in states && ContainsLeaf(c.members[j].1) {
      StateReported(n, cur, baseLen, props, states, i, j);
    }
  }

  /** For one (variant, subpart) combination in a well-formed tree, each report names a
      subtree of the base node that holds a leaf, and no report appears twice. */
  lemma CombinationReportsLeafward(tokens: Json, name: string, spec: ComponentSpec,
                                   variant: Option<string>, subpart: Option<string>)
    requires WellFormed(tokens)
    ensures var base := BaseParts(name, variant, subpart);
            var found := Descend(tokens, Split(Join(base, "."), '.'));
            && NoRepeats(CombinationViolations(tokens, name, spec, variant, subpart))
            && (found.Some? ==>
                  forall v :: v in CombinationViolations(tokens, name, spec, variant, subpart) ==>
                    ReportedBelow(v, found.value, base))
  {
    var base := BaseParts(name, variant, subpart);
    var found := Descend(tokens, Split(Join(base, "."), '.'));
    if found.Some? {
      DescendWellFormed(tokens, Split(Join(base, "."), '.'));
      var props, states := AllowedFor(spec.propertyAllowlist, SubKey(subpart)), AllowedFor(spec.stateMatrix, SubKey(subpart));
      WalkReportsLeafward(found.value, base, |base|, props, states);
      WalkReportsOnce(found.value, base, |base|, props, states);
    }
  }
}
