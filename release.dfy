/** The release script scripts/release.mjs: it picks the bump type from the arguments,
    blocks on a failed lint, bumps `package.json`'s version as Semantic Versioning 2.0.0
    prescribes, counts the token leaves for the changelog entry, and, unless it is a dry
    run, writes the new version, the dist snapshots and the changelog. */
module Release {
  import opened Text
  import opened Json
  import LintTokens

  // ---------------------------------------------------------------------------
  // Arguments

  datatype Bump = Patch | Minor | Major

  function BumpName(b: Bump): string {
    match b
    case Patch => "patch"
    case Minor => "minor"
    case Major => "major"
  }

  /** `["patch", "minor", "major"].includes(arg)`, as the bump it names. */
  function BumpOf(arg: string): (r: Option<Bump>)
    ensures r.Some? ==> BumpName(r.value) == arg
  {
    if arg == "patch" then Some(Patch)
    else if arg == "minor" then Some(Minor)
    else if arg == "major" then Some(Major)
    else None
  }

  /** Every bump type is recognised by its own name. */
  lemma BumpNameRoundTrip(b: Bump)
    ensures BumpOf(BumpName(b)) == Some(b)
  {
  }

  /** `args.find(...)`: the first argument that names a bump type. */
  function SelectBump(args: seq<string>): Option<Bump>
    decreases |args|
  {
    if args == [] then None
    else if BumpOf(args[0]).Some? then BumpOf(args[0])
    else SelectBump(args[1..])
  }

  /** The selected bump is named by some argument, and no earlier argument names one;
      no bump is selected only when no argument names one. */
  lemma {:induction false} SelectBumpIsFirst(args: seq<string>)
    ensures SelectBump(args).Some? ==>
      exists i :: 0 <= i < |args| && BumpOf(args[i]) == SelectBump(args)
                  && forall j :: 0 <= j < i ==> BumpOf(args[j]).None?
    ensures SelectBump(args).None? ==> forall i :: 0 <= i < |args| ==> BumpOf(args[i]).None?
    decreases |args|
  {
    if args != [] && BumpOf(args[0]).None? {
      SelectBumpIsFirst(args[1..]);
      if SelectBump(args).Some? {
        var i :| 0 <= i < |args[1..]| && BumpOf(args[1..][i]) == SelectBump(args[1..])
                 && forall j :: 0 <= j < i ==> BumpOf(args[1..][j]).None?;
        assert BumpOf(args[i + 1]) == SelectBump(args);
        assert forall j :: 1 <= j < i + 1 ==> BumpOf(args[j]).None? by {
          forall j | 1 <= j < i + 1 ensures BumpOf(args[j]).None? {
            assert args[j] == args[1..][j - 1];
          }
        }
      } else {
        forall i | 0 <= i < |args| ensures BumpOf(args[i]).None? {
          if i > 0 {
            assert args[i] == args[1..][i - 1];
          }
        }
      }
    }
  }

  /** `args.includes("--dry-run")`. */
  predicate IsDryRun(args: seq<string>) {
    "--dry-run" in args
  }

  // ---------------------------------------------------------------------------
  // Versions

  datatype Version = Version(major: nat, minor: nat, patch: nat)

  /** The bump arithmetic of the script. */
  function NextVersion(v: Version, b: Bump): (r: Version)
    ensures Precedes(v, r) && ResetBelow(r, b)
  {
    match b
    case Major => Version(v.major + 1, 0, 0)
    case Minor => Version(v.major, v.minor + 1, 0)
    case Patch => Version(v.major, v.minor, v.patch + 1)
  }

  /** Precedence of normal versions, by Semantic Versioning 2.0.0 item 11: the major,
      minor and patch numbers compared numerically, left to right. */
  predicate Precedes(a: Version, b: Version) {
    a.major < b.major
    || (a.major == b.major && a.minor < b.minor)
    || (a.major == b.major && a.minor == b.minor && a.patch < b.patch)
  }

  /** The numbers a bump of kind `b` resets to zero are zero. */
  predicate ResetBelow(w: Version, b: Bump) {
    match b
    case Major => w.minor == 0 && w.patch == 0
    case Minor => w.patch == 0
    case Patch => true
  }

  /** Items 6 to 8 of Semantic Versioning 2.0.0: the bumped number increases, the numbers
      below it reset to zero, and the result is the least version above `v` with those
      numbers reset, so no release is skipped. */
  lemma NextVersionIsLeastBump(v: Version, b: Bump, w: Version)
    ensures Precedes(v, NextVersion(v, b)) && ResetBelow(NextVersion(v, b), b)
    ensures b != Major ==> NextVersion(v, b).major == v.major
    ensures b == Patch ==> NextVersion(v, b).minor == v.minor
    ensures Precedes(v, w) && ResetBelow(w, b) ==> !Precedes(w, NextVersion(v, b))
  {
  }

  /** `String(n)` for the three numbers, joined by dots. */
  function VersionText(v: Version): string {
    Join([NatText(v.major), NatText(v.minor), NatText(v.patch)], ".")
  }

  predicate AllDigits(s: string) {
    forall k :: 0 <= k < |s| ==> IsDigit(s[k])
  }

  /** `version.split(".").map(Number)` destructured into its first three numbers. A text
      is read when it has at least three dot-separated parts and the first three are
      digit strings (an empty one reads as 0); parts after the third are ignored. Other
      text that `Number` reads (blanks, signs, hex, exponents) is not represented. */
  function ParseVersion(s: string): (r: Option<Version>)
    ensures r.Some? <==> |Split(s, '.')| >= 3 && forall k :: 0 <= k < 3 ==> AllDigits(Split(s, '.')[k])
  {
    var parts := Split(s, '.');
    if |parts| >= 3 && AllDigits(parts[0]) && AllDigits(parts[1]) && AllDigits(parts[2])
    then Some(Version(DecimalValue(parts[0]), DecimalValue(parts[1]), DecimalValue(parts[2])))
    else None
  }

  /** Reading back a written version gives the same version. */
  lemma VersionTextRoundTrip(v: Version)
    ensures ParseVersion(VersionText(v)) == Some(v)
  {
    var parts := [NatText(v.major), NatText(v.minor), NatText(v.patch)];
    forall k | 0 <= k < |parts| ensures '.' !in parts[k] {
      assert forall j :: 0 <= j < |parts[k]| ==> IsDigit(parts[k][j]);
    }
    SplitJoin(parts, '.');
    DecimalRoundTrip(v.major);
    DecimalRoundTrip(v.minor);
    DecimalRoundTrip(v.patch);
  }

  // ---------------------------------------------------------------------------
  // Release stats

  /** `countLeaves`: 0 for a non-object, 1 for an object with `type` and `value`
      (not descended into), otherwise the sum over the members. */
  function CountLeaves(node: Json): (r: nat)
    ensures r == 0 <==> !LintTokens.ContainsLeaf(node)
    decreases node, 1
  {
    if !node.Obj? then 0
    else if HasKey(node.members, "type") && HasKey(node.members, "value") then 1
    else CountFrom(node, 0)
  }

  function CountFrom(node: Json, i: nat): (r: nat)
    requires node.Obj? && i <= |node.members|
    ensures r == 0 <==> !LintTokens.SomeMemberContainsLeaf(node, i)
    decreases node, 0, |node.members| - i
  {
    if i == |node.members| then 0
    else
      assert node.members[i] in node.members;
      CountLeaves(node.members[i].1) + CountFrom(node, i + 1)
  }

  /** `countLeaves` counts exactly the leaves the linter's walker visits. */
  lemma {:induction false} CountLeavesIsLeaves(node: Json, keys: seq<string>)
    ensures CountLeaves(node) == |LintTokens.Leaves(node, keys)|
    decreases node, 1
  {
    if node.Obj? && !LintTokens.IsTokenLeaf(node) {
      CountFromIsLeavesFrom(node, 0, keys);
    }
  }

  lemma {:induction false} CountFromIsLeavesFrom(node: Json, i: nat, keys: seq<string>)
    requires node.Obj? && i <= |node.members|
    ensures CountFrom(node, i) == |LintTokens.LeavesFrom(node, i, keys)|
    decreases node, 0, |node.members| - i
  {
    if i < |node.members| {
      assert node.members[i] in node.members;
      CountLeavesIsLeaves(node.members[i].1, keys + [node.members[i].0]);
      CountFromIsLeavesFrom(node, i + 1, keys);
    }
  }

  /** `countLeaves(o)` for an optional chain; `undefined` counts 0. */
  function CountAt(o: Option<Json>): nat {
    if o.Some? then CountLeaves(o.value) else 0
  }

  /** The key of the primitive subtree in the token file. */
  const PrimitiveKey: string := "\U{1F512}primitive font&color"

  datatype Stats = Stats(total: nat, semantic: nat, component: nat, primitive: nat)

  /** The stats the script computes from the token tree. */
  function ReleaseStats(tokens: Json): Stats {
    var color := Member(Some(tokens), "color");
    Stats(CountLeaves(tokens), CountAt(Member(color, "semantic")), CountAt(Member(color, "component")),
          CountAt(Member(Some(tokens), PrimitiveKey)))
  }

  /** The members from `i` on hold at least the leaves of members `j` and `k`. */
  lemma {:induction false} CountFromCovers(node: Json, i: nat, j: nat, k: nat)
    requires node.Obj? && i <= j < |node.members| && i <= k < |node.members| && j != k
    ensures node.members[j] in node.members && node.members[k] in node.members
    ensures CountLeaves(node.members[j].1) + CountLeaves(node.members[k].1) <= CountFrom(node, i)
    decreases |node.members| - i
  {
    assert node.members[i] in node.members;
    if i < j && i < k {
      CountFromCovers(node, i + 1, j, k);
    } else {
      var other := if i == j then k else j;
      CountFromCovers1(node, i + 1, other);
    }
  }

  lemma {:induction false} CountFromCovers1(node: Json, i: nat, j: nat)
    requires node.Obj? && i <= j < |node.members|
    ensures node.members[j] in node.members
    ensures CountLeaves(node.members[j].1) <= CountFrom(node, i)
    decreases |node.members| - i
  {
    assert node.members[i] in node.members;
    if i < j {
      CountFromCovers1(node, i + 1, j);
    }
  }

  /** Two differently named members of a non-leaf object hold at most its leaves. */
  lemma TwoKeysWithin(node: Json, a: string, b: string)
    requires a != b && !(node.Obj? && HasKey(node.members, "type") && HasKey(node.members, "value"))
    ensures CountAt(Member(Some(node), a)) + CountAt(Member(Some(node), b)) <= CountLeaves(node)
  {
    if node.Obj? {
      var ma, mb := Lookup(node.members, a), Lookup(node.members, b);
      if ma.Some? && mb.Some? {
        var j :| 0 <= j < |node.members| && node.members[j] == (a, ma.value);
        var k :| 0 <= k < |node.members| && node.members[k] == (b, mb.value);
        CountFromCovers(node, 0, j, k);
      } else if ma.Some? {
        var j :| 0 <= j < |node.members| && node.members[j] == (a, ma.value);
        CountFromCovers1(node, 0, j);
      } else if mb.Some? {
        var k :| 0 <= k < |node.members| && node.members[k] == (b, mb.value);
        CountFromCovers1(node, 0, k);
      }
    }
  }

  predicate IsLeafObject(o: Option<Json>) {
    o.Some? && o.value.Obj? && HasKey(o.value.members, "type") && HasKey(o.value.members, "value")
  }

  /** The three layer counts never exceed the total, as long as neither the tree nor its
      `color` group is itself a leaf. */
  lemma StatsWithinTotal(tokens: Json)
    requires !IsLeafObject(Some(tokens)) && !IsLeafObject(Member(Some(tokens), "color"))
    ensures var s := ReleaseStats(tokens); s.semantic + s.component + s.primitive <= s.total
  {
    var color := Member(Some(tokens), "color");
    TwoKeysWithin(tokens, "color", PrimitiveKey);
    if color.Some? {
      TwoKeysWithin(color.value, "semantic", "component");
    }
  }

  // ---------------------------------------------------------------------------
  // Changelog

  /** The changelog entry for a release of `next` on `date`. */
  function ChangelogEntry(next: Version, date: string, s: Stats, b: Bump): (r: string)
    ensures "## v" + VersionText(next) + " — " + date + "\n\n" <= r
    ensures |r| >= 2 && r[|r| - 2..] == "\n\n"
  {
    var heading := "## v" + VersionText(next) + " — " + date + "\n\n";
    var lines := "- Token stats: " + NatText(s.total)
      + " total (semantic=" + NatText(s.semantic) + ", component=" + NatText(s.component)
      + ", primitive=" + NatText(s.primitive) + ")\n- Released via `node scripts/release.mjs "
      + BumpName(b) + "`";
    assert (heading + lines + "\n\n")[..|heading|] == heading;
    heading + lines + "\n\n"
  }

  const ChangelogTitle: string := "# Changelog"
  const ChangelogHeader: string := "# Changelog\n\n"

  /** `pat` occurs in `s` at index `j`. */
  predicate OccursAt(s: string, pat: string, j: nat) {
    j + |pat| <= |s| && s[j..j + |pat|] == pat
  }

  /** The index of the first occurrence of `pat` in `s` at or after `i`. */
  function FindFrom(s: string, pat: string, i: nat): (r: Option<nat>)
    requires i <= |s|
    ensures r.Some? ==> i <= r.value && OccursAt(s, pat, r.value)
    ensures r.Some? ==> forall j :: i <= j < r.value ==> !OccursAt(s, pat, j)
    ensures r.None? ==> forall j :: i <= j ==> !OccursAt(s, pat, j)
    decreases |s| - i
  {
    if i + |pat| > |s| then None
    else if s[i..i + |pat|] == pat then Some(i)
    else FindFrom(s, pat, i + 1)
  }

  /** `s.replace(pat, rep)` with a string pattern: only the first occurrence is replaced. */
  function ReplaceFirst(s: string, pat: string, rep: string): string {
    match FindFrom(s, pat, 0)
    case None => s
    case Some(i) => s[..i] + rep + s[i + |pat|..]
  }

  /** The rewrite of the existing changelog text: add the header when the text does not
      start with the title, then insert the entry after the first header. */
  function PrependChangelog(existing: string, entry: string): (r: string)
    ensures ChangelogTitle <= r
  {
    var header := if ChangelogTitle <= existing then existing else ChangelogHeader + existing;
    ReplaceFirst(header, ChangelogHeader, ChangelogHeader + entry)
  }

  /** A text that starts with the header gets the entry right after it; the rest of the
      text is unchanged. */
  lemma PrependAfterHeader(existing: string, entry: string)
    requires ChangelogHeader <= existing
    ensures PrependChangelog(existing, entry) == ChangelogHeader + entry + existing[|ChangelogHeader|..]
  {
    assert ChangelogTitle <= existing by {
      assert ChangelogTitle == ChangelogHeader[..|ChangelogTitle|];
    }
    assert existing[0..|ChangelogHeader|] == ChangelogHeader;
    assert existing[..0] == [];
  }

  /** A text that does not start with the title gets the header, the entry, and then the
      whole text. */
  lemma PrependFresh(existing: string, entry: string)
    requires !(ChangelogTitle <= existing)
    ensures PrependChangelog(existing, entry) == ChangelogHeader + entry + existing
  {
    var header := ChangelogHeader + existing;
    assert header[0..|ChangelogHeader|] == ChangelogHeader;
    assert header[|ChangelogHeader|..] == existing;
  }

  /** A text that starts with the title but holds no blank line after any title loses the
      entry: the replacement finds nothing to replace. */
  lemma EntryDroppedWithoutHeader(existing: string, entry: string)
    requires ChangelogTitle <= existing
    requires forall j :: !OccursAt(existing, ChangelogHeader, j)
    ensures PrependChangelog(existing, entry) == existing
  {
  }

  // ---------------------------------------------------------------------------
  // The release run

  /** How a run ends. */
  datatype Status = UsageError | LintBlocked | Released(next: Version, dryRun: bool)

  /** The dist files a release writes: the versioned token snapshot, the latest alias and
      the versioned schema snapshot. */
  function DistFiles(next: Version): set<string> {
    {"kiln-tokens-" + VersionText(next) + ".json", "kiln-tokens-latest.json",
     "kiln-schema-" + VersionText(next) + ".json"}
  }

  /** The files the release script writes: `package.json`'s version, the dist folder and
      the changelog (absent when `changelog` is `None`). */
  class Workspace {
    var version: string
    var dist: set<string>
    var changelog: Option<string>

    constructor (version: string, dist: set<string>, changelog: Option<string>)
      ensures this.version == version && this.dist == dist && this.changelog == changelog
    {
      this.version := version;
      this.dist := dist;
      this.changelog := changelog;
    }

    /** One run of the script: the usage check, the lint gate, the bump, the stats, and
        the writes, which happen only after the lint passed and only outside a dry run. */
    method Run(args: seq<string>, lintPassed: bool, tokens: Json, today: string) returns (status: Status)
      requires ParseVersion(version).Some?
      modifies this
      ensures SelectBump(args).None? ==> status == UsageError
      ensures SelectBump(args).Some? && !lintPassed ==> status == LintBlocked
      ensures SelectBump(args).Some? && lintPassed ==>
                status == Released(NextVersion(ParseVersion(old(version)).value, SelectBump(args).value), IsDryRun(args))
      ensures !(status.Released? && !status.dryRun) ==> unchanged(this)
      ensures status.Released? && !status.dryRun ==>
                && version == VersionText(status.next)
                && dist == old(dist) + DistFiles(status.next)
                && changelog == Some(PrependChangelog(
                     if old(changelog).Some? then old(changelog).value else ChangelogHeader,
                     ChangelogEntry(status.next, today, ReleaseStats(tokens), SelectBump(args).value)))
    {
      var bump := SelectBump(args);
      if bump.None? {
        return UsageError;
      }
      if !lintPassed {
        return LintBlocked;
      }
      var next := NextVersion(ParseVersion(version).value, bump.value);
      var entry := ChangelogEntry(next, today, ReleaseStats(tokens), bump.value);
      var dryRun := IsDryRun(args);
      if !dryRun {
        version := VersionText(next);
        dist := dist + DistFiles(next);
        var existing := if changelog.Some? then changelog.value else ChangelogHeader;
        changelog := Some(PrependChangelog(existing, entry));
      }
      return Released(next, dryRun);
    }
  }
}
