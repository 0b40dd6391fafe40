# Kiln design-token tooling, modelled in Dafny

This project models the scripts that guard the Kiln design tokens:

- **The token linter** (`scripts/lint-tokens.mjs`). It walks the token tree and validates every leaf with `validateMetaPolicy`. Each problem is recorded as an error tagged `[META]`, `[TYPO]`, `[RAW]`, `[REF]` or `[POLICY]`. Alias chains are followed by `resolveRef` for at most 20 hops. The schema cross-checker then checks the property and state keys below `color.component.<name>[.<variant>][.<subpart>]` against the schema's allow-lists and reports `[SCHEMA]` errors.
- **The render-time resolver** (`src/lib/token.ts`). `getTokenValue` and `resolveToken` resolve with a depth bound of 10 and signal failure by throwing.
- **The release script** (`scripts/release.mjs`). It selects the bump type, applies the lint gate, bumps the version, counts leaves for the release stats, and prepends the changelog entry.
- **The self-verification report** (`scripts/ai-verify.mjs`). It extracts the error lines from the linter's output, maps each kind tag to its fix guide, and sets the READY / NOT READY status.

Files:

- `text.dfy`: the JavaScript string operations the scripts use: `trim` (with ECMAScript white space), `startsWith`, `includes`, `split`, `join`, `String(n)` and `Number(s)` for naturals. It also has the regular expression `^\{.+\}$` as a character predicate.
- `json.dfy`: parsed JSON as a datatype. Object members are kept in document order (integer-like keys aside, see below), and lookup takes the first member with the key. It also has truthiness, optional chaining and template-literal text.
- `lint_tokens.dfy`:
  - the linter's predicates, the path walk, and the resolver (a `method` with its loop, proved against the function `ResolveFrom`);
  - the violations and their exact messages;
  - specification functions for the per-leaf checks, the leaf walk and the schema walk;
  - the class `Linter`, whose `ok`/`errors` fields are updated by `Fail` and whose methods are proved to record exactly the specified violations.
- `lint_properties.dfy`: lemmas about the linter: value forms, resolver outcomes, the missing-meta early return, policy error counts, the walker, and soundness and completeness of the schema check.
- `token_lib.dfy`: `getTokenValue` and `resolveToken` as methods with their loops, proved against the functions `TokenValue` and `ResolvedToken`, with lemmas about their results and errors.
- `resolver_comparison.dfy`: where the two resolvers disagree.
- `release.dfy`:
  - bump selection, the version arithmetic with its Semantic Versioning 2.0.0 properties, and version text parsing;
  - `countLeaves` and the release stats;
  - the changelog rewrite;
  - a class `Workspace` whose `Run` performs the script's steps on `package.json`'s version, the dist folder and the changelog.
- `ai_verify.dfy`: error-line extraction, the `FIX_GUIDE` table and `getFixGuide`, and the report.

Behaviours of the linter worth knowing, as the code has them:

- An unknown `exceptionCategory` on a component leaf that aliases a primitive gives two `[POLICY]` errors (scripts/lint-tokens.mjs:121-128): the missing-category error and the unknown-category error. `LintProperties.PolicyErrorCount` states this.
- A semantic or component leaf without `meta` gets only the `[META]` error; no other check runs (scripts/lint-tokens.mjs:90-93). `LintProperties.MissingMetaAlone` states this.
- The linter trims before matching `{…}`, and accepts braced text with at least one character inside, none of them a line terminator (scripts/lint-tokens.mjs:30-32). token.ts does not trim (src/lib/token.ts:30). `ResolverComparison.PaddedAliasOnlyForLinter` states the difference.
- The raw-colour test covers the 3-, 6- and 8-digit hex forms of CSS Color Module Level 4, section 5.2, but not the 4-digit form (scripts/lint-tokens.mjs:25). `LintProperties.FourDigitHexNotRaw` states this.

The changelog rewrite is modelled as written. The script prepends `# Changelog\n\n` only when the text does not start with `# Changelog`. It then replaces the first `# Changelog\n\n`. So a changelog that starts with `# Changelog` but never contains `# Changelog\n\n` (for example `# Changelog\n- old`) is written back without the new entry. `Release.EntryDroppedWithoutHeader` states this.

## Model

| member | source | states |
|---|---|---|
| Json.Lookup | scripts/lint-tokens.mjs:42-43 | The value found for a key is one of the object's members under that key; no value is found only when no member has the key. |
| Json.DescendSnoc | scripts/lint-tokens.mjs:41-45 | Walking one more key succeeds exactly when the node reached is an object holding that key, and yields that key's value. |
| Text.TrimRemovesWhitespace | scripts/lint-tokens.mjs:23 | `trim` removes only white space, and only at the two ends. |
| Text.SplitJoin | scripts/lint-tokens.mjs:137-141 | Splitting a dot-joined key path on `.` gives the keys back when no key holds a dot. |
| Text.DecimalRoundTrip | scripts/release.mjs:46 | `Number` applied to the decimal text of a natural gives the natural back. |
| LintTokens.LayerFromPath | scripts/lint-tokens.mjs:69-75 | The layer is semantic iff the path starts with `color.semantic.`; otherwise component iff it starts with `color.component.`; otherwise primitive iff it is a primitive path; otherwise unknown. |
| LintTokens.IsPrimitivePath | scripts/lint-tokens.mjs:77-83 | A reference path is primitive iff it contains `.primitive.` or starts with the locked `primitive` marker. |
| LintTokens.GetByPath | scripts/lint-tokens.mjs:38-46 | The loop over the dotted path returns the node reached by walking its keys, or nothing when a step meets a non-object or a missing key. |
| LintTokens.GetTokenValueByPath | scripts/lint-tokens.mjs:48-55 | The value at a path is a leaf's `value` (with the leaf) or a bare string (itself), and nothing otherwise. |
| LintTokens.ResolveRef | scripts/lint-tokens.mjs:57-67 | The loop returns the resolution `ResolveFrom` specifies: the first non-alias value within `maxDepth` lookups, `missing token at <hop>`, or `reference loop/depth exceeded at <start>`. |
| LintTokens.ResolveAfterHops | scripts/lint-tokens.mjs:59-65 | Following `k` alias hops first and then resolving with `k` fewer lookups gives the same resolution. |
| LintTokens.Messages | scripts/lint-tokens.mjs:87-135 | Each recorded line is its violation's tag followed by its detail, one line per violation, in order. |
| LintTokens.Leaves | scripts/lint-tokens.mjs:137-147 | Everything the walker visits is a token leaf, and its key path extends the path it was reached from (with `LintProperties.LeavesReachable`, `LeavesComplete` and `LeavesDistinct`: exactly the leaves not below another leaf, each once). |
| LintTokens.TreeReportsOfLeaves | scripts/lint-tokens.mjs:137-147 | Checking leaves during the recursive walk reports the same as checking the list of visited leaves in order; by `LintProperties.LeavesComplete` and `LeavesDistinct` that list holds each leaf once, under its own key path. |
| LintTokens.IsRawColorValue | scripts/lint-tokens.mjs:21-28 | `isRawColorValue`; its characterisation is `LintProperties.RawColorForms`. |
| LintTokens.ContainsLeaf | scripts/lint-tokens.mjs:219-226 | `containsLeaf`; its characterisation is `LintProperties.ContainsLeafIffLeaves`. |
| LintTokens.Linter.constructor | scripts/lint-tokens.mjs:9-10 | A fresh linter is `ok`, with no errors. |
| LintTokens.Linter.Fail | scripts/lint-tokens.mjs:12-15 | `fail` clears `ok` and appends exactly one message; `ok` is false iff some error is recorded. |
| LintTokens.Linter.CheckLayer | scripts/lint-tokens.mjs:95-97 | A declared `meta.layer` that is truthy and differs from a known path layer is reported once, and nothing else. |
| LintTokens.Linter.CheckTypo | scripts/lint-tokens.mjs:100-102 | A string value containing `.aplha.` is reported once, and nothing else. |
| LintTokens.Linter.CheckRaw | scripts/lint-tokens.mjs:105-107 | A raw colour value in a semantic or component leaf is reported once, and nothing else. |
| LintTokens.Linter.CheckRef | scripts/lint-tokens.mjs:110-114 | An alias whose target does not resolve within 20 lookups is reported once, with the resolver's reason. |
| LintTokens.Linter.CheckPolicy | scripts/lint-tokens.mjs:117-130 | The policy errors `PolicyCheck` specifies are recorded, in source order. |
| LintTokens.Linter.ValidateMetaPolicy | scripts/lint-tokens.mjs:87-135 | Validating a leaf records exactly `LeafViolations`: the META error alone when `meta` is missing, otherwise the layer, typo, raw, ref and policy checks in that order. |
| LintTokens.Linter.CollectLeaves | scripts/lint-tokens.mjs:137-147 | The recursive walk records exactly the leaf checks of the tree walk, in visiting order. |
| LintTokens.Linter.CheckKey | scripts/lint-tokens.mjs:189-206 | A key one level below the base that is not an allowed property, or two levels below that is not an allowed state, is reported when its subtree contains a leaf. |
| LintTokens.Linter.WalkPropState | scripts/lint-tokens.mjs:185-211 | The walk records exactly `WalkViolations` and goes on below every key, offending or not. |
| LintTokens.Linter.CheckCombination | scripts/lint-tokens.mjs:168-213 | One (variant, subpart) combination records the walk below its base with the allow-lists for its subpart key, falling back to `default` and then to empty; nothing is recorded when the base path is absent. |
| LintTokens.Linter.CheckVariant | scripts/lint-tokens.mjs:167-214 | The inner loop records the combinations of one variant with every subpart value, in order. |
| LintTokens.Linter.CheckComponent | scripts/lint-tokens.mjs:157-215 | A component records nothing when its subtree or its `tokenMap.pathPattern` is missing; otherwise it records every variant-subpart combination, with `[null]` for a missing axis. |
| LintTokens.Linter.CheckComponentSchema | scripts/lint-tokens.mjs:150-217 | The schema check records nothing without `color.component`; otherwise it records every declared component's reports in order. |
| LintTokens.Lint | scripts/lint-tokens.mjs:228-232 | A run returns the messages of every leaf's violations followed by the schema's, and `ok` iff there are none. |
| LintProperties.RawColorForms | scripts/lint-tokens.mjs:21-28 | A value is a raw colour iff it is a string whose trimmed text is `#` with 3, 6 or 8 hex digits, or starts with `rgb(` or `rgba(`. |
| LintProperties.FourDigitHexNotRaw | scripts/lint-tokens.mjs:25 | A 4-digit hex colour is not a raw colour. |
| LintProperties.StripBracesOfAlias | scripts/lint-tokens.mjs:30-36 | An alias's trimmed text is `{`, the stripped path, then `}`, and the stripped path is non-empty. |
| LintProperties.AliasRoundTrip | scripts/lint-tokens.mjs:30-36 | Wrapping a non-empty single-line path in braces gives an alias that strips back to the path. |
| LintProperties.ResolvedWithinFuel | scripts/lint-tokens.mjs:57-67 | A successful resolution is the first non-alias hit, reached after fewer than `maxDepth` hops along the alias chain. |
| LintProperties.MissingHopFails | scripts/lint-tokens.mjs:61 | A chain reaching a missing path within the bound fails with `missing token at <that path>`. |
| LintProperties.ChainTooLongFails | scripts/lint-tokens.mjs:59-66 | A chain of `maxDepth` alias hops fails with `reference loop/depth exceeded at <start>`. |
| LintProperties.CycleNeverResolves | scripts/lint-tokens.mjs:57-67 | An alias cycle of any length fails with the depth error naming the start path, whatever the bound. |
| LintProperties.TwoCycleNeverResolves | scripts/lint-tokens.mjs:57-67 | `a → {b} → {a}` fails with the depth error naming the start path. |
| LintProperties.ResolvedIsConcrete | scripts/lint-tokens.mjs:60-63 | A resolved value is not an alias, and it is the token value at the reported leaf path. |
| LintProperties.MissingMetaAlone | scripts/lint-tokens.mjs:90-93 | A semantic or component leaf without truthy `meta` yields exactly one META error. |
| LintProperties.NoMissingMetaOtherwise | scripts/lint-tokens.mjs:90-130 | Any other leaf never yields the missing-meta error. |
| LintProperties.CheckKinds | scripts/lint-tokens.mjs:95-130 | Each check reports only its own kind of violation. |
| LintProperties.PolicyErrorCount | scripts/lint-tokens.mjs:85-130 | A component alias to a primitive gives 0 policy errors with an allowed category, 1 without a category, and 2 with an unknown one. |
| LintProperties.PolicyOnlyForComponents | scripts/lint-tokens.mjs:117 | No other layer gets policy errors. |
| LintProperties.LeavesReachable | scripts/lint-tokens.mjs:137-147 | With distinct keys, every visited leaf is the node its key path leads to. |
| LintProperties.LeavesComplete | scripts/lint-tokens.mjs:137-147 | Every token leaf with no leaf above it is visited, under its own key path. |
| LintProperties.LeavesDistinct | scripts/lint-tokens.mjs:137-147 | With distinct keys, no key path is visited twice. |
| LintProperties.DescendWellFormed | scripts/lint-tokens.mjs:38-46 | A subtree of a tree with distinct keys has distinct keys. |
| LintProperties.ContainsLeafIffLeaves | scripts/lint-tokens.mjs:219-226 | `containsLeaf` holds iff the walker visits at least one leaf below the node. |
| LintProperties.LeaflessSilent | scripts/lint-tokens.mjs:185-211 | A subtree without leaves gives no schema errors. |
| LintProperties.WalkReportsSound | scripts/lint-tokens.mjs:185-211 | Every schema error of the walk is a disallowed property key one level below the base, or a disallowed state key two levels below, with its allow-list. |
| LintProperties.PropertyReported | scripts/lint-tokens.mjs:191-198 | A disallowed property key with a leaf below it is reported. |
| LintProperties.StateReported | scripts/lint-tokens.mjs:199-206 | A disallowed state key with a leaf below it is reported, whether or not its property is allowed. |
| LintProperties.CombinationReportsSound | scripts/lint-tokens.mjs:168-213 | The errors of a combination are property or state errors at its base, checked against its subpart's allow-lists. |
| LintProperties.WalkReportsLeafward | scripts/lint-tokens.mjs:185-211 | With distinct keys, every schema error names a key path below the walk's start whose subtree exists and contains a leaf. |
| LintProperties.WalkReportsOnce | scripts/lint-tokens.mjs:185-211 | With distinct keys, no schema error is reported twice. |
| LintProperties.PropertyReportedIff | scripts/lint-tokens.mjs:191-198 | A property key is reported iff it is not allowed and its subtree contains a leaf. |
| LintProperties.StateReportedIff | scripts/lint-tokens.mjs:199-206 | A state key is reported iff it is not allowed and its subtree contains a leaf. |
| LintProperties.CombinationReportsLeafward | scripts/lint-tokens.mjs:168-213 | With distinct keys, each error of a combination names a subtree of its base that contains a leaf, and no error is repeated. |
| TokenLib.GetTokenValue | src/lib/token.ts:6-20 | The loop returns or throws what `TokenValue` specifies: `value` of any object holding it, a bare string, or the not-found or no-value error. |
| TokenLib.ResolveToken | src/lib/token.ts:27-37 | The loop returns or throws what `ResolvedToken` specifies. |
| TokenLib.TokenValue | src/lib/token.ts:6-20 | `getTokenValue`'s result; its errors are stated by `TokenLib.ErrorNamesItsPath`, its walk by `WalkAgreesWithDescend`. |
| TokenLib.WalkAgreesWithDescend | src/lib/token.ts:7-14 | The token.ts walk reaches a node iff the linter's walk does, and it reaches the same node. |
| TokenLib.FirstMissingSegment | src/lib/token.ts:10-11 | The not-found error names the first segment at which the walk fails. |
| TokenLib.ErrorNamesItsPath | src/lib/token.ts:6-20 | `getTokenValue` throws only not-found or no-value, and names the path it was given. |
| TokenLib.ConcreteStartUnchanged | src/lib/token.ts:28-31 | A value that is not a reference is returned unchanged. |
| TokenLib.ChaseResult | src/lib/token.ts:29-35 | A result is not a reference, and it is reached after fewer than `maxDepth` hops. |
| TokenLib.MaxDepthHopsThrow | src/lib/token.ts:29-36 | A chain of exactly `maxDepth` reference hops throws `Token reference depth exceeded: <path>`. |
| TokenLib.CycleThrows | src/lib/token.ts:29-36 | A reference cycle throws the depth error for the original path. |
| TokenLib.DanglingRefSurfaces | src/lib/token.ts:33-34 | A dangling reference inside the bound throws `getTokenValue`'s error for the referenced path, not for the original one. |
| ResolverComparison.RefIsAlias | src/lib/token.ts:30-33 | Every token.ts reference is a linter alias with the same target path. |
| ResolverComparison.PaddedAliasOnlyForLinter | scripts/lint-tokens.mjs:30-32 | Any braced reference with a space in front is an alias for the linter, which trims, naming the text between the braces; it is no reference for token.ts, which does not trim. |
| ResolverComparison.ValueOnlyLeaf | src/lib/token.ts:16 | At any path that reaches an object with `value` but no `type`, token.ts returns that `value` and the linter finds nothing. |
| Release.BumpOf | scripts/release.mjs:19 | An argument is recognised as a bump only when it is that bump's name. |
| Release.BumpNameRoundTrip | scripts/release.mjs:19 | Every bump's name is recognised as that bump. |
| Release.SelectBumpIsFirst | scripts/release.mjs:19-24 | The selected bump is named by the first argument that names one; there is none only when no argument names one. |
| Release.NextVersion | scripts/release.mjs:48-51 | The next version follows the old one and has the numbers below the bumped one reset; `Release.NextVersionIsLeastBump` adds that it is the least such version. |
| Release.NextVersionIsLeastBump | scripts/release.mjs:46-51 | The next version follows the old one, has the lower numbers reset, and is the least such version (Semantic Versioning 2.0.0, items 6 to 8 and 11). |
| Release.ParseVersion | scripts/release.mjs:46 | A version is read iff the text has at least three dot-separated parts and the first three are digit strings; `Release.VersionTextRoundTrip` states it reads back what is written. |
| Release.VersionTextRoundTrip | scripts/release.mjs:46 | Splitting the written version on `.` and reading the numbers gives the version back. |
| Release.CountLeaves | scripts/release.mjs:58-62 | The count is zero iff the tree contains no leaf (`containsLeaf`); `Release.CountLeavesIsLeaves` gives the exact count. |
| Release.CountLeavesIsLeaves | scripts/release.mjs:58-62 | `countLeaves` equals the number of leaves the linter's walker visits. |
| Release.StatsWithinTotal | scripts/release.mjs:64-69 | When neither the tree nor its `color` group is itself a leaf object, the semantic, component and primitive counts together never exceed the total. |
| Release.ChangelogEntry | scripts/release.mjs:78 | The entry starts with the `## v<version> — <date>` heading and a blank line, and ends with a blank line. |
| Release.FindFrom | scripts/release.mjs:112 | The index found is the first occurrence of the pattern; nothing is found only when it does not occur. |
| Release.PrependChangelog | scripts/release.mjs:108-112 | The rewritten changelog always starts with `# Changelog`; the three lemmas below give the text in each case. |
| Release.PrependAfterHeader | scripts/release.mjs:110-112 | A changelog starting with `# Changelog\n\n` gets the entry right after it, and the rest of the text is unchanged. |
| Release.PrependFresh | scripts/release.mjs:108-112 | A text not starting with `# Changelog` gets the header, then the entry, then the whole old text. |
| Release.EntryDroppedWithoutHeader | scripts/release.mjs:111-112 | A text starting with `# Changelog` but never holding `# Changelog\n\n` is written back unchanged. |
| Release.Workspace.Run | scripts/release.mjs:17-133 | No bump gives a usage error; a failed lint blocks; otherwise the version is bumped; files change only after a passing lint and outside a dry run, and then hold the new version, the three dist files and the changelog with the new entry. |
| AiVerify.ErrorsOf | scripts/ai-verify.mjs:39-42 | The filter-and-map over the output lines; `AiVerify.ErrorsOfSound` and `ErrorsOfAppend` state its contract. |
| AiVerify.ErrorsOfSound | scripts/ai-verify.mjs:39-42 | Every extracted error starts with `[` and comes from an output line whose trimmed text is `- ` followed by the error. |
| AiVerify.ErrorsOfAppend | scripts/ai-verify.mjs:39-42 | Extraction works line by line and keeps the output's order. |
| AiVerify.ExtractLintErrors | scripts/ai-verify.mjs:39-42 | Extracting from a failing linter's output gives its errors back, in order, when each error is printable: it starts with `[`, holds no newline and does not end in white space. |
| AiVerify.GetFixGuide | scripts/ai-verify.mjs:59-64 | The loop returns the guide of the first matching `FIX_GUIDE` tag, or the fallback. |
| AiVerify.GuideFor | scripts/ai-verify.mjs:59-64 | The table search of `getFixGuide`; `AiVerify.GuideIsFirstMatch` states its contract. |
| AiVerify.GuideIsFirstMatch | scripts/ai-verify.mjs:59-64 | The guide is that of the first tag, in table order, that starts the line; the fallback is given exactly when no tag does. |
| AiVerify.MessageTag | scripts/ai-verify.mjs:45-57 | Every linter message starts with one of the six emitted tags, never with `[MATRIX]`. |
| AiVerify.MessageGuide | scripts/ai-verify.mjs:45-64 | Every linter message gets the guide listed under its own tag. |
| AiVerify.GuideAll | scripts/ai-verify.mjs:87-92 | The report loop pairs every error with its guide, in order. |
| AiVerify.Verify | scripts/ai-verify.mjs:24-115 | The lint verdict is the run's; guides are listed only after a failed lint, for every extracted error; the status is READY iff the lint passed. |
| AiVerify.ReportOfFailedLint | scripts/ai-verify.mjs:24-64 | When the linter fails and every message is printable (as in `ExtractLintErrors`), the report lists its messages in order, each with the guide of its own tag. |

## Left out

- Reading the token and schema files, `process.argv` defaults, console output and `process.exit` are not modelled. `LintTokens.Lint` takes the two documents and returns `ok` and the errors. The failure output the linter writes is modelled as `AiVerify.LintFailureOutput`.
- Running the linter and `git` through `execSync` is not modelled, nor is the `git status` section of the report. The lint result is a boolean (`Release.Workspace.Run`) or a `LintRun` value (`AiVerify.Verify`). These are process plumbing.
- The git commit and tag step of the release, and its failure message, are left out for the same reason.
- File writes are modelled as the fields of `Release.Workspace`: the version text, the set of dist file names, and the changelog text. The copied file contents and `mkdir` are not modelled. The file system is outside the model.
- The date from `new Date()` is the parameter `today`. The clock is outside the model.
- Console messages of the release and report scripts are not modelled. They are output only, except for the fix-guide texts, which `AiVerify.GuideText` keeps.
- The JSON module import of src/lib/token.ts is replaced by a `tokens` parameter. `resolveToken`'s default argument is the constant `TokenLib.DefaultMaxDepth`; `resolveRef`'s is `LintTokens.MaxRefDepth`.
- src/components/Button.tsx, src/components/Button.stories.tsx, src/pages/ai-output.tsx and src/pages/index.tsx are not part of this model. They are UI shells that call `resolveToken`.
- Regular expressions are written as character predicates.
- JSON arrays and non-integer numbers are not modelled. Token and schema documents use objects, strings and flags.
- Keys inherited from `Object.prototype` (which `key in object` also finds) are not modelled.
- Duplicate keys are not modelled: lookup takes the first member with a key. `LintProperties.LeavesReachable`, `LeavesDistinct` and the schema lemmas that name `WellFormed` assume distinct keys, as parsed JSON objects have.
- Release.Workspace.Run: requires `ParseVersion(version).Some?`: at least three dot-separated parts, the first three digit strings. Other text that `Number` reads (blanks, signs, hex, exponents) and the `NaN` of unreadable text are not modelled.
- Release.ReplaceFirst: inserts the replacement literally. JavaScript's `replace` expands `$&`, `` $` ``, `$'` and `$$` in the replacement; the changelog entry holds a `$` only if the date does, which `toISOString` never yields.
- Objects are walked in document order. JavaScript enumerates integer-like keys first, in ascending order, so for such keys the order of the linter's messages can differ from the model's.
- `e.stdout ?? ""` for a missing stream is not modelled: `LintRun` always carries both streams as text.
- The schema is taken as string lists and string-list tables. An axis value list that is present but not an array is not modelled; the fields hold the parsed lists, with `null` entries as `None`. Axis entries that are numbers or booleans (which `${variant}` and `if (variant)` would also accept), `null` table entries (which `??` passes over to `default`), and an allow-list given as a string (on which `.includes` searches for a substring) are not modelled either.
- Version numbers are unbounded naturals in the model. JavaScript's `Number` and `String` are exact only up to 2^53, and `String` writes exponent form from 1e21 on; `Text.DecimalRoundTrip`, `Text.IntText` and `Release.VersionTextRoundTrip` hold for naturals of any size.
