/** How the render-time resolver of src/lib/token.ts differs from the linter's: what each
    of them takes for a reference and for a token leaf. (The depth bounds, 10 and 20, are
    the constants `TokenLib.DefaultMaxDepth` and `LintTokens.MaxRefDepth`.) */
module ResolverComparison {
  import opened Text
  import opened Json
  import LintTokens
  import TokenLib

  /** Every reference of token.ts is an alias for the linter, with the same target path:
      braces at both ends leave nothing for `trim` to remove. */
  lemma RefIsAlias(v: Json)
    requires TokenLib.IsRef(v)
    ensures LintTokens.IsAliasRef(v)
    ensures LintTokens.StripBraces(v.s) == TokenLib.RefPath(v)
  {
    TrimOfTrimmed(v.s);
  }

  /** The converse fails: the linter trims before matching, token.ts does not. A
      reference with a blank in front is an alias for the linter, naming the same path,
      and no reference at all for token.ts. */
  lemma PaddedAliasOnlyForLinter(x: string)
    requires IsBraced(x)
    ensures LintTokens.IsAliasRef(Str(" " + x)) && !TokenLib.IsRef(Str(" " + x))
    ensures LintTokens.StripBraces(" " + x) == x[1..|x| - 1]
  {
    TrimLeadingSpace(x);
  }

  /** An object with a `value` and no `type` is a leaf for token.ts but not for the
      linter: `getTokenValue` returns its value, `getTokenValueByPath` finds nothing. */
  lemma ValueOnlyLeaf(tokens: Json, path: string)
    requires Descend(tokens, Split(path, '.')).Some?
    requires var node := Descend(tokens, Split(path, '.')).value;
             node.Obj? && HasKey(node.members, "value") && !HasKey(node.members, "type")
    ensures var node := Descend(tokens, Split(path, '.')).value;
            && TokenLib.TokenValue(tokens, path) == TokenLib.Ok(Lookup(node.members, "value").value)
            && LintTokens.TokenAt(tokens, path) == None
  {
    TokenLib.WalkAgreesWithDescend(tokens, Split(path, '.'));
  }
}
