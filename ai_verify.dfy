/** The self-verification report of scripts/ai-verify.mjs: it runs the linter, pulls the
    error lines out of the linter's output, pairs each with the fix guide of its kind tag,
    and reports READY exactly when the lint passed. Running the linter and `git status`
    are outside the model: the lint run's exit status and output are parameters. */
module AiVerify {
  import opened Text
  import opened Json
  import LintTokens

  // ---------------------------------------------------------------------------
  // Error extraction

  /** The kept line of the output, if it is an error line: the trimmed line starts with
      `- [`, and the error is the trimmed line without its `- `. */
  function ErrorOfLine(line: string): Option<string> {
    var t := Trim(line);
    if "- [" <= t then Some(t[2..]) else None
  }

  /** `lines.filter(...).map(...)`: the errors of the error lines, in order. */
  function ErrorsOf(lines: seq<string>): seq<string>
    decreases |lines|
  {
    if lines == [] then []
    else (if ErrorOfLine(lines[0]).Some? then [ErrorOfLine(lines[0]).value] else []) + ErrorsOf(lines[1..])
  }

  /** Extraction works line by line, so it keeps the order of the output. */
  lemma {:induction false} ErrorsOfAppend(a: seq<string>, b: seq<string>)
    ensures ErrorsOf(a + b) == ErrorsOf(a) + ErrorsOf(b)
    decreases |a|
  {
    if a == [] {
      assert a + b == b;
    } else {
      assert (a + b)[0] == a[0] && (a + b)[1..] == a[1..] + b;
      ErrorsOfAppend(a[1..], b);
      var head := if ErrorOfLine(a[0]).Some? then [ErrorOfLine(a[0]).value] else [];
      LintTokens.Assoc(head, ErrorsOf(a[1..]), ErrorsOf(b));
    }
  }

  /** Every extracted error comes from a line whose trimmed text is `- ` and the error,
      and every extracted error starts with `[`. */
  lemma {:induction false} ErrorsOfSound(lines: seq<string>)
    ensures forall e :: e in ErrorsOf(lines) ==>
      "[" <= e && exists i :: 0 <= i < |lines| && Trim(lines[i]) == "- " + e
    decreases |lines|
  {
    if lines != [] {
      ErrorsOfSound(lines[1..]);
      forall e | e in ErrorsOf(lines)
        ensures "[" <= e && exists i :: 0 <= i < |lines| && Trim(lines[i]) == "- " + e
      {
        var t := Trim(lines[0]);
        if ErrorOfLine(lines[0]).Some? && e == t[2..] {
          assert t == "- " + e;
          assert Trim(lines[0]) == "- " + e;
        } else {
          var i :| 0 <= i < |lines[1..]| && Trim(lines[1..][i]) == "- " + e;
          assert lines[i + 1] == lines[1..][i];
        }
      }
    }
  }

  /** `lintOutput.split("\n")` and the extraction. */
  function ExtractErrors(output: string): seq<string> {
    ErrorsOf(Split(output, '\n'))
  }

  /** The line the linter prints before its errors when it fails. */
  function FailureHeader(count: nat): string {
    "\U{274C} Token lint failed (" + NatText(count) + ")"
  }

  /** The linter's error lines, `" - " + e` each. */
  function ErrorLines(errors: seq<string>): (lines: seq<string>)
    ensures |lines| == |errors|
    ensures forall i :: 0 <= i < |errors| ==> lines[i] == " - " + errors[i]
  {
    if errors == [] then [] else [" - " + errors[0]] + ErrorLines(errors[1..])
  }

  /** What a failing linter writes: a blank line, the header, one line per error, each
      line ended by a newline. */
  function LintFailureOutput(errors: seq<string>): string {
    Join(["", FailureHeader(|errors|)] + ErrorLines(errors) + [""], "\n")
  }

  /** An error the linter can print on one line and get back: it starts with its `[` tag,
      holds no newline and does not end in whitespace. */
  predicate IsPrintableError(e: string) {
    "[" <= e && '\n' !in e && !IsJsWhitespace(e[|e| - 1])
  }

  lemma {:induction false} ErrorLinesRoundTrip(errors: seq<string>)
    requires forall i :: 0 <= i < |errors| ==> IsPrintableError(errors[i])
    ensures ErrorsOf(ErrorLines(errors)) == errors
    decreases |errors|
  {
    if errors != [] {
      var e := errors[0];
      assert IsPrintableError(e);
      ErrorLineOf(e);
      ErrorLinesRoundTrip(errors[1..]);
      assert ErrorLines(errors)[1..] == ErrorLines(errors[1..]);
    }
  }

  /** The line the linter prints for a printable error gives that error back. */
  lemma ErrorLineOf(e: string)
    requires IsPrintableError(e)
    ensures ErrorOfLine(" - " + e) == Some(e)
  {
    TrimLeadingSpace("- " + e);
    assert (" - " + e) == " " + ("- " + e);
    assert ("- " + e)[2..] == e;
  }

  /** Extracting the errors from a failing linter's output gives back its errors, in order. */
  lemma ExtractLintErrors(errors: seq<string>)
    requires forall i :: 0 <= i < |errors| ==> IsPrintableError(errors[i])
    ensures ExtractErrors(LintFailureOutput(errors)) == errors
  {
    var header := FailureHeader(|errors|);
    var lines := ErrorLines(errors);
    OutputLinesHoldNoNewline(errors);
    SplitJoin(["", header] + lines + [""], '\n');
    ErrorsOfAppend(["", header] + lines, [""]);
    ErrorsOfAppend(["", header], lines);
    ErrorLinesRoundTrip(errors);
    HeaderIsNoError(|errors|);
    assert ErrorsOf([""]) == [] by {
      assert Trim("") == "";
    }
  }

  /** None of the lines of a failing linter's output holds a newline. */
  lemma OutputLinesHoldNoNewline(errors: seq<string>)
    requires forall i :: 0 <= i < |errors| ==> IsPrintableError(errors[i])
    ensures var parts := ["", FailureHeader(|errors|)] + ErrorLines(errors) + [""];
            forall k :: 0 <= k < |parts| ==> '\n' !in parts[k]
  {
    var parts := ["", FailureHeader(|errors|)] + ErrorLines(errors) + [""];
    forall k | 0 <= k < |parts| ensures '\n' !in parts[k] {
      if 2 <= k < |parts| - 1 {
        assert parts[k] == " - " + errors[k - 2];
      } else if k == 1 {
        var n := NatText(|errors|);
        assert forall j :: 0 <= j < |n| ==> IsDigit(n[j]);
      }
    }
  }

  /** The blank line and the header line are no error lines. */
  lemma HeaderIsNoError(count: nat)
    ensures ErrorsOf(["", FailureHeader(count)]) == []
  {
    var header := FailureHeader(count);
    TrimOfTrimmed(header);
    assert ["", header][1..] == [header];
    assert Trim(header)[0] == '\U{274C}';
    assert ErrorOfLine(header) == None;
    assert ErrorsOf([header]) == [] by {
      assert [header][1..] == [];
    }
    assert Trim("") == "";
    assert ErrorOfLine("") == None;
  }

  // ---------------------------------------------------------------------------
  // Fix guides

  /** The guides of `FIX_GUIDE`, one per tag, and the fallback. */
  datatype Guide = RawFix | RefFix | PolicyFix | MetaFix | SchemaFix | MatrixFix | TypoFix | GenericFix

  /** The text printed for each guide. */
  function GuideText(g: Guide): string {
    match g
    case RawFix => "raw color value → 동일 색상의 primitive 토큰 경로({중괄호} alias)로 교체하세요."
    case RefFix => "참조 경로를 확인하세요. tokens/kiln.with_meta.json에 해당 경로가 존재하는지 확인 후 수정하세요."
    case PolicyFix => "component 토큰이 primitive를 직접 참조하고 있습니다. semantic 토큰을 경유하도록 수정하거나, exceptionCategory(disabled|overlay_alpha|fixed_color)를 meta에 추가하세요."
    case MetaFix => "meta 필드가 없거나 layer가 틀렸습니다. meta: { layer, policy } 를 토큰에 추가하세요."
    case SchemaFix => "schema에 정의되지 않은 property 또는 state입니다. schema/component-schema.json의 propertyAllowlist / stateMatrix를 확인하세요."
    case MatrixFix => "스키마에서 요구하는 토큰 경로가 없습니다. tokens/kiln.with_meta.json에 해당 경로를 추가하세요."
    case TypoFix => "'.aplha.' 오타가 있습니다. '.alpha.'로 수정하세요."
    case GenericFix => "에러 내용을 읽고 tokens/kiln.with_meta.json 또는 schema/component-schema.json을 수정하세요."
  }

  /** `FIX_GUIDE`, in its insertion order. */
  const FixGuide: seq<(string, Guide)> := [
      ("[RAW]", RawFix),
      ("[REF]", RefFix),
      ("[POLICY]", PolicyFix),
      ("[META]", MetaFix),
      ("[SCHEMA]", SchemaFix),
      ("[MATRIX]", MatrixFix),
      ("[TYPO]", TypoFix)
    ]

  /** The guide of the first tag of `table` that starts `line`, else the fallback. */
  function GuideFor(line: string, table: seq<(string, Guide)>): Guide
    decreases |table|
  {
    if table == [] then GenericFix
    else if table[0].0 <= line then table[0].1
    else GuideFor(line, table[1..])
  }

  /** `getFixGuide`: the loop over `FIX_GUIDE` with its early return. */
  method GetFixGuide(line: string) returns (guide: Guide)
    ensures guide == GuideFor(line, FixGuide)
  {
    var i := 0;
    while i < |FixGuide|
      invariant 0 <= i <= |FixGuide| && GuideFor(line, FixGuide) == GuideFor(line, FixGuide[i..])
    {
      if FixGuide[i].0 <= line {
        return FixGuide[i].1;
      }
      assert FixGuide[i..][1..] == FixGuide[i + 1..];
      i := i + 1;
    }
    return GenericFix;
  }

  /** The guide is the one of the first matching tag, in table order; the fallback is
      given exactly when no tag matches. */
  lemma {:induction false} GuideIsFirstMatch(line: string, table: seq<(string, Guide)>)
    ensures (exists i :: 0 <= i < |table| && table[i].0 <= line) ==>
      exists i :: 0 <= i < |table| && table[i].0 <= line && GuideFor(line, table) == table[i].1
                  && forall j :: 0 <= j < i ==> !(table[j].0 <= line)
    ensures (forall i :: 0 <= i < |table| ==> !(table[i].0 <= line)) ==> GuideFor(line, table) == GenericFix
    decreases |table|
  {
    if table != [] && !(table[0].0 <= line) {
      GuideIsFirstMatch(line, table[1..]);
      if exists i :: 0 <= i < |table| && table[i].0 <= line {
        var i :| 0 <= i < |table| && table[i].0 <= line;
        assert table[1..][i - 1] == table[i];
        var i' :| 0 <= i' < |table[1..]| && table[1..][i'].0 <= line && GuideFor(line, table[1..]) == table[1..][i'].1
                  && forall j :: 0 <= j < i' ==> !(table[1..][j].0 <= line);
        assert forall j :: 1 <= j < i' + 1 ==> table[j] == table[1..][j - 1];
      } else {
        assert forall i :: 0 <= i < |table[1..]| ==> table[1..][i] == table[i + 1];
      }
    }
  }

  /** The tags the linter emits. */
  const EmittedTags: seq<string> := ["[META]", "[TYPO]", "[RAW]", "[REF]", "[POLICY]", "[SCHEMA]"]

  /** Every violation's message starts with one of the emitted tags, never with `[MATRIX]`. */
  lemma MessageTag(v: LintTokens.Violation)
    ensures v.Tag() in EmittedTags && v.Tag() != "[MATRIX]"
    ensures v.Tag() <= v.Message()
  {
  }

  /** The guide `table` lists under exactly the key `tag`. */
  function KeyedGuide(table: seq<(string, Guide)>, tag: string): Option<Guide>
    decreases |table|
  {
    if table == [] then None
    else if table[0].0 == tag then Some(table[0].1)
    else KeyedGuide(table[1..], tag)
  }

  /** Every message of the linter gets the guide listed under its own tag: no earlier
      tag of the table starts it. */
  lemma MessageGuide(v: LintTokens.Violation)
    ensures KeyedGuide(FixGuide, v.Tag()) == Some(GuideFor(v.Message(), FixGuide))
  {
    MessageTag(v);
    TagGuide(v.Tag(), v.Message());
  }

  /** A line starting with an emitted tag gets the guide listed under that tag. */
  lemma TagGuide(t: string, line: string)
    requires t in EmittedTags && t <= line
    ensures KeyedGuide(FixGuide, t) == Some(GuideFor(line, FixGuide))
  {
    assert line[..|t|] == t;
    if t == "[RAW]" {
      assert GuideFor(line, FixGuide) == RawFix;
    } else if t == "[REF]" {
      assert line[2] == 'E';
      assert GuideFor(line, FixGuide) == RefFix;
    } else if t == "[POLICY]" {
      assert line[1] == 'P';
      assert GuideFor(line, FixGuide) == PolicyFix;
    } else if t == "[META]" {
      assert line[1] == 'M' && line[2] == 'E';
      assert GuideFor(line, FixGuide) == MetaFix;
    } else if t == "[SCHEMA]" {
      assert line[1] == 'S';
      assert GuideFor(line, FixGuide) == SchemaFix;
    } else {
      assert line[1] == 'T';
      assert GuideFor(line, FixGuide) == TypoFix;
    }
  }

  // ---------------------------------------------------------------------------
  // The report

  /** The lint run: whether it exited successfully, and what it wrote to each stream. */
  datatype LintRun = LintRun(succeeded: bool, stdout: string, stderr: string)

  datatype Status = Ready | NotReady

  /** The report: the lint verdict, each extracted error with its guide (listed only when
      the lint failed), and the final status. */
  datatype Report = Report(lintPassed: bool, fixes: seq<(string, Guide)>, status: Status)

  function Fixes(errors: seq<string>): (r: seq<(string, Guide)>)
    ensures |r| == |errors|
    ensures forall i :: 0 <= i < |errors| ==> r[i] == (errors[i], GuideFor(errors[i], FixGuide))
  {
    if errors == [] then [] else [(errors[0], GuideFor(errors[0], FixGuide))] + Fixes(errors[1..])
  }

  /** The output the script parses: stdout on success, stdout then stderr on failure. */
  function LintOutput(run: LintRun): string {
    if run.succeeded then run.stdout else run.stdout + run.stderr
  }

  /** The loop of the report over the extracted errors: each error with its guide, in order. */
  method GuideAll(errors: seq<string>) returns (fixes: seq<(string, Guide)>)
    ensures fixes == Fixes(errors)
  {
    fixes := [];
    var i := 0;
    while i < |errors|
      invariant 0 <= i <= |errors| && |fixes| == i
      invariant forall j :: 0 <= j < i ==> fixes[j] == (errors[j], GuideFor(errors[j], FixGuide))
    {
      var guide := GetFixGuide(errors[i]);
      fixes := fixes + [(errors[i], guide)];
      i := i + 1;
    }
  }

  /** The script's steps: take the lint verdict and output, extract the errors, pair each
      with its guide, and settle the status. */
  method Verify(run: LintRun) returns (report: Report)
    ensures report.lintPassed == run.succeeded
    ensures report.status == Ready <==> run.succeeded
    ensures !run.succeeded ==> report.fixes == Fixes(ExtractErrors(LintOutput(run)))
    ensures run.succeeded ==> report.fixes == []
  {
    var lintPassed := false;
    var lintOutput := "";
    if run.succeeded {
      lintOutput := run.stdout;
      lintPassed := true;
    } else {
      lintOutput := run.stdout + run.stderr;
      lintPassed := false;
    }
    var lintErrors := ExtractErrors(lintOutput);
    var fixes: seq<(string, Guide)> := [];
    if !lintPassed {
      fixes := GuideAll(lintErrors);
    }
    var status := if lintPassed then Ready else NotReady;
    return Report(lintPassed, fixes, status);
  }

  /** End to end: when the linter fails with printable errors on stderr, the report lists
      exactly those errors, in order, each with the guide of its violation's tag. */
  lemma ReportOfFailedLint(violations: seq<LintTokens.Violation>, stdout: string)
    requires stdout == ""
    requires forall i :: 0 <= i < |violations| ==> IsPrintableError(violations[i].Message())
    ensures var errors := LintTokens.Messages(violations);
            var fixes := Fixes(ExtractErrors(LintOutput(LintRun(false, stdout, LintFailureOutput(errors)))));
            |fixes| == |violations|
            && forall i :: 0 <= i < |violations| ==>
                 fixes[i].0 == violations[i].Message()
                 && KeyedGuide(FixGuide, violations[i].Tag()) == Some(fixes[i].1)
  {
    var errors := LintTokens.Messages(violations);
    ExtractLintErrors(errors);
    assert stdout + LintFailureOutput(errors) == LintFailureOutput(errors);
    forall i | 0 <= i < |violations|
      ensures KeyedGuide(FixGuide, violations[i].Tag()) == Some(GuideFor(violations[i].Message(), FixGuide))
    {
      MessageGuide(violations[i]);
    }
  }
}
