/**
 * `construct_llm_prompt`: a deterministic string builder. The instruction
 * interpolates the language, module name and test framework verbatim, appends
 * the user's requests only when they are truthy, and then embeds the code
 * unescaped inside a triple-backtick fence, followed by a closing cue.
 *
 * The instruction is kept as the ordered list of its pieces (fixed wording
 * alternating with the interpolated values) and rendered by `Concat`; the
 * lemmas locate pieces in the rendered prompt through `OccursAt`.
 */
module PromptBuilder {
  import opened Wrappers
  import opened PyStr

  /** The parameter defaults of `construct_llm_prompt`. */
  const DefaultLanguage: string := "python"
  const DefaultFramework: string := "unittest"

  /** The fixed wording of the instruction, between its interpolated values. */
  const Intro: string := "You are an expert AI programming assistant specialized in software testing. "
  const TaskLead: string := "Your task is to generate high-quality, runnable unit tests for the provided "
  const ModuleLead: string := " code. from the module named '"
  const ImportLead: string := "'. Please import and use the module '"
  const ExampleLead: string := "' in your test script. For example, if the module is '"
  const ImportExample: string := "', you should use 'import "
  const CallExample: string := "' and then call functions like '"
  const MainHint: string := ".my_function()'. If the code contains a 'main()' function within '"
  const FrameworkLead: string := "', assume it's the primary entry point to test unless specified otherwise. Please use the "
  const CoverageText: string := " framework. The generated tests should be comprehensive, covering main functionality, typical use cases (positive tests), and important edge cases. Where applicable, also include negative tests to check handling of invalid inputs. Ensure all necessary imports for the "
  const ImportsLead: string := " framework, the '"
  const MockHint: string := "' module, and any standard libraries used are included. If using mocks (e.g., from 'unittest.mock'), ensure 'MagicMock' or 'Mock' are imported if used (e.g., 'from unittest.mock import MagicMock, patch'). The output should be ONLY the "
  const OutputRule: string := " test code itself, formatted correctly and ready to run. Do not include any explanatory text, apologies, or introductory/concluding sentences outside of the code block."

  /** The lead-in of the optional user requests. */
  const RequestsLead: string := "\n\nAdditionally, please consider the following specific user requests for the tests: "

  /** The fence around the code: opening line and closing line plus blank line. */
  const OpenFence: string := "```\n"
  const CloseFence: string := "\n```\n\n"

  /** The pieces concatenated in order. */
  function Concat(parts: seq<string>): string
    decreases |parts|
  {
    if parts == [] then "" else parts[0] + Concat(parts[1..])
  }

  /** `x` occurs in `s` starting at index `i`. */
  predicate OccursAt(x: string, s: string, i: nat) {
    i + |x| <= |s| && s[i..i + |x|] == x
  }

  /** The instruction before the optional requests, piece by piece. */
  function BaseParts(language: string, moduleName: string, testFramework: string): seq<string> {
    [Intro, TaskLead, language, ModuleLead, moduleName, ImportLead, moduleName,
     ExampleLead, moduleName, ImportExample, moduleName, CallExample, moduleName,
     MainHint, moduleName, FrameworkLead, testFramework, CoverageText, testFramework,
     ImportsLead, moduleName, MockHint, language, OutputRule]
  }

  /** The instruction, with the user's requests appended only when they are truthy. */
  function Instruction(language: string, moduleName: string, testFramework: string,
                       userInstructions: Option<string>): (r: string)
    ensures Truthy(userInstructions) ==> EndsWith(r, RequestsLead + userInstructions.value)
  {
    var base := Concat(BaseParts(language, moduleName, testFramework));
    if Truthy(userInstructions) then base + RequestsLead + userInstructions.value else base
  }

  /** The line that introduces the code, naming its language. */
  function CodeHeader(language: string): string {
    "\n\nHere is the source code (`" + language + "`) to be tested:\n"
  }

  /** The closing cue that ends every prompt. */
  function Cue(testFramework: string): string {
    "Generated " + testFramework + " tests for the code above:"
  }

  /** Everything before the opening fence. */
  function Preamble(moduleName: string, language: string, testFramework: string,
                    userInstructions: Option<string>): string
  {
    Instruction(language, moduleName, testFramework, userInstructions) + CodeHeader(language)
  }

  /** `construct_llm_prompt`: its output depends on these five arguments only. */
  function ConstructPrompt(codeSnippet: string, moduleName: string, language: string := DefaultLanguage,
                           testFramework: string := DefaultFramework,
                           userInstructions: Option<string> := None): (r: string)
    ensures |r| == |Preamble(moduleName, language, testFramework, userInstructions)| + |codeSnippet| + 10
                   + |Cue(testFramework)|
  {
    Preamble(moduleName, language, testFramework, userInstructions)
    + OpenFence + codeSnippet + CloseFence + Cue(testFramework)
  }

  // ---------------------------------------------------------------------------
  // Generic facts about concatenation

  lemma OccursAtExtend(x: string, s: string, t: string, i: nat)
    requires OccursAt(x, s, i)
    ensures OccursAt(x, s + t, i)
  {
    assert (s + t)[i..i + |x|] == s[i..i + |x|];
  }

  lemma OccursInMiddle(a: string, x: string, b: string)
    ensures OccursAt(x, a + (x + b), |a|)
  {
    assert (a + (x + b))[|a|..] == x + b;
  }

  lemma OccursInSlice(x: string, s: string, p: nat, t: string, i: nat)
    requires p + |t| <= |s| && s[p..p + |t|] == t
    requires OccursAt(x, t, i)
    ensures OccursAt(x, s, p + i)
  {
    forall k | 0 <= k < |x| ensures s[p + i + k] == x[k] {
      assert s[p + i + k] == s[p..p + |t|][i + k] == t[i..i + |x|][k];
    }
    assert s[p + i..p + i + |x|] == x;
  }

  /** Rendering a list of pieces splits at any index. */
  lemma {:induction false} ConcatSplit(parts: seq<string>, i: nat)
    requires i <= |parts|
    ensures Concat(parts) == Concat(parts[..i]) + Concat(parts[i..])
    decreases i
  {
    if i == 0 {
      assert parts[..0] == [];
      assert parts[0..] == parts;
    } else {
      ConcatSplit(parts[1..], i - 1);
      assert parts[1..][..i - 1] == parts[..i][1..];
      assert parts[1..][i - 1..] == parts[i..];
    }
  }

  /** A run of consecutive pieces occurs in the rendering, after the pieces before it. */
  lemma PiecesOccur(parts: seq<string>, i: nat, j: nat)
    requires i <= j <= |parts|
    ensures OccursAt(Concat(parts[i..j]), Concat(parts), |Concat(parts[..i])|)
  {
    ConcatSplit(parts, i);
    ConcatSplit(parts[i..], j - i);
    assert parts[i..][..j - i] == parts[i..j];
    OccursInMiddle(Concat(parts[..i]), Concat(parts[i..j]), Concat(parts[i..][j - i..]));
  }

  lemma ConcatPair(parts: seq<string>, i: nat)
    requires i + 2 <= |parts|
    ensures Concat(parts[i..i + 2]) == parts[i] + parts[i + 1]
  {
    var pair := parts[i..i + 2];
    assert pair[1..][1..] == [];
    assert Concat(pair[1..]) == parts[i + 1] + "";
    assert parts[i + 1] + "" == parts[i + 1];
  }

  /** Whatever occurs in the base instruction occurs at the same index of the prompt. */
  lemma BaseOccursInPrompt(x: string, i: nat, codeSnippet: string, moduleName: string, language: string,
                           testFramework: string, userInstructions: Option<string>)
    requires OccursAt(x, Concat(BaseParts(language, moduleName, testFramework)), i)
    ensures OccursAt(x, ConstructPrompt(codeSnippet, moduleName, language, testFramework, userInstructions), i)
  {
    var base := Concat(BaseParts(language, moduleName, testFramework));
    var ins := Instruction(language, moduleName, testFramework, userInstructions);
    if Truthy(userInstructions) {
      OccursAtExtend(x, base, RequestsLead, i);
      OccursAtExtend(x, base + RequestsLead, userInstructions.value, i);
    }
    OccursAtExtend(x, ins, CodeHeader(language), i);
    var pre := ins + CodeHeader(language);
    OccursAtExtend(x, pre, OpenFence, i);
    OccursAtExtend(x, pre + OpenFence, codeSnippet, i);
    OccursAtExtend(x, pre + OpenFence + codeSnippet, CloseFence, i);
    OccursAtExtend(x, pre + OpenFence + codeSnippet + CloseFence, Cue(testFramework), i);
  }

  /** Two consecutive pieces of the base instruction occur together in the prompt. */
  lemma PairOccursInPrompt(x: string, k: nat, codeSnippet: string, moduleName: string, language: string,
                           testFramework: string, userInstructions: Option<string>)
    requires var parts := BaseParts(language, moduleName, testFramework);
      k + 2 <= |parts| && x == parts[k] + parts[k + 1]
    ensures exists i: nat :: OccursAt(x, ConstructPrompt(codeSnippet, moduleName, language, testFramework, userInstructions), i)
  {
    var parts := BaseParts(language, moduleName, testFramework);
    PiecesOccur(parts, k, k + 2);
    ConcatPair(parts, k);
    BaseOccursInPrompt(parts[k] + parts[k + 1], |Concat(parts[..k])|,
                       codeSnippet, moduleName, language, testFramework, userInstructions);
  }

  lemma FencedAt(pre: string, code: string, cue: string)
    ensures |pre| + |code| + 10 <= |pre + OpenFence + code + CloseFence + cue|
    ensures (pre + OpenFence + code + CloseFence + cue)[|pre|..|pre| + 4] == OpenFence
    ensures (pre + OpenFence + code + CloseFence + cue)[|pre| + 4..|pre| + 4 + |code|] == code
    ensures (pre + OpenFence + code + CloseFence + cue)[|pre| + 4 + |code|..|pre| + |code| + 10] == CloseFence
    ensures (pre + OpenFence + code + CloseFence + cue)[|pre| + |code| + 10..] == cue
  {
    assert |OpenFence| == 4 && |CloseFence| == 6;
    var a := pre + OpenFence;
    var b := a + code;
    var c := b + CloseFence;
    var r := c + cue;
    assert r[..|c|] == c;
    assert c[..|b|] == b;
    assert b[..|a|] == a;
    assert r[|pre|..|a|] == a[|pre|..] == OpenFence;
    assert r[|a|..|b|] == b[|a|..] == code;
    assert r[|b|..|c|] == c[|b|..] == CloseFence;
  }

  // ---------------------------------------------------------------------------
  // Properties of the prompt

  /** The prompt begins with the fixed opening sentence of the instruction. */
  lemma PromptStartsWithIntro(codeSnippet: string, moduleName: string, language: string,
                              testFramework: string, userInstructions: Option<string>)
    ensures OccursAt(Intro, ConstructPrompt(codeSnippet, moduleName, language, testFramework, userInstructions), 0)
  {
    var parts := BaseParts(language, moduleName, testFramework);
    PiecesOccur(parts, 0, 1);
    assert parts[..0] == [];
    assert Concat(parts[0..1]) == Intro;
    BaseOccursInPrompt(Intro, 0, codeSnippet, moduleName, language, testFramework, userInstructions);
  }

  lemma InterpolatedParts(language: string, moduleName: string, testFramework: string)
    ensures var parts := BaseParts(language, moduleName, testFramework);
      && |parts| == 24
      && parts[1] == TaskLead && parts[2] == language
      && parts[9] == ImportExample && parts[10] == moduleName
      && parts[15] == FrameworkLead && parts[16] == testFramework
  {
  }

  /**
   * The language, module name and framework are interpolated verbatim: the
   * prompt names the language after "for the provided ", asks for
   * `import <module>`, and names the framework after "Please use the ".
   */
  lemma ValuesInterpolatedVerbatim(codeSnippet: string, moduleName: string, language: string,
                                   testFramework: string, userInstructions: Option<string>)
    ensures var r := ConstructPrompt(codeSnippet, moduleName, language, testFramework, userInstructions);
      && (exists i: nat :: OccursAt(TaskLead + language, r, i))
      && (exists i: nat :: OccursAt(ImportExample + moduleName, r, i))
      && (exists i: nat :: OccursAt(FrameworkLead + testFramework, r, i))
  {
    var r := ConstructPrompt(codeSnippet, moduleName, language, testFramework, userInstructions);
    InterpolatedParts(language, moduleName, testFramework);
    assert exists i: nat :: OccursAt(TaskLead + language, r, i) by {
      PairOccursInPrompt(TaskLead + language, 1, codeSnippet, moduleName, language, testFramework, userInstructions);
    }
    assert exists i: nat :: OccursAt(ImportExample + moduleName, r, i) by {
      PairOccursInPrompt(ImportExample + moduleName, 9, codeSnippet, moduleName, language, testFramework, userInstructions);
    }
    assert exists i: nat :: OccursAt(FrameworkLead + testFramework, r, i) by {
      PairOccursInPrompt(FrameworkLead + testFramework, 15, codeSnippet, moduleName, language, testFramework, userInstructions);
    }
  }

  lemma InsertedAfterBase(base: string, lead: string, req: string, header: string, code: string, cue: string)
    ensures var plain := base + header + OpenFence + code + CloseFence + cue;
      && |base| <= |plain|
      && base + lead + req + header + OpenFence + code + CloseFence + cue
         == plain[..|base|] + lead + req + plain[|base|..]
  {
    var rest := header + OpenFence + code + CloseFence + cue;
    var plain := base + header + OpenFence + code + CloseFence + cue;
    assert plain == base + rest;
    assert plain[..|base|] == base;
    assert plain[|base|..] == rest;
  }

  /**
   * Truthy requests are inserted, after their lead-in, right after the base
   * instruction; `None` and `""` give the prompt without requests.
   */
  lemma RequestsInsertedOnlyWhenTruthy(codeSnippet: string, moduleName: string, language: string,
                                       testFramework: string, userInstructions: Option<string>)
    ensures var plain := ConstructPrompt(codeSnippet, moduleName, language, testFramework, None);
      var n := |Instruction(language, moduleName, testFramework, None)|;
      var r := ConstructPrompt(codeSnippet, moduleName, language, testFramework, userInstructions);
      && n <= |plain|
      && (Truthy(userInstructions) ==> r == plain[..n] + RequestsLead + userInstructions.value + plain[n..])
      && (!Truthy(userInstructions) ==> r == plain)
  {
    var base := Instruction(language, moduleName, testFramework, None);
    InsertedAfterBase(base, RequestsLead, userInstructions.GetOr(""), CodeHeader(language), codeSnippet,
                      Cue(testFramework));
  }

  /**
   * The snippet appears verbatim, right after the opening fence line and
   * right before the closing fence and the cue, which end the prompt.
   */
  lemma SnippetFencedVerbatim(codeSnippet: string, moduleName: string, language: string,
                              testFramework: string, userInstructions: Option<string>)
    ensures var r := ConstructPrompt(codeSnippet, moduleName, language, testFramework, userInstructions);
      var p := |Preamble(moduleName, language, testFramework, userInstructions)| + 4;
      && p + |codeSnippet| + 6 <= |r|
      && r[p - 4..p] == "```\n"
      && r[p..p + |codeSnippet|] == codeSnippet
      && r[p + |codeSnippet|..p + |codeSnippet| + 6] == "\n```\n\n"
      && r[p + |codeSnippet| + 6..] == "Generated " + testFramework + " tests for the code above:"
  {
    FencedAt(Preamble(moduleName, language, testFramework, userInstructions), codeSnippet, Cue(testFramework));
  }

  /**
   * The snippet is not escaped: a closing-fence line inside the snippet shows
   * up in the prompt before the fence that was meant to close the code.
   */
  lemma EmbeddedFenceNotEscaped(codeSnippet: string, moduleName: string, language: string,
                                testFramework: string, userInstructions: Option<string>, i: nat)
    requires OccursAt("\n```", codeSnippet, i)
    ensures var r := ConstructPrompt(codeSnippet, moduleName, language, testFramework, userInstructions);
      var p := |Preamble(moduleName, language, testFramework, userInstructions)| + 4;
      && OccursAt("\n```", r, p + i)
      && p + i < p + |codeSnippet|
  {
    var r := ConstructPrompt(codeSnippet, moduleName, language, testFramework, userInstructions);
    var p := |Preamble(moduleName, language, testFramework, userInstructions)| + 4;
    SnippetFencedVerbatim(codeSnippet, moduleName, language, testFramework, userInstructions);
    OccursInSlice("\n```", r, p, codeSnippet, i);
  }
}
