/**
 * The prompt library: each known mode is a fixed template with the user's
 * input inserted at one place; an unknown mode yields no prompt.
 */
module PromptLibrary {
  import opened Wrappers

  /**
   * A prompt template, read top to bottom: the line naming the assistant's
   * role, the instructions, the heading line the input follows, and the text
   * after the input.
   */
  datatype Template = Template(role: string, instructions: string, heading: string, suffix: string)

  /** Everything in a template before the input. */
  function Prefix(t: Template): string {
    t.role + t.instructions + t.heading
  }

  const TextHeading: string := "TEXT:\n"
  const QuestionHeading: string := "QUESTION:\n"
  const GoalHeading: string := "GOAL:\n"

  const SummarizeTemplate: Template := Template(
    "\nYou are a professional analyst.\n",
    "\nSummarize the text accurately.\n\n"
    + "Rules:\n- Use only provided text\n- No external info\n\n"
    + "Output:\n- 5 bullet points\n- Each bullet = 1 sentence\n\n",
    TextHeading,
    "\n")

  const QaTemplate: Template := Template(
    "\nYou are a cautious assistant.\n",
    "\nAnswer clearly and concisely.\nIf unsure, say you are unsure.\n\n",
    QuestionHeading,
    "\n\nOutput:\n- One short paragraph\n")

  const ClassifyTemplate: Template := Template(
    "\nYou are a strict classifier.\n",
    "\nClassify into:\n- Positive\n- Negative\n- Neutral\n\n"
    + "Return:\nClassification: <label>\nReason: <1 sentence>\n\n",
    TextHeading,
    "\n")

  const RewriteTemplate: Template := Template(
    "\nYou are a professional editor.\n",
    "\nRewrite the text.\n\nTone: Professional\n\n"
    + "Rules:\n- Keep meaning\n- No new info\n\n",
    TextHeading,
    "\n")

  const PlanTemplate: Template := Template(
    "\nYou are a systems planner.\n",
    "\n",
    GoalHeading,
    "\n\nOutput:\n\nSteps:\n1. ...\n2. ...\n\nAssumptions:\n- ...\n\nRisks:\n- ...\n")

  /** The modes `get_prompt` knows, in the order it tests them. */
  const Modes: seq<string> := ["summarize", "qa", "classify", "rewrite", "plan"]

  /** The template of a mode, checked in the order of `get_prompt`'s branches. */
  function TemplateFor(mode: string): Option<Template> {
    if mode == "summarize" then Some(SummarizeTemplate)
    else if mode == "qa" then Some(QaTemplate)
    else if mode == "classify" then Some(ClassifyTemplate)
    else if mode == "rewrite" then Some(RewriteTemplate)
    else if mode == "plan" then Some(PlanTemplate)
    else None
  }

  /** `get_prompt(mode, user_input)`: the mode's template around the input, or `None` for an unknown mode. */
  function GetPrompt(mode: string, userInput: string): (r: Option<string>)
    ensures r == None <==> mode !in Modes
  {
    match TemplateFor(mode)
    case None => None
    case Some(t) => Some(Prefix(t) + userInput + t.suffix)
  }

  /** The user input inside a prompt built from template `t`, if the prompt has that shape. */
  function Extract(t: Template, prompt: string): (r: Option<string>)
    ensures r.Some? <==>
      |Prefix(t)| + |t.suffix| <= |prompt| && Prefix(t) <= prompt && t.suffix == prompt[|prompt| - |t.suffix|..]
    ensures r.Some? ==> prompt == Prefix(t) + r.value + t.suffix
  {
    var pre := Prefix(t);
    if |pre| + |t.suffix| <= |prompt| && pre <= prompt && t.suffix == prompt[|prompt| - |t.suffix|..] then
      var u := prompt[|pre|..|prompt| - |t.suffix|];
      assert prompt == prompt[..|pre|] + u + prompt[|prompt| - |t.suffix|..];
      Some(u)
    else None
  }

  /** Which mode a prompt was built for and the input it holds, testing the modes in order. */
  function ParsePrompt(prompt: string): Option<(string, string)> {
    ParseFrom(Modes, prompt)
  }

  function ParseFrom(modes: seq<string>, prompt: string): Option<(string, string)> {
    if modes == [] then None
    else
      match TemplateFor(modes[0])
      case Some(t) =>
        (match Extract(t, prompt)
         case Some(u) => Some((modes[0], u))
         case None => ParseFrom(modes[1..], prompt))
      case None => ParseFrom(modes[1..], prompt)
  }

  /** Every prompt begins and ends with a newline, and the input follows the heading line of its template. */
  lemma PromptShape(mode: string, userInput: string)
    requires mode in Modes
    ensures GetPrompt(mode, userInput).Some?
    ensures var p := GetPrompt(mode, userInput).value;
      |p| >= 2 && p[0] == '\n' && p[|p| - 1] == '\n'
    ensures var t := TemplateFor(mode).value;
      var p, n := GetPrompt(mode, userInput).value, |Prefix(t)|;
      && |t.heading| <= n && n + |userInput| <= |p|
      && p[n - |t.heading|..n] == t.heading
      && p[n..n + |userInput|] == userInput
    ensures TemplateFor(mode).value.heading ==
      if mode == "qa" then QuestionHeading else if mode == "plan" then GoalHeading else TextHeading
  {
    var t := TemplateFor(mode).value;
    assert t.role[0] == '\n' && t.suffix[|t.suffix| - 1] == '\n';
    FilledShape(t, userInput);
  }

  /** A template filled with an input: the prompt's first and last characters are those of the role line and the suffix, and the input follows the heading. */
  lemma FilledShape(t: Template, userInput: string)
    requires t.role != [] && t.suffix != []
    ensures var p, n := Prefix(t) + userInput + t.suffix, |Prefix(t)|;
      && |p| >= 2 && p[0] == t.role[0] && p[|p| - 1] == t.suffix[|t.suffix| - 1]
      && |t.heading| <= n && n + |userInput| <= |p|
      && p[n - |t.heading|..n] == t.heading
      && p[n..n + |userInput|] == userInput
  {
    var pre := Prefix(t);
    var p := pre + userInput + t.suffix;
    var n := |pre|;
    assert p[0] == pre[0] == t.role[0];
    assert p[..n] == pre;
    assert pre[n - |t.heading|..] == t.heading;
    assert p[n - |t.heading|..n] == pre[n - |t.heading|..];
    assert p[n..n + |userInput|] == userInput;
  }

  /** The input can be read back from the prompt of its mode. */
  lemma ExtractRoundTrip(mode: string, userInput: string)
    requires mode in Modes
    ensures Extract(TemplateFor(mode).value, GetPrompt(mode, userInput).value) == Some(userInput)
  {
    var t := TemplateFor(mode).value;
    var pre := Prefix(t);
    var p := pre + userInput + t.suffix;
    assert p[..|pre|] == pre;
    assert p[|p| - |t.suffix|..] == t.suffix;
    assert p[|pre|..|p| - |t.suffix|] == userInput;
  }

  /** A template whose prefix differs from the prompt at some position does not match the prompt. */
  lemma Mismatch(x: Template, prompt: string, k: nat)
    requires k < |Prefix(x)| && k < |prompt| && Prefix(x)[k] != prompt[k]
    ensures Extract(x, prompt) == None
  {
  }

  /** Character `k` of a prompt, for `k` inside its role line, is that of the role line. */
  lemma RoleChar(mode: string, userInput: string, k: nat)
    requires mode in Modes
    requires k < |TemplateFor(mode).value.role|
    ensures k < |GetPrompt(mode, userInput).value|
    ensures GetPrompt(mode, userInput).value[k] == TemplateFor(mode).value.role[k]
    ensures k < |Prefix(TemplateFor(mode).value)|
    ensures Prefix(TemplateFor(mode).value)[k] == TemplateFor(mode).value.role[k]
  {
  }

  /** Where the role lines of two different modes first differ. */
  lemma RoleDifference(m: string, x: string) returns (k: nat)
    requires m in Modes && x in Modes && m != x
    ensures k < |TemplateFor(m).value.role| && k < |TemplateFor(x).value.role|
    ensures TemplateFor(m).value.role[k] != TemplateFor(x).value.role[k]
  {
    // "professional analyst", "cautious", "strict", "professional editor", "systems"
    k := if m in {"summarize", "rewrite"} && x in {"summarize", "rewrite"} then 24
      else if m in {"classify", "plan"} && x in {"classify", "plan"} then 12
      else 11;
  }

  /** The prompt of one mode matches the template of no other mode. */
  lemma OtherTemplatesMiss(m: string, x: string, userInput: string)
    requires m in Modes && x in Modes && m != x
    ensures Extract(TemplateFor(x).value, GetPrompt(m, userInput).value) == None
  {
    var k := RoleDifference(m, x);
    RoleChar(m, userInput, k);
    RoleChar(x, "", k);
    Mismatch(TemplateFor(x).value, GetPrompt(m, userInput).value, k);
  }

  /** Trying the modes in order finds the only one whose template matches. */
  lemma {:induction false} ParseFromUnique(ms: seq<string>, prompt: string, m: string, u: string)
    requires m in ms
    requires forall x :: x in ms ==> TemplateFor(x).Some?
    requires Extract(TemplateFor(m).value, prompt) == Some(u)
    requires forall x :: x in ms && x != m ==> Extract(TemplateFor(x).value, prompt) == None
    ensures ParseFrom(ms, prompt) == Some((m, u))
    decreases |ms|
  {
    assert ms[0] in ms;
    if ms[0] != m {
      assert m in ms[1..];
      ParseFromUnique(ms[1..], prompt, m, u);
    }
  }

  /** A prompt names the mode it was built for and the input it holds: no two (mode, input) pairs give the same prompt. */
  lemma ParseRoundTrip(mode: string, userInput: string)
    requires mode in Modes
    ensures ParsePrompt(GetPrompt(mode, userInput).value) == Some((mode, userInput))
  {
    var p := GetPrompt(mode, userInput).value;
    ExtractRoundTrip(mode, userInput);
    forall x | x in Modes && x != mode ensures Extract(TemplateFor(x).value, p) == None {
      OtherTemplatesMiss(mode, x, userInput);
    }
    ParseFromUnique(Modes, p, mode, userInput);
  }
}
