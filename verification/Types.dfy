/** What the engine hands to the daemon (core/src/engine/evaluator.rs,
    core/src/engine/variables/types.rs), and what the daemon does to the
    document with it: delete characters before the caret, then type. */
module Types {
  import opened Text

  datatype ExpansionStep =
    | TextStep(text: string)
    | Image(payload: string)
    | KeyPress(key: string)
    | Delay(ms: nat)
    | Script(script: string)
    | InlineRun(script: string)
    | MouseClick | MouseMove | MouseScroll | MouseDown | MouseUp

  datatype StatKind = Calculation | ScriptRun | Snippet | InlineAi

  datatype FollowUp =
    | InlineAiPrompt(prompt: string)
    | AiTransformer(template: string)
    | DictionaryLookup(word: string, kind: nat)

  datatype ExpansionResult = ExpansionResult(
    deleteCount: nat,
    steps: seq<ExpansionStep>,
    trigger: string,
    undoTrigger: Option<string>,
    isCalculation: bool,
    statKind: StatKind,
    trackUsage: bool,
    followUp: Option<FollowUp>)

  datatype CompletionRewrite = CompletionRewrite(deleteCount: nat, replacement: string)

  /** The document after the daemon has replayed a rewrite, if there is one. */
  function Rewritten(doc: string, r: Option<CompletionRewrite>): string {
    match r
    case None => doc
    case Some(w) => Chop(doc, w.deleteCount) + w.replacement
  }

  /** The text that the steps type, one after the other. */
  function StepsText(steps: seq<ExpansionStep>): string {
    if steps == [] then []
    else (if steps[0].TextStep? then steps[0].text else []) + StepsText(steps[1..])
  }

  predicate AllText(steps: seq<ExpansionStep>) {
    forall i :: 0 <= i < |steps| ==> steps[i].TextStep?
  }

  function TextBytes(steps: seq<ExpansionStep>): nat {
    if steps == [] then 0
    else (if steps[0].TextStep? then Bytes(steps[0].text) else 0) + TextBytes(steps[1..])
  }
}
