/** The two-string chat wraps keyed by model name that `main.py` and `llmer.py`
    both carry: a prompt is `start + body + end`. */
module Prompts {
  import opened Wrappers

  datatype Wrap = Wrap(start: string, end: string)

  /** The seven model keys both tables know, in declaration order. */
  const KnownModels: seq<string> := ["cmdr", "llama3", "mistral", "alpaca", "chatml", "phi3", "wizard"]

  const CmdrWrap: Wrap := Wrap("<|START_OF_TURN_TOKEN|><|USER_TOKEN|>\n##Instruction\n",
                                "<|END_OF_TURN_TOKEN|><|START_OF_TURN_TOKEN|><|CHATBOT_TOKEN|>")
  const Llama3Wrap: Wrap := Wrap("<|begin_of_text|><|start_header_id|>user<|end_header_id|>\n\nInstructions: ",
                                  "<|eot_id|><|start_header_id|>assistant<|end_header_id|>\n\n")
  const MistralWrap: Wrap := Wrap("[INST] ", " [/INST]")
  const AlpacaWrap: Wrap := Wrap("### Instruction:\n", "\n\n### Response:\n")
  const ChatmlWrap: Wrap := Wrap("<im_start>system\n You are a helpful assistant.<|im_end|>\n<|im_start|>user\n",
                                  "<|im_end|>\n<|im_start|>assistant\n")
  const Phi3Wrap: Wrap := Wrap("<|user|>\n", "<|end|>\n<|assistant|>")
  const WizardWrap: Wrap := Wrap(" USER: ", " ASSISTANT: ")

  /** `templates.get(model)`. */
  function WrapFor(model: string): (r: Option<Wrap>)
    ensures r.Some? <==> model in KnownModels
    ensures model == "wizard" ==> r == Some(WizardWrap)
  {
    match model
    case "cmdr" => Some(CmdrWrap)
    case "llama3" => Some(Llama3Wrap)
    case "mistral" => Some(MistralWrap)
    case "alpaca" => Some(AlpacaWrap)
    case "chatml" => Some(ChatmlWrap)
    case "phi3" => Some(Phi3Wrap)
    case "wizard" => Some(WizardWrap)
    case _ => None
  }

  /** `start_seq + body + end_seq`. */
  function Apply(w: Wrap, body: string): (r: string)
    ensures |r| == |w.start| + |body| + |w.end|
    ensures r[..|w.start|] == w.start && r[|r| - |w.end|..] == w.end
  {
    w.start + body + w.end
  }

  /** Removes a wrap's prefix and suffix, if the text carries both. */
  function Unwrap(w: Wrap, s: string): (r: Option<string>)
    ensures r.Some? ==> Apply(w, r.value) == s
  {
    if |w.start| + |w.end| <= |s| && s[..|w.start|] == w.start && s[|s| - |w.end|..] == w.end then
      var body := s[|w.start|..|s| - |w.end|];
      assert s == s[..|w.start|] + body + s[|s| - |w.end|..];
      Some(body)
    else None
  }

  /** Removing a template's known prefix and suffix recovers what it wrapped. */
  lemma UnwrapApply(w: Wrap, body: string)
    ensures Unwrap(w, Apply(w, body)) == Some(body)
  {
    var s := Apply(w, body);
    assert s[|w.start|..|s| - |w.end|] == body;
  }

  /** Different bodies give different prompts under the same wrap. */
  lemma ApplyInjective(w: Wrap, a: string, b: string)
    requires Apply(w, a) == Apply(w, b)
    ensures a == b
  {
    UnwrapApply(w, a);
    UnwrapApply(w, b);
  }
}
