/** `llmprocessor.py`: the `FileUtils` clean-ups, the `FileCrawler` extension
    rules, the `LLMProcessor` that fits a document into the server's context
    (template, chunking, truncation, joining) and the `TaskProcessor` loop that
    records one entry per task. The KoboldCpp server, spaCy, `ftfy`,
    `json.dumps` and `json.loads(repair_json(...))` are opaque functions. */
module LlmProcessor {
  import opened Wrappers
  import opened Text
  import opened Json
  import opened Chunking
  import opened Sanitize
  import opened Files

  // ----- FileUtils.clean_json -----

  /** The text `clean_json` tries to parse: the fenced block when there is one,
      otherwise the brace span. */
  function JsonCandidate(s: string): (r: Option<string>)
    ensures FenceInterior(s).Some? ==> r == FenceInterior(s)
    ensures FenceInterior(s).None? ==> r == BraceSpan(s)
  {
    if FenceInterior(s).Some? then FenceInterior(s) else BraceSpan(s)
  }

  /** `FileUtils.clean_json`: `None` becomes `""`; a string yields the parse of
      its candidate with newlines turned into spaces, and `ftfy` of the WHOLE
      input when there is no candidate or the parse fails; anything else makes
      `re.search` raise `TypeError`. `load` is `json.loads(repair_json(.))`. */
  function CleanJson(data: Value, load: string -> Decoded, fix: string -> string): (r: Outcome<Value>)
    ensures data.Null? ==> r == Returned(Str(""))
    ensures r.Raised? <==> !data.Null? && !data.Str?
    ensures r.Raised? ==> r.error == "TypeError"
    ensures data.Str? && JsonCandidate(data.s).None? ==> r == Returned(Str(fix(data.s)))
    ensures data.Str? && JsonCandidate(data.s).Some? ==> (
      var d := load(ReplaceChar(JsonCandidate(data.s).value, '\n', ' '));
      && (d.Parsed? ==> r == Returned(d.value))
      && (d.DecodeError? ==> r == Returned(Str(fix(data.s)))))
  {
    if data.Null? then Returned(Str(""))
    else if !data.Str? then Raised("TypeError")
    else
      match JsonCandidate(data.s)
      case None => Returned(Str(fix(data.s)))
      case Some(c) =>
        match load(ReplaceChar(c, '\n', ' '))
        case Parsed(v) => Returned(v)
        case DecodeError(_) => Returned(Str(fix(data.s)))
  }

  lemma ReplaceAbsent(s: string, a: char, b: char)
    requires a !in s
    ensures ReplaceChar(s, a, b) == s
  {
  }

  /** A fenced block wins over any braces around it: a reply that fences a
      one-line body the parser accepts yields the parsed body. */
  lemma CleanJsonPrefersFence(pre: string, ws1: string, body: string, ws2: string, post: string,
                              load: string -> Decoded, fix: string -> string)
    requires NoTick(pre) && NoTick(body) && AllSpace(ws1) && AllSpace(ws2)
    requires |body| > 0 ==> !IsSpace(body[0]) && !IsSpace(body[|body| - 1])
    requires '\n' !in body && load(body).Parsed?
    ensures CleanJson(Str(pre + FenceOpen + ws1 + body + ws2 + FenceClose + post), load, fix)
      == Returned(load(body).value)
  {
    FenceFinds(pre, ws1, body, ws2, post);
    ReplaceAbsent(body, '\n', ' ');
  }

  /** Without a fence, the parser sees the span from the first `{` to the last
      `}`, newlines turned into spaces. */
  lemma CleanJsonParsesBraces(s: string, i: nat, j: nat, load: string -> Decoded, fix: string -> string)
    requires FindFrom(s, FenceOpen, 0).None?
    requires i < j < |s| && s[i] == '{' && s[j] == '}'
    requires forall k :: 0 <= k < i ==> s[k] != '{'
    requires forall k :: j < k < |s| ==> s[k] != '}'
    ensures JsonCandidate(s) == Some(s[i..j + 1])
    ensures load(ReplaceChar(s[i..j + 1], '\n', ' ')).Parsed? ==>
      CleanJson(Str(s), load, fix) == Returned(load(ReplaceChar(s[i..j + 1], '\n', ' ')).value)
  {
    BraceSpanAt(s, i, j);
  }

  /** Text with neither a fence nor a `{` is returned through `ftfy` whole. */
  lemma CleanJsonPlainText(s: string, load: string -> Decoded, fix: string -> string)
    requires FindFrom(s, FenceOpen, 0).None? && '{' !in s
    ensures CleanJson(Str(s), load, fix) == Returned(Str(fix(s)))
  {
    assert forall i :: 0 <= i < |s| ==> s[i] != '{';
    assert BraceSpan(s).None?;
  }

  // ----- FileCrawler -----

  /** `any(ext in listed(c) for c in categories)`; the crawler passes its
      table lookup `self.file_categories.get(c, [])` as `listed`. */
  function AnyListed(ext: string, categories: seq<string>, listed: string -> seq<string>): (r: bool)
    ensures r <==> exists i :: 0 <= i < |categories| && ext in listed(categories[i])
    decreases |categories|
  {
    if |categories| == 0 then false
    else if ext in listed(categories[0]) then true
    else
      var rest := AnyListed(ext, categories[1..], listed);
      assert rest <==> exists i :: 1 <= i < |categories| && ext in listed(categories[i]) by {
        assert forall i :: 1 <= i < |categories| ==> categories[i] == categories[1..][i - 1];
      }
      rest
  }

  /** `should_include_file`: no categories (`None` or empty) or `'all'` takes
      everything; otherwise the extension must be listed under one of the named
      categories. Unknown category names list nothing. */
  function ShouldIncludeFile(ext: string, categories: Option<seq<string>>): (r: bool)
    ensures categories.None? || |categories.value| == 0 || "all" in categories.value ==> r
    ensures r <==> (|| categories.None? || |categories.value| == 0 || "all" in categories.value
                    || exists i :: 0 <= i < |categories.value| && ext in Listed(categories.value[i]))
  {
    if categories.None? || |categories.value| == 0 || "all" in categories.value then true
    else AnyListed(ext, categories.value, Listed)
  }

  /** A file let in by a named category is filed under a real category, never
      under `"other"`. */
  lemma IncludedHasCategory(ext: string, categories: seq<string>)
    requires |categories| > 0 && "all" !in categories
    requires ShouldIncludeFile(ext, Some(categories))
    ensures GetFileCategory(ext) != "other"
  {
    var i :| 0 <= i < |categories| && ext in Listed(categories[i]);
    var m :| 0 <= m < |Categories| && Categories[m] == (categories[i], Listed(categories[i]));
    assert ext in Categories[m].1;
  }

  /** An unknown category name lets nothing in on its own. */
  lemma UnknownCategoryExcludes(ext: string)
    ensures !ShouldIncludeFile(ext, Some(["music"]))
  {
    assert forall i :: 0 <= i < |Categories| ==> Categories[i].0 != "music";
    assert Listed("music") == [];
  }

  /** How many copies of `c` the string starts with. */
  function Leading(s: string, c: char): (k: nat)
    ensures k <= |s|
    ensures forall m :: 0 <= m < k ==> s[m] == c
    ensures k < |s| ==> s[k] != c
    decreases |s|
  {
    if |s| > 0 && s[0] == c then 1 + Leading(s[1..], c) else 0
  }

  /** Python's `s.lstrip(c)`: a suffix whose dropped prefix is all `c` and
      which does not itself start with `c`. */
  function LStripChar(s: string, c: char): (r: string)
    ensures exists k :: 0 <= k <= |s| && r == s[k..] && forall m :: 0 <= m < k ==> s[m] == c
    ensures |r| > 0 ==> r[0] != c
  {
    s[Leading(s, c)..]
  }

  /** The extension `crawl` classifies: `splitext(file)[1].lower().lstrip('.')`,
      the lower-cased extension without its dot. */
  function CrawlExtension(file: string): string {
    LStripChar(Lower(Ext(file)), '.')
  }

  /** The classified extension has no dot: it is empty for a file without an
      extension and otherwise the lower-cased extension after its dot. */
  lemma CrawlExtensionSpec(file: string)
    ensures '.' !in CrawlExtension(file)
    ensures Ext(file) == "" ==> CrawlExtension(file) == ""
    ensures Ext(file) != "" ==> CrawlExtension(file) == Lower(Ext(file))[1..]
  {
    var x := Ext(file);
    var e := Lower(x);
    if x != "" {
      assert e[0] == '.';
      assert forall k :: 1 <= k < |e| ==> e[k] != '.' by {
        forall k | 1 <= k < |e| ensures e[k] != '.' {
          assert x[k] == x[1..][k - 1];
        }
      }
      assert Leading(e, '.') == 1 by {
        assert Leading(e[1..], '.') == 0;
      }
    }
  }

  lemma CrawlExtensionOfUpperPdf()
    ensures CrawlExtension("report.PDF") == "pdf"
  {
    ExtAt("report.PDF", 6);
    LowerPdf();
    CrawlExtensionSpec("report.PDF");
    assert ".pdf"[1..] == "pdf";
  }

  // ----- LLMProcessor.get_template -----

  /** `template.get(name, '')`. */
  function Field(t: map<string, string>, name: string): string {
    if name in t then t[name] else ""
  }

  /** The fields `get_template` writes before the content: `prependPrompt` and
      the opening of the system part. */
  function Lead(t: map<string, string>): string {
    Field(t, "prependPrompt") + Field(t, "bos") + Field(t, "startTurn") + Field(t, "startSystem") +
    Field(t, "systemRole") + Field(t, "systemAfterPrepend")
  }

  /** The fields between the content and the instruction: the close of the
      system part and the opening of the user part. */
  function Middle(t: map<string, string>): string {
    Field(t, "endSystemRole") + Field(t, "memorySystem") + Field(t, "endSystemTurn") +
    Field(t, "startTurn") + Field(t, "startUser") + Field(t, "userRole") + Field(t, "roleGap") +
    Field(t, "memoryUser")
  }

  /** The fields after the instruction: the close of the user part, the
      assistant part and the closing fields. */
  function Tail(t: map<string, string>): string {
    Field(t, "endUserRole") + Field(t, "endUserTurn") +
    Field(t, "startTurn") + Field(t, "startAssistant") + Field(t, "assistantRole") + Field(t, "roleGap") +
    Field(t, "responseStart") +
    Field(t, "postPrompt") + Field(t, "endTurn") + Field(t, "eos")
  }

  /** Everything before the content: the lead fields and the opening tag. */
  function Opening(t: map<string, string>): string {
    Lead(t) + "<text>"
  }

  /** Everything after the content: the closing tag, the middle fields, the
      instruction and the tail fields. */
  function Closing(t: map<string, string>, instruction: string): string {
    "</text>" + Middle(t) + instruction + Tail(t)
  }

  /** `get_template`: the template's fields in their fixed order, missing ones
      read as `""`, with the content in `<text>` tags before the instruction;
      `rstrip` only when `specialInstructions` is exactly `".rstrip()"`. */
  function GetTemplate(t: map<string, string>, instruction: string, content: string): (r: string)
    ensures Field(t, "specialInstructions") != ".rstrip()" ==> r == Opening(t) + content + Closing(t, instruction)
    ensures Field(t, "specialInstructions") == ".rstrip()" ==> r == RStrip(Opening(t) + content + Closing(t, instruction))
  {
    var prompt := Opening(t) + content + Closing(t, instruction);
    if Field(t, "specialInstructions") == ".rstrip()" then RStrip(prompt) else prompt
  }

  /** With an empty template the prompt is exactly the tagged content followed
      by the instruction. */
  lemma GetTemplateEmpty(instruction: string, content: string)
    ensures GetTemplate(map[], instruction, content) == "<text>" + content + "</text>" + instruction
  {
    assert Lead(map[]) == "" && Middle(map[]) == "" && Tail(map[]) == "";
    assert Opening(map[]) == "<text>" && Closing(map[], instruction) == "</text>" + instruction;
  }

  /** Without `rstrip`, the prompt carries the content whole: two contents give
      the same prompt only if they are equal. */
  lemma GetTemplateInjective(t: map<string, string>, instruction: string, a: string, b: string)
    requires Field(t, "specialInstructions") != ".rstrip()"
    requires GetTemplate(t, instruction, a) == GetTemplate(t, instruction, b)
    ensures a == b
  {
    Sandwich(Opening(t), a, b, Closing(t, instruction));
  }

  /** The middle of `pre + x + post` is determined by the whole. */
  lemma Sandwich(pre: string, a: string, b: string, post: string)
    requires pre + a + post == pre + b + post
    ensures a == b
  {
    assert |a| == |b|;
    assert a == (pre + a + post)[|pre|..|pre| + |a|];
    assert b == (pre + b + post)[|pre|..|pre| + |b|];
  }

  // ----- LLMProcessor.process_text -----

  /** `prompt_config`: none, a path that does not exist, or an existing file
      together with what `read_from_json` made of it. */
  datatype PromptConfig = NoConfig | MissingFile | ConfigFile(loaded: Value)

  /** The system prompt of the default Alpaca-style chat template. */
  const AlpacaSystemRole: string := "Below is an instruction that describes a task. Write a response that appropriately completes the request."

  /** The chat template `process_text` settles on. Without a config it is the
      built-in Alpaca-style template; a missing file leaves the empty template
      of the constructor; an existing file fails on the undefined name `model`
      (or earlier, on `.get`, when the file does not hold a JSON object). */
  function ChatTemplate(config: PromptConfig): (r: Outcome<map<string, string>>)
    ensures r.Raised? <==> config.ConfigFile?
    ensures config.ConfigFile? ==> r.error == if config.loaded.Dict? then "NameError" else "AttributeError"
    ensures config.MissingFile? ==> r == Returned(map[])
    ensures config.NoConfig? ==> (r.Returned? && Field(r.value, "systemRole") == AlpacaSystemRole &&
      Field(r.value, "specialInstructions") == "")
  {
    match config
    case NoConfig =>
      Returned(map[
        "startTurn" := "", "endSystemTurn" := "", "endUserTurn" := "\n\n", "endTurn" := "\n\n",
        "systemRole" := AlpacaSystemRole,
        "userRole" := "### Instruction:", "assistantRole" := "### Response:", "prependPrompt" := "\n\n",
        "systemAfterPrepend" := "", "postPrompt" := "", "memorySystem" := "", "memoryUser" := "",
        "responseStart" := "", "specialInstructions" := ""])
    case MissingFile => Returned(map[])
    case ConfigFile(loaded) => if loaded.Dict? then Raised("NameError") else Raised("AttributeError")
  }

  /** The processor and the services it calls: `count` is `get_token_count`
      (`None` on a non-200 reply, `0` when the request fails), `maxContext` is
      `get_max_context` (the same shape), `call` is `_call_api` on a payload
      (`None` when it fails), `quote` is `json.dumps` of a string, `show` is
      `str` of a non-string value, `segment` the sentencizer, `fix` `ftfy`. */
  datatype Processor = Processor(
    chunkSize: int,
    genkey: string,
    config: PromptConfig,
    count: string -> Option<nat>,
    maxContext: Option<nat>,
    call: seq<(Key, Value)> -> Option<string>,
    quote: string -> string,
    show: Value -> string,
    segment: string -> seq<string>,
    fix: string -> string)

  /** `max(1, int(tokens / len(sentences)))`: the average sentence length in
      tokens, at least one. */
  function AverageTokens(tokens: nat, n: nat): (r: nat)
    requires n > 0
    ensures r >= 1
    ensures r == 1 || r * n <= tokens
    ensures tokens < (r + 1) * n
  {
    var q := TruncDiv(tokens, n);
    QuotientStep(tokens, n, q);
    if q >= 1 then q else 1
  }

  /** `max(1, int(self.chunk_size / avg))`: the sentences per chunk. */
  function PerChunk(chunkSize: int, avg: nat): (r: nat)
    requires avg >= 1
    ensures r >= 1
    ensures r == 1 || r * avg <= chunkSize
    ensures chunkSize < (r + 1) * avg
  {
    var q := TruncDiv(chunkSize, avg);
    QuotientStep(chunkSize, avg, q);
    if q >= 1 then q else 1
  }

  /** The selection policy of `chunkify`: every chunk when `num_chunks` is not
      positive or not below the chunk count, only the first for one, and
      otherwise the first followed by `num_chunks - 1` distinct later chunks
      drawn by `random.sample` (the `call`-th draw of the run). */
  function SelectChunks(chunks: seq<string>, numChunks: int, sampler: Sampler, call: nat): (r: seq<string>)
    requires |chunks| >= 1 && ValidSampler(sampler)
    ensures numChunks <= 0 || numChunks >= |chunks| ==> r == chunks
    ensures numChunks == 1 ==> r == [chunks[0]]
    ensures 1 < numChunks < |chunks| ==> (|r| == numChunks &&
      exists picks :: ValidSample(picks, |chunks| - 1, numChunks - 1) && r == LeadPlusSample(chunks, picks))
  {
    if numChunks > 0 then
      if numChunks >= |chunks| then chunks
      else if numChunks > 1 then
        var picks := sampler.draw(call, |chunks| - 1, numChunks - 1);
        assert ValidSample(picks, |chunks| - 1, numChunks - 1);
        LeadPlusSample(chunks, picks)
      else [chunks[0]]
    else chunks
  }

  /** Whatever the policy, the first chunk leads and the count kept is
      `num_chunks` capped by the chunk count, or all of them. */
  lemma SelectKeepsLead(chunks: seq<string>, numChunks: int, sampler: Sampler, call: nat)
    requires |chunks| >= 1 && ValidSampler(sampler)
    ensures var r := SelectChunks(chunks, numChunks, sampler, call);
      && |r| >= 1 && r[0] == chunks[0]
      && |r| == (if numChunks <= 0 then |chunks| else Min(numChunks, |chunks|))
      && forall i :: 0 <= i < |r| ==> r[i] in chunks
  {
    var r := SelectChunks(chunks, numChunks, sampler, call);
    if 1 < numChunks < |chunks| {
      var picks :| ValidSample(picks, |chunks| - 1, numChunks - 1) && r == LeadPlusSample(chunks, picks);
      forall i | 0 <= i < |r| ensures r[i] in chunks {
        if i > 0 {
          assert r[i] == chunks[1 + picks[i - 1]];
        }
      }
    }
  }

  /** `chunkify` on the cleaned content, whose count `tokens` is already known
      (the recount under `if not self.tokens` asks the same question again and
      gets the same answer). No sentence divides by zero; a missing
      `num_chunks` fails the `>` comparison. The `except` branch is dead:
      the average is at least one. */
  function Chunkify(p: Processor, content: string, tokens: nat, numChunks: Option<int>,
                    sampler: Sampler, call: nat): (r: Outcome<seq<string>>)
    requires ValidSampler(sampler)
    ensures r == Raised("ZeroDivisionError") <==> |p.segment(content)| == 0
    ensures r == Raised("TypeError") <==> |p.segment(content)| > 0 && numChunks.None?
    ensures r.Raised? ==> r.error == "ZeroDivisionError" || r.error == "TypeError"
    ensures r.Returned? ==> (
      var sentences := p.segment(content);
      var spc := PerChunk(p.chunkSize, AverageTokens(tokens, |sentences|));
      && |sentences| > 0 && numChunks.Some?
      && r.value == SelectChunks(ChunkTexts(sentences, spc), numChunks.value, sampler, call)
      && |r.value| >= 1 && r.value[0] == Join(" ", sentences[..Min(spc, |sentences|)]))
  {
    var sentences := p.segment(content);
    if |sentences| == 0 then Raised("ZeroDivisionError")
    else
      var spc := PerChunk(p.chunkSize, AverageTokens(tokens, |sentences|));
      var chunks := ChunkTexts(sentences, spc);
      match numChunks
      case None => Raised("TypeError")
      case Some(n) =>
        SelectKeepsLead(chunks, n, sampler, call);
        Returned(SelectChunks(chunks, n, sampler, call))
  }

  /** `r` is chosen, for `num_chunks == n`, from the chunks that cut the
      sentences in order into `ceil(#sentences / spc)` runs of `spc`: the
      first of them followed by others, `min(n, #chunks)` in all for a
      positive `n`, and all of them, in order, when `n` is at most zero or at
      least their count. */
  ghost predicate ChunkChoice(sentences: seq<string>, spc: nat, n: int, r: seq<string>) {
    && spc >= 1
    && exists chunks :: (
      && ChunkedBy(sentences, spc, chunks)
      && |chunks| == (|sentences| + spc - 1) / spc
      && |r| == (if n <= 0 then |chunks| else Min(n, |chunks|))
      && 0 < |r| && r[0] == chunks[0]
      && (forall i :: 0 <= i < |r| ==> r[i] in chunks)
      && (n <= 0 || n >= |chunks| ==> r == chunks))
  }

  /** What `chunkify` returns is such a choice, with `spc` fixed by the
      average token count. */
  lemma ChunkifyPartition(p: Processor, content: string, tokens: nat, n: int, sampler: Sampler, call: nat)
    requires ValidSampler(sampler)
    requires Chunkify(p, content, tokens, Some(n), sampler, call).Returned?
    ensures var sentences := p.segment(content);
      var spc := PerChunk(p.chunkSize, AverageTokens(tokens, |sentences|));
      ChunkChoice(sentences, spc, n, Chunkify(p, content, tokens, Some(n), sampler, call).value)
  {
    var sentences := p.segment(content);
    var spc := PerChunk(p.chunkSize, AverageTokens(tokens, |sentences|));
    assert Chunkify(p, content, tokens, Some(n), sampler, call).value == SelectChunks(ChunkTexts(sentences, spc), n, sampler, call);
    SelectPartition(sentences, spc, n, sampler, call);
  }

  /** The selection policy applied to the chunks of `sentences`. */
  lemma SelectPartition(sentences: seq<string>, spc: nat, n: int, sampler: Sampler, call: nat)
    requires ValidSampler(sampler) && spc >= 1 && |sentences| > 0
    ensures ChunkChoice(sentences, spc, n, SelectChunks(ChunkTexts(sentences, spc), n, sampler, call))
  {
    var chunks := ChunkTexts(sentences, spc);
    ChunkTextsPartition(sentences, spc);
    SelectKeepsLead(chunks, n, sampler, call);
  }

  /** With `num_chunks` at most zero every sentence is sent, in order. */
  lemma ChunkifyAll(p: Processor, content: string, tokens: nat, n: int, sampler: Sampler, call: nat)
    requires ValidSampler(sampler) && n <= 0
    requires Chunkify(p, content, tokens, Some(n), sampler, call).Returned?
    ensures Join(" ", Chunkify(p, content, tokens, Some(n), sampler, call).value) == Join(" ", p.segment(content))
  {
  }

  /** `f"{task.get('instruction')}"`. */
  function InstructionText(p: Processor, v: Option<Value>): (r: string)
    ensures v.Some? && v.value.Str? ==> r == v.value.s
    ensures v.None? || v == Some(Null) ==> r == "None"
  {
    match v
    case None => "None"
    case Some(Null) => "None"
    case Some(Str(s)) => s
    case Some(other) => p.show(other)
  }

  /** The prompt sent for one chunk: the template around it, cut to its first
      `max_context_length` characters when its token count is over that. A
      failed count cannot be compared and raises `TypeError`. */
  function ChunkPrompt(p: Processor, template: map<string, string>, instruction: string, maxContext: nat,
                       chunk: string): (r: Outcome<string>)
    ensures r.Raised? <==> p.count(GetTemplate(template, instruction, chunk)).None?
    ensures r.Raised? ==> r.error == "TypeError"
    ensures r.Returned? ==> (
      var full := GetTemplate(template, instruction, chunk);
      && |r.value| <= |full| && r.value == full[..|r.value|]
      && (p.count(full).value <= maxContext ==> r.value == full)
      && (p.count(full).value > maxContext ==> |r.value| == Min(maxContext, |full|)))
  {
    var full := GetTemplate(template, instruction, chunk);
    match p.count(full)
    case None => Raised("TypeError")
    case Some(n) => if n > maxContext then Returned(full[..Min(maxContext, |full|)]) else Returned(full)
  }

  /** The payload for one prompt: the prompt, the processor's chunk size as
      `max_length`, the context as `max_context_length`, then the task's
      parameters on top. */
  function Payload(p: Processor, prompt: string, maxContext: nat, params: seq<(Key, Value)>): seq<(Key, Value)> {
    Overlay([(StrKey("prompt"), Str(prompt)), (StrKey("max_length"), Num(p.chunkSize)),
             (StrKey("max_context_length"), Num(maxContext))], params)
  }

  /** What the payload says about the budget: `max_length` is the chunk size and
      `max_context_length` the server's context, unless a parameter of the
      same name replaces it. */
  lemma PayloadBudget(p: Processor, prompt: string, maxContext: nat, params: seq<(Key, Value)>)
    requires DistinctKeys(params)
    ensures !HasKey(params, StrKey("max_length")) ==>
      Get(Payload(p, prompt, maxContext, params), StrKey("max_length")) == Some(Num(p.chunkSize))
    ensures !HasKey(params, StrKey("max_context_length")) ==>
      Get(Payload(p, prompt, maxContext, params), StrKey("max_context_length")) == Some(Num(maxContext))
    ensures !HasKey(params, StrKey("prompt")) ==>
      Get(Payload(p, prompt, maxContext, params), StrKey("prompt")) == Some(Str(prompt))
    ensures HasKey(params, StrKey("max_length")) ==>
      Get(Payload(p, prompt, maxContext, params), StrKey("max_length")) == Get(params, StrKey("max_length"))
  {
    var base := [(StrKey("prompt"), Str(prompt)), (StrKey("max_length"), Num(p.chunkSize)),
                 (StrKey("max_context_length"), Num(maxContext))];
    OverlayGet(base, params, StrKey("max_length"));
    OverlayGet(base, params, StrKey("max_context_length"));
    OverlayGet(base, params, StrKey("prompt"));
    BaseReads(base, prompt, p.chunkSize, maxContext);
  }

  lemma BaseReads(base: seq<(Key, Value)>, prompt: string, chunkSize: int, maxContext: nat)
    requires base == [(StrKey("prompt"), Str(prompt)), (StrKey("max_length"), Num(chunkSize)),
                      (StrKey("max_context_length"), Num(maxContext))]
    ensures Get(base, StrKey("prompt")) == Some(Str(prompt))
    ensures Get(base, StrKey("max_length")) == Some(Num(chunkSize))
    ensures Get(base, StrKey("max_context_length")) == Some(Num(maxContext))
  {
    assert DistinctKeys(base);
    GetAt(base, 0);
    GetAt(base, 1);
    GetAt(base, 2);
  }

  /** One pass of the chunk loop: the reply to the chunk's payload (with the
      correlation key that `_call_api` adds), `None` when the call fails. */
  function ChunkReply(p: Processor, template: map<string, string>, task: seq<(Key, Value)>, maxContext: nat,
                      chunk: string): (r: Outcome<Option<string>>)
    ensures r.Raised? <==> ChunkPrompt(p, template, InstructionText(p, Get(task, StrKey("instruction"))), maxContext, chunk).Raised?
                           || Parameters(task).Raised?
    ensures r.Raised? ==> r.error == "TypeError"
    ensures r.Returned? ==> r.value == p.call(Put(
      Payload(p, ChunkPrompt(p, template, InstructionText(p, Get(task, StrKey("instruction"))), maxContext, chunk).value,
              maxContext, Parameters(task).value), StrKey("genkey"), Str(p.genkey)))
  {
    match ChunkPrompt(p, template, InstructionText(p, Get(task, StrKey("instruction"))), maxContext, chunk)
    case Raised(e) => Raised(e)
    case Returned(prompt) =>
      match Parameters(task)
      case Raised(e) => Raised(e)
      case Returned(params) =>
        Returned(p.call(Put(Payload(p, prompt, maxContext, params), StrKey("genkey"), Str(p.genkey))))
  }

  /** The replies that arrived, in order. */
  function Successes(replies: seq<Option<string>>): (r: seq<string>)
    ensures |r| <= |replies|
    ensures r == [] <==> forall i :: 0 <= i < |replies| ==> replies[i].None?
    decreases |replies|
  {
    if |replies| == 0 then []
    else (if replies[0].Some? then [replies[0].value] else []) + Successes(replies[1..])
  }

  /** Keeping the arrived replies is an order-preserving filter: it splits over
      concatenation. */
  lemma {:induction false} SuccessesAppend(a: seq<Option<string>>, b: seq<Option<string>>)
    ensures Successes(a + b) == Successes(a) + Successes(b)
    decreases |a|
  {
    if |a| > 0 {
      assert (a + b)[1..] == a[1..] + b;
      SuccessesAppend(a[1..], b);
    } else {
      assert a + b == b;
    }
  }

  /** The chunk loop: every chunk's reply, the failed ones skipped, or the
      first exception, which ends the loop. */
  function Gather(replies: seq<Outcome<Option<string>>>): Outcome<seq<string>>
    decreases |replies|
  {
    if |replies| == 0 then Returned([])
    else
      match replies[0]
      case Raised(e) => Raised(e)
      case Returned(o) =>
        match Gather(replies[1..])
        case Raised(e) => Raised(e)
        case Returned(ts) => Returned((if o.Some? then [o.value] else []) + ts)
  }

  /** The loop raises exactly when some reply raised, and then with the first
      such exception; otherwise it keeps the replies that arrived, in order. */
  lemma {:induction false} GatherSpec(replies: seq<Outcome<Option<string>>>)
    ensures var r := Gather(replies);
      && (r.Raised? <==> exists i :: 0 <= i < |replies| && replies[i].Raised?)
      && (r.Raised? ==> exists i :: (0 <= i < |replies| && replies[i] == Raised(r.error) &&
            forall j :: 0 <= j < i ==> replies[j].Returned?))
      && (r.Returned? ==> r.value == Successes(seq(|replies|, i requires 0 <= i < |replies| => replies[i].value)))
    decreases |replies|
  {
    if |replies| > 0 {
      var rest := replies[1..];
      GatherSpec(rest);
      assert forall i :: 1 <= i < |replies| ==> replies[i] == rest[i - 1];
      if replies[0].Returned? {
        var g := Gather(rest);
        if g.Raised? {
          var i :| (0 <= i < |rest| && rest[i] == Raised(g.error) &&
            forall j :: 0 <= j < i ==> rest[j].Returned?);
          assert replies[i + 1] == Raised(g.error);
        } else {
          var all := seq(|replies|, i requires 0 <= i < |replies| => replies[i].value);
          assert all[1..] == seq(|rest|, i requires 0 <= i < |rest| => rest[i].value);
        }
      }
    }
  }

  /** What `process_text` sends: the whole cleaned content as one chunk when its
      count leaves 100 tokens of room, and `None` (nothing sent) in that case
      if `num_chunks` is zero; otherwise the chunks `chunkify` selects. */
  function PlanChunks(p: Processor, cleaned: string, tokens: nat, maxContext: nat, numChunks: Option<int>,
                      sampler: Sampler, call: nat): (r: Outcome<Option<seq<string>>>)
    requires ValidSampler(sampler)
    ensures tokens + 100 < maxContext ==>
      r == Returned(if numChunks == Some(0) then None else Some([cleaned]))
    ensures tokens + 100 >= maxContext ==> (
      var c := Chunkify(p, cleaned, tokens, numChunks, sampler, call);
      && (r.Raised? <==> c.Raised?)
      && (r.Raised? ==> r.error == "ZeroDivisionError" || r.error == "TypeError")
      && (r.Returned? ==> r.value == Some(c.value)))
  {
    if tokens + 100 < maxContext then
      if numChunks == Some(0) then Returned(None) else Returned(Some([cleaned]))
    else
      match Chunkify(p, cleaned, tokens, numChunks, sampler, call)
      case Raised(e) => Raised(e)
      case Returned(cs) => Returned(Some(cs))
  }

  /** The replies to the chunks, one per chunk, in chunk order. */
  function ChunkReplies(p: Processor, template: map<string, string>, task: seq<(Key, Value)>, maxContext: nat,
                        chunks: seq<string>): (r: seq<Outcome<Option<string>>>)
    ensures |r| == |chunks|
    ensures forall i :: 0 <= i < |chunks| ==> r[i] == ChunkReply(p, template, task, maxContext, chunks[i])
  {
    seq(|chunks|, i requires 0 <= i < |chunks| => ChunkReply(p, template, task, maxContext, chunks[i]))
  }

  /** `process_text` once the chat template is settled: nothing sent when the
      content fits and `num_chunks` is zero, otherwise the replies that
      arrived joined with spaces in chunk order, and `None` when none did. A
      failed count or context query cannot be compared and raises
      `TypeError`. */
  function ProcessWith(p: Processor, template: map<string, string>, content: Option<string>,
                       task: seq<(Key, Value)>, numChunks: Option<int>, sampler: Sampler, call: nat)
    : Outcome<Option<string>>
    requires ValidSampler(sampler)
  {
    var cleaned := CleanText(p.fix, content);
    match p.count(p.quote(cleaned))
    case None => Raised("TypeError")
    case Some(tokens) =>
      match p.maxContext
      case None => Raised("TypeError")
      case Some(maxContext) =>
        match PlanChunks(p, cleaned, tokens, maxContext, numChunks, sampler, call)
        case Raised(e) => Raised(e)
        case Returned(None) => Returned(None)
        case Returned(Some(chunks)) =>
          Answer(Gather(ChunkReplies(p, template, task, maxContext, chunks)))
  }

  /** The replies that arrived, joined with spaces; `None` when none did. */
  function Answer(g: Outcome<seq<string>>): Outcome<Option<string>> {
    match g
    case Raised(e) => Raised(e)
    case Returned(texts) => if texts == [] then Returned(None) else Returned(Some(Join(" ", texts)))
  }

  /** Only a failed count or context query (`TypeError`), an empty sentence
      list (`ZeroDivisionError`) or a missing `num_chunks` (`TypeError`) ends
      the call with an exception. */
  lemma ProcessWithErrors(p: Processor, template: map<string, string>, content: Option<string>,
                          task: seq<(Key, Value)>, numChunks: Option<int>, sampler: Sampler, call: nat)
    requires ValidSampler(sampler)
    ensures var r := ProcessWith(p, template, content, task, numChunks, sampler, call);
      r.Raised? ==> r.error == "TypeError" || r.error == "ZeroDivisionError"
  {
    var cleaned := CleanText(p.fix, content);
    var tokens := p.count(p.quote(cleaned));
    if tokens.None? || p.maxContext.None? {
      ProcessWithUnmeasured(p, template, content, task, numChunks, sampler, call);
    } else {
      var plan := PlanChunks(p, cleaned, tokens.value, p.maxContext.value, numChunks, sampler, call);
      if plan.Raised? || plan.value.None? {
        ProcessWithUnplanned(p, template, content, task, numChunks, sampler, call);
      } else {
        ProcessWithPlanned(p, template, content, task, numChunks, sampler, call, plan.value.value);
        RepliesRaiseTypeError(p, template, task, p.maxContext.value, plan.value.value);
      }
    }
  }

  /** When planning raises or yields nothing, the call does the same. */
  lemma ProcessWithUnplanned(p: Processor, template: map<string, string>, content: Option<string>,
                             task: seq<(Key, Value)>, numChunks: Option<int>, sampler: Sampler, call: nat)
    requires ValidSampler(sampler)
    requires p.count(p.quote(CleanText(p.fix, content))).Some? && p.maxContext.Some?
    ensures var plan := PlanChunks(p, CleanText(p.fix, content), p.count(p.quote(CleanText(p.fix, content))).value,
                                   p.maxContext.value, numChunks, sampler, call);
      var r := ProcessWith(p, template, content, task, numChunks, sampler, call);
      && (plan.Raised? ==> r == Raised(plan.error))
      && (plan == Returned(None) ==> r == Returned(None))
  {
  }

  /** Without a token count or a context length the call raises `TypeError`. */
  lemma ProcessWithUnmeasured(p: Processor, template: map<string, string>, content: Option<string>,
                              task: seq<(Key, Value)>, numChunks: Option<int>, sampler: Sampler, call: nat)
    requires ValidSampler(sampler)
    requires p.count(p.quote(CleanText(p.fix, content))).None? || p.maxContext.None?
    ensures ProcessWith(p, template, content, task, numChunks, sampler, call) == Raised("TypeError")
  {
  }

  /** A request that fails fails with `TypeError`, so the loop does too. */
  lemma RepliesRaiseTypeError(p: Processor, template: map<string, string>, task: seq<(Key, Value)>,
                              maxContext: nat, chunks: seq<string>)
    ensures var g := Gather(ChunkReplies(p, template, task, maxContext, chunks));
      g.Raised? ==> g.error == "TypeError"
  {
    var replies := ChunkReplies(p, template, task, maxContext, chunks);
    var g := Gather(replies);
    GatherSpec(replies);
    if g.Raised? {
      var i :| 0 <= i < |replies| && replies[i] == Raised(g.error) && forall j :: 0 <= j < i ==> replies[j].Returned?;
      assert replies[i] == ChunkReply(p, template, task, maxContext, chunks[i]);
    }
  }

  /** Once the chunks are planned, the answer is what the loop over them gives. */
  lemma ProcessWithPlanned(p: Processor, template: map<string, string>, content: Option<string>,
                           task: seq<(Key, Value)>, numChunks: Option<int>, sampler: Sampler, call: nat,
                           chunks: seq<string>)
    requires ValidSampler(sampler)
    requires p.count(p.quote(CleanText(p.fix, content))).Some? && p.maxContext.Some?
    requires PlanChunks(p, CleanText(p.fix, content), p.count(p.quote(CleanText(p.fix, content))).value,
                        p.maxContext.value, numChunks, sampler, call) == Returned(Some(chunks))
    ensures ProcessWith(p, template, content, task, numChunks, sampler, call) ==
      Answer(Gather(ChunkReplies(p, template, task, p.maxContext.value, chunks)))
  {
  }

  /** An answer comes from a plan that succeeded: none when nothing was to be
      sent, otherwise the replies that arrived, joined with spaces, or none
      when no reply arrived. */
  lemma ProcessWithReturned(p: Processor, template: map<string, string>, content: Option<string>,
                            task: seq<(Key, Value)>, numChunks: Option<int>, sampler: Sampler, call: nat)
    requires ValidSampler(sampler)
    requires ProcessWith(p, template, content, task, numChunks, sampler, call).Returned?
    ensures var r := ProcessWith(p, template, content, task, numChunks, sampler, call);
      var cleaned := CleanText(p.fix, content);
      var tokens := p.count(p.quote(cleaned));
      && tokens.Some? && p.maxContext.Some?
      && var plan := PlanChunks(p, cleaned, tokens.value, p.maxContext.value, numChunks, sampler, call);
      && plan.Returned?
      && (plan.value.None? ==> r.value.None?)
      && (plan.value.Some? ==> (
        var g := Gather(ChunkReplies(p, template, task, p.maxContext.value, plan.value.value));
        && g.Returned?
        && (r.value.None? <==> g.value == [])
        && (r.value.Some? ==> r.value.value == Join(" ", g.value))))
  {
  }

  /** `LLMProcessor.process_text`: the chat template is settled first (an
      existing prompt config file raises), then a missing task gives `None`. */
  function ProcessText(p: Processor, content: Option<string>, task: Option<seq<(Key, Value)>>, numChunks: Option<int>,
                       sampler: Sampler, call: nat): (r: Outcome<Option<string>>)
    requires ValidSampler(sampler)
    ensures p.config.ConfigFile? ==> r.Raised? && (r.error == "NameError" || r.error == "AttributeError")
    ensures !p.config.ConfigFile? && task.None? ==> r == Returned(None)
    ensures !p.config.ConfigFile? && task.Some? ==>
      r == ProcessWith(p, ChatTemplate(p.config).value, content, task.value, numChunks, sampler, call)
  {
    match ChatTemplate(p.config)
    case Raised(e) => Raised(e)
    case Returned(template) =>
      match task
      case None => Returned(None)
      case Some(t) => ProcessWith(p, template, content, t, numChunks, sampler, call)
  }

  /** Content that fits is sent whole, once: the answer is that one reply. */
  lemma ProcessFits(p: Processor, template: map<string, string>, content: Option<string>, task: seq<(Key, Value)>,
                    numChunks: Option<int>, sampler: Sampler, call: nat)
    requires ValidSampler(sampler)
    requires p.count(p.quote(CleanText(p.fix, content))).Some? && p.maxContext.Some?
    requires p.count(p.quote(CleanText(p.fix, content))).value + 100 < p.maxContext.value
    requires numChunks != Some(0)
    ensures var reply := ChunkReply(p, template, task, p.maxContext.value, CleanText(p.fix, content));
      ProcessWith(p, template, content, task, numChunks, sampler, call) ==
        if reply.Raised? then Raised(reply.error) else Returned(reply.value)
  {
    var cleaned := CleanText(p.fix, content);
    var tokens := p.count(p.quote(cleaned)).value;
    var maxContext := p.maxContext.value;
    assert PlanChunks(p, cleaned, tokens, maxContext, numChunks, sampler, call) == Returned(Some([cleaned]));
    ProcessWithPlanned(p, template, content, task, numChunks, sampler, call, [cleaned]);
    var reply := ChunkReply(p, template, task, maxContext, cleaned);
    assert ChunkReplies(p, template, task, maxContext, [cleaned]) == [reply];
    AnswerOne(reply);
  }

  /** A single reply is the answer: its failure, or its text if any. */
  lemma AnswerOne(reply: Outcome<Option<string>>)
    ensures Answer(Gather([reply])) == if reply.Raised? then Raised(reply.error) else Returned(reply.value)
  {
    GatherOne(reply);
  }

  /** The loop over a single chunk. */
  lemma GatherOne(reply: Outcome<Option<string>>)
    ensures Gather([reply]) ==
      if reply.Raised? then Raised(reply.error)
      else Returned(if reply.value.Some? then [reply.value.value] else [])
  {
    assert [reply][1..] == [];
    assert Gather([]) == Returned([]);
    GatherSpec([reply]);
    if reply.Returned? {
      var all := seq(1, i requires 0 <= i < 1 => [reply][i].value);
      assert all == [reply.value];
      assert all[1..] == [];
      var x: seq<string> := if reply.value.Some? then [reply.value.value] else [];
      assert x + [] == x;
      assert Successes(all) == x + Successes([]);
    }
  }

  /** When the content fits but `num_chunks` is zero, nothing is sent. */
  lemma ProcessFitsZero(p: Processor, template: map<string, string>, content: Option<string>,
                        task: seq<(Key, Value)>, sampler: Sampler, call: nat)
    requires ValidSampler(sampler)
    requires p.count(p.quote(CleanText(p.fix, content))).Some? && p.maxContext.Some?
    requires p.count(p.quote(CleanText(p.fix, content))).value + 100 < p.maxContext.value
    ensures ProcessWith(p, template, content, task, Some(0), sampler, call) == Returned(None)
  {
  }

  // ----- TaskProcessor.process_tasks -----

  /** The entry one task leaves in the result. `run` is `process_text` on the
      document for a task's settings, its `num_chunks` and the task's index.
      An unknown task is marked; an empty task configuration calls nothing and
      cleans whatever the result already holds under the name; every exception
      becomes an error entry. */
  function TaskEntry(run: (seq<(Key, Value)>, Option<int>, nat) -> Outcome<Option<string>>, config: Value,
                     result: seq<(Key, Value)>, task: string, call: nat,
                     load: string -> Decoded, fix: string -> string): (v: Value)
    ensures ConfigHas(config, task) == Returned(false) ==> v == Str("Invalid task")
    ensures ConfigHas(config, task).Raised? ==> v == ErrorEntry("TypeError")
    ensures !config.Dict? && ConfigHas(config, task) == Returned(true) ==> v == ErrorEntry("AttributeError")
    ensures config.Dict? && HasKey(config.entries, StrKey(task)) ==> (
      var tc := Get(config.entries, StrKey(task)).value;
      && (!tc.Dict? ==> v == ErrorEntry("AttributeError"))
      && (tc.Dict? && |tc.entries| > 0 ==> (
        var out := run(tc.entries, NumChunksOf(Get(tc.entries, StrKey("num_chunks"))), call);
        && (out.Raised? ==> v == ErrorEntry(out.error))
        && (out == Returned(None) ==> v == Str(""))
        && (out.Returned? && out.value.Some? ==>
              CleanJson(Str(out.value.value), load, fix).Returned? &&
              v == CleanJson(Str(out.value.value), load, fix).value)))
      && (tc.Dict? && |tc.entries| == 0 && !HasKey(result, StrKey(task)) ==> v == ErrorEntry("KeyError"))
      && (tc.Dict? && |tc.entries| == 0 && HasKey(result, StrKey(task)) ==> (
        var cleaned := CleanJson(Get(result, StrKey(task)).value, load, fix);
        && (cleaned.Raised? ==> v == ErrorEntry(cleaned.error))
        && (cleaned.Returned? ==> v == cleaned.value))))
  {
    match ConfigHas(config, task)
    case Raised(e) => ErrorEntry(e)
    case Returned(false) => Str("Invalid task")
    case Returned(true) =>
      if !config.Dict? || !Get(config.entries, StrKey(task)).value.Dict? then ErrorEntry("AttributeError")
      else
        var tes := Get(config.entries, StrKey(task)).value.entries;
        var current :=
          if |tes| > 0 then
            (match run(tes, NumChunksOf(Get(tes, StrKey("num_chunks"))), call)
             case Raised(e) => Raised(e)
             case Returned(o) => Returned(if o.Some? then Str(o.value) else Null))
          else
            (match Get(result, StrKey(task))
             case None => Raised("KeyError")
             case Some(v) => Returned(v));
        match current
        case Raised(e) => ErrorEntry(e)
        case Returned(v) =>
          match CleanJson(v, load, fix)
          case Raised(e) => ErrorEntry(e)
          case Returned(cleaned) => cleaned
  }

  /** The task loop from task `i` on. */
  function TasksFrom(run: (seq<(Key, Value)>, Option<int>, nat) -> Outcome<Option<string>>, config: Value,
                     tasks: seq<string>, i: nat, result: seq<(Key, Value)>,
                     load: string -> Decoded, fix: string -> string): (r: seq<(Key, Value)>)
    requires i <= |tasks|
    ensures |r| >= |result|
    ensures forall j :: 0 <= j < |result| ==> r[j].0 == result[j].0
    decreases |tasks| - i
  {
    if i == |tasks| then result
    else
      var entry := TaskEntry(run, config, result, tasks[i], i, load, fix);
      TasksFrom(run, config, tasks, i + 1, Put(result, StrKey(tasks[i]), entry), load, fix)
  }

  /** `TaskProcessor.process_tasks`: the file info first, then one entry per
      task; no exception escapes. */
  function ProcessTasks(run: (seq<(Key, Value)>, Option<int>, nat) -> Outcome<Option<string>>, config: Value,
                        fileInfo: Value, tasks: seq<string>, load: string -> Decoded, fix: string -> string)
    : (r: seq<(Key, Value)>)
    ensures |r| >= 1 && r[0].0 == StrKey("file_info")
  {
    TasksFrom(run, config, tasks, 0, [(StrKey("file_info"), fileInfo)], load, fix)
  }

  /** The result holds the file info and exactly one entry per requested task. */
  lemma {:induction false} TasksFromKeys(run: (seq<(Key, Value)>, Option<int>, nat) -> Outcome<Option<string>>,
                                        config: Value, tasks: seq<string>, i: nat, result: seq<(Key, Value)>,
                                        load: string -> Decoded, fix: string -> string, k: Key)
    requires i <= |tasks|
    ensures HasKey(TasksFrom(run, config, tasks, i, result, load, fix), k) <==>
      HasKey(result, k) || exists j :: i <= j < |tasks| && k == StrKey(tasks[j])
    decreases |tasks| - i
  {
    if i < |tasks| {
      var next := Put(result, StrKey(tasks[i]), TaskEntry(run, config, result, tasks[i], i, load, fix));
      TasksFromStep(run, config, tasks, i, result, load, fix);
      TasksFromKeys(run, config, tasks, i + 1, next, load, fix, k);
      TaskKeyStep(tasks, i, k);
    }
  }

  /** One round of the task loop. */
  lemma TasksFromStep(run: (seq<(Key, Value)>, Option<int>, nat) -> Outcome<Option<string>>,
                      config: Value, tasks: seq<string>, i: nat, result: seq<(Key, Value)>,
                      load: string -> Decoded, fix: string -> string)
    requires i < |tasks|
    ensures var next := Put(result, StrKey(tasks[i]), TaskEntry(run, config, result, tasks[i], i, load, fix));
      && TasksFrom(run, config, tasks, i, result, load, fix) == TasksFrom(run, config, tasks, i + 1, next, load, fix)
      && (forall k :: HasKey(next, k) <==> HasKey(result, k) || k == StrKey(tasks[i]))
  {
  }

  /** A key names a task from `i` on when it names task `i` or one after it. */
  lemma TaskKeyStep(tasks: seq<string>, i: nat, k: Key)
    requires i < |tasks|
    ensures (exists j :: i <= j < |tasks| && k == StrKey(tasks[j])) <==>
      k == StrKey(tasks[i]) || exists j :: i + 1 <= j < |tasks| && k == StrKey(tasks[j])
  {
    if exists j :: i <= j < |tasks| && k == StrKey(tasks[j]) {
      var j :| i <= j < |tasks| && k == StrKey(tasks[j]);
      if j > i {
        assert exists j' :: i + 1 <= j' < |tasks| && k == StrKey(tasks[j']);
      }
    }
  }

  lemma ProcessTasksKeys(run: (seq<(Key, Value)>, Option<int>, nat) -> Outcome<Option<string>>, config: Value,
                         fileInfo: Value, tasks: seq<string>, load: string -> Decoded, fix: string -> string, k: Key)
    ensures HasKey(ProcessTasks(run, config, fileInfo, tasks, load, fix), k) <==>
      k == StrKey("file_info") || exists j :: 0 <= j < |tasks| && k == StrKey(tasks[j])
  {
    var start := [(StrKey("file_info"), fileInfo)];
    TasksFromKeys(run, config, tasks, 0, start, load, fix, k);
    assert HasKey(start, k) <==> k == StrKey("file_info") by {
      assert start[0].0 == StrKey("file_info");
    }
  }

  /** Some task from position `i` on is `t`. */
  predicate Named(tasks: seq<string>, i: nat, t: string) {
    exists j :: i <= j < |tasks| && tasks[j] == t
  }

  /** A task the configuration does not name is marked `"Invalid task"`,
      whatever else is asked for. */
  lemma {:induction false} TasksFromInvalid(run: (seq<(Key, Value)>, Option<int>, nat) -> Outcome<Option<string>>,
                                           config: Value, tasks: seq<string>, i: nat, result: seq<(Key, Value)>,
                                           load: string -> Decoded, fix: string -> string, t: string)
    requires i <= |tasks| && config.Dict? && !HasKey(config.entries, StrKey(t))
    ensures Get(TasksFrom(run, config, tasks, i, result, load, fix), StrKey(t)) ==
      if Named(tasks, i, t) then Some(Str("Invalid task")) else Get(result, StrKey(t))
    decreases |tasks| - i
  {
    if i < |tasks| {
      var entry := TaskEntry(run, config, result, tasks[i], i, load, fix);
      var next := Put(result, StrKey(tasks[i]), entry);
      assert TasksFrom(run, config, tasks, i, result, load, fix) == TasksFrom(run, config, tasks, i + 1, next, load, fix);
      TasksFromInvalid(run, config, tasks, i + 1, next, load, fix, t);
      if tasks[i] == t {
        assert ConfigHas(config, t) == Returned(false);
        assert Get(next, StrKey(t)) == Some(Str("Invalid task"));
        assert Named(tasks, i, t);
      } else {
        GetPutOther(result, StrKey(tasks[i]), entry, StrKey(t));
        assert Named(tasks, i, t) <==> Named(tasks, i + 1, t) by {
          if Named(tasks, i, t) {
            var j :| i <= j < |tasks| && tasks[j] == t;
            assert j != i;
          }
        }
      }
    }
  }

  lemma ProcessTasksInvalid(run: (seq<(Key, Value)>, Option<int>, nat) -> Outcome<Option<string>>, config: Value,
                            fileInfo: Value, tasks: seq<string>, load: string -> Decoded, fix: string -> string, t: string)
    requires config.Dict? && !HasKey(config.entries, StrKey(t)) && t in tasks
    ensures Get(ProcessTasks(run, config, fileInfo, tasks, load, fix), StrKey(t)) == Some(Str("Invalid task"))
  {
    TasksFromInvalid(run, config, tasks, 0, [(StrKey("file_info"), fileInfo)], load, fix, t);
    var j :| 0 <= j < |tasks| && tasks[j] == t;
    assert Named(tasks, 0, t);
  }

  /** `process_text` bound to one document, as the task loop calls it. */
  function Run(p: Processor, content: Option<string>, sampler: Sampler)
    : (seq<(Key, Value)>, Option<int>, nat) -> Outcome<Option<string>>
    requires ValidSampler(sampler)
  {
    (task: seq<(Key, Value)>, numChunks: Option<int>, call: nat) => ProcessText(p, content, Some(task), numChunks, sampler, call)
  }
}
