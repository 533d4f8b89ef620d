/** `llmer.py`: the second copy of the KoboldCpp client. Its context search
    returns a window of ladder sizes instead of one bucket, its prompt wrap
    falls back to the wizard pair, its chunk selection treats `num_chunks`
    equal to the chunk count as a full sample, and `process_text` sends only
    the payload built for the last chunk. */
module Llmer {
  import opened Wrappers
  import opened Text
  import opened Json
  import opened Ladder
  import opened Chunking
  import opened Prompts

  /** The client and its services. `maxContext` is the maximum context read
      once at construction (a failed read reaches `sys.exit` without `sys`
      imported and raises `NameError`, so an instance always holds a number);
      `count` is `get_token_count` (`0` when the call
      fails); `call` is `_call_api` on a payload (`None` when it fails);
      `segment` is the sentencizer and `fix` is `ftfy.fix_text`. */
  datatype Client = Client(
    model: string,
    chunkSize: int,
    maxContext: nat,
    count: string -> nat,
    call: seq<(Key, Value)> -> Option<string>,
    segment: string -> seq<string>,
    fix: string -> string)

  /** The room a window must leave above the chunk for the reply. */
  const Headroom: int := 500

  // ----- find_largest_context -----

  /** `find_largest_context`: the ascending ladder values between the chunk
      size and the maximum context, or `None` when the chunk leaves less than
      `Headroom` tokens or no ladder value lies in between. */
  function FindContextWindow(chunkSize: int, maxContext: int): (r: Option<seq<int>>)
    ensures r.Some? <==> (chunkSize + Headroom <= maxContext &&
      exists i :: 0 <= i < |Sizes| && chunkSize <= Sizes[i] <= maxContext)
    ensures r.Some? ==> r.value != [] && Ascending(r.value)
    ensures r.Some? ==> forall v :: v in r.value <==> v in Sizes && chunkSize <= v <= maxContext
  {
    SizesShape();
    if chunkSize + Headroom <= maxContext then
      var w := Between(Sizes, chunkSize, maxContext);
      BetweenNonempty(chunkSize, maxContext);
      if w == [] then None else Some(w)
    else None
  }

  /** Some ladder value lies between the bounds exactly when the filtered
      ladder is nonempty. */
  lemma BetweenNonempty(lo: int, hi: int)
    ensures Between(Sizes, lo, hi) != [] <==> exists i :: 0 <= i < |Sizes| && lo <= Sizes[i] <= hi
  {
    var w := Between(Sizes, lo, hi);
    if w != [] {
      assert w[0] in w;
      var i :| 0 <= i < |Sizes| && Sizes[i] == w[0];
    }
    if exists i :: 0 <= i < |Sizes| && lo <= Sizes[i] <= hi {
      var i :| 0 <= i < |Sizes| && lo <= Sizes[i] <= hi;
      assert Sizes[i] in w;
    }
  }

  /** The window opens at the bucket `main.py` would pick for a prompt one
      token shorter than the chunk: the smallest ladder value that holds it. */
  lemma WindowStartsAtBucket(chunkSize: int, maxContext: int)
    requires FindContextWindow(chunkSize, maxContext).Some?
    ensures NextBucket(chunkSize - 1).Some?
    ensures FindContextWindow(chunkSize, maxContext).value[0] == NextBucket(chunkSize - 1).value
  {
    var w := FindContextWindow(chunkSize, maxContext).value;
    assert w[0] in w;
    var i :| 0 <= i < |Sizes| && Sizes[i] == w[0];
    SizesShape();
    var b := NextBucket(chunkSize - 1);
    assert b.Some? && b.value <= w[0];
    assert b.value in w;
    var j :| 0 <= j < |w| && w[j] == b.value;
    assert w[0] <= w[j];
  }

  /** A larger maximum context keeps every size of the window and never
      closes it. */
  lemma WindowGrows(chunkSize: int, small: int, large: int)
    requires small <= large
    requires FindContextWindow(chunkSize, small).Some?
    ensures FindContextWindow(chunkSize, large).Some?
    ensures forall v :: v in FindContextWindow(chunkSize, small).value ==>
      v in FindContextWindow(chunkSize, large).value
  {
    var w := FindContextWindow(chunkSize, small).value;
    assert w[0] in w;
    var i :| 0 <= i < |Sizes| && Sizes[i] == w[0];
    assert chunkSize <= Sizes[i] <= large;
  }

  // ----- prompt_template -----

  /** `templates.get(self.model, templates["wizard"])`. */
  function ModelWrap(model: string): (w: Wrap)
    ensures model in KnownModels ==> WrapFor(model) == Some(w)
    ensures model !in KnownModels ==> w == WizardWrap
  {
    WrapFor(model).GetOr(WizardWrap)
  }

  /** `prompt_template`: the model's wrap around the instruction followed by
      the content; removing the wrap gives both back. */
  function PromptTemplate(model: string, instruction: string, content: string): (r: string)
    ensures Unwrap(ModelWrap(model), r) == Some(instruction + content)
    ensures |r| == |ModelWrap(model).start| + |instruction| + |content| + |ModelWrap(model).end|
  {
    UnwrapApply(ModelWrap(model), instruction + content);
    Apply(ModelWrap(model), instruction + content)
  }

  /** An unknown model is prompted exactly as the wizard model is. */
  lemma UnknownModelIsWizard(model: string, instruction: string, content: string)
    requires model !in KnownModels
    ensures PromptTemplate(model, instruction, content) == PromptTemplate("wizard", instruction, content)
  {
  }

  /** The same wrap never makes one prompt from two different instruction and
      content pairs that spell different texts. */
  lemma PromptTemplateInjective(model: string, i1: string, c1: string, i2: string, c2: string)
    requires PromptTemplate(model, i1, c1) == PromptTemplate(model, i2, c2)
    ensures i1 + c1 == i2 + c2
  {
  }

  // ----- chunkify -----

  /** The most sentences whose tokens are counted. */
  const SampleCap: nat := 20

  /** The counted sentences: all of them, in order, when there are at most
      `SampleCap`; otherwise `random.sample`. The `call`-th `chunkify` makes
      draws `2 * call` (sentences) and `2 * call + 1` (chunks). */
  function SentenceSample(n: nat, sampler: Sampler, call: nat): (picks: seq<nat>)
    requires ValidSampler(sampler)
    ensures ValidSample(picks, n, Min(SampleCap, n))
    ensures n <= SampleCap ==> picks == Range(n)
  {
    if n <= SampleCap then Range(n) else sampler.draw(2 * call, n, SampleCap)
  }

  /** The token count of the sampled sentences, joined with spaces. */
  function SampleTokens(c: Client, sentences: seq<string>, sampler: Sampler, call: nat): nat
    requires ValidSampler(sampler)
  {
    var picks := SentenceSample(|sentences|, sampler, call);
    c.count(Join(" ", Pick(sentences, picks)))
  }

  /** The chunk selection of `llmer.py`: more chunks asked for than exist, or
      a request of at most zero, keeps all; one keeps the first; otherwise the first
      chunk and a sample of `numChunks - 1` of the others, which is every other
      chunk when the request equals the count. */
  function SelectChunks(chunks: seq<string>, numChunks: int, sampler: Sampler, call: nat): (r: seq<string>)
    requires |chunks| >= 1 && ValidSampler(sampler)
    ensures numChunks <= 0 || numChunks > |chunks| ==> r == chunks
    ensures numChunks == 1 ==> r == [chunks[0]]
    ensures 1 < numChunks <= |chunks| ==>
      exists picks :: ValidSample(picks, |chunks| - 1, numChunks - 1) && r == LeadPlusSample(chunks, picks)
  {
    if numChunks > 0 then
      if numChunks > |chunks| then chunks
      else if numChunks > 1 then
        var picks := sampler.draw(2 * call + 1, |chunks| - 1, numChunks - 1);
        assert ValidSample(picks, |chunks| - 1, numChunks - 1);
        LeadPlusSample(chunks, picks)
      else [chunks[0]]
    else chunks
  }

  /** `chunkify(content, num_chunks=...)` on already cleaned content. Zero
      chunks means the content unsplit. With no sentences the average divides
      by zero; a zero token count makes the guarded division fail, after which
      `sentences_per_chunk` is unbound; `None` cannot be compared with `0`. */
  function Chunkify(c: Client, content: string, numChunks: Option<int>, sampler: Sampler, call: nat)
    : (r: Outcome<seq<string>>)
    requires ValidSampler(sampler)
    ensures numChunks == Some(0) ==> r == Returned([content])
    ensures r == Raised("ZeroDivisionError") <==> numChunks != Some(0) && c.segment(content) == []
    ensures r == Raised("UnboundLocalError") <==>
      numChunks != Some(0) && c.segment(content) != [] && SampleTokens(c, c.segment(content), sampler, call) == 0
    ensures r == Raised("TypeError") <==>
      numChunks.None? && c.segment(content) != [] && SampleTokens(c, c.segment(content), sampler, call) > 0
    ensures r.Returned? && numChunks != Some(0) ==> (
      var sentences := c.segment(content);
      && |sentences| > 0 && numChunks.Some?
      && var spc := SentencesPerChunk(c.chunkSize, SampleTokens(c, sentences, sampler, call), Min(SampleCap, |sentences|));
      && r.value == SelectChunks(ChunkTexts(sentences, spc), numChunks.value, sampler, call))
  {
    if numChunks == Some(0) then Returned([content])
    else
      var sentences := c.segment(content);
      if |sentences| == 0 then Raised("ZeroDivisionError")
      else
        var total := SampleTokens(c, sentences, sampler, call);
        if total == 0 then Raised("UnboundLocalError")
        else
          var spc := SentencesPerChunk(c.chunkSize, total, Min(SampleCap, |sentences|));
          var chunks := ChunkTexts(sentences, spc);
          match numChunks
          case None => Raised("TypeError")
          case Some(n) => Returned(SelectChunks(chunks, n, sampler, call))
  }

  /** Whatever `chunkify` returns is nonempty, starts with the first chunk of
      the content and has `min(num_chunks, #chunks)` chunks for a positive
      request and all of them for a negative one. */
  lemma ChunkifyShape(c: Client, content: string, n: int, sampler: Sampler, call: nat)
    requires ValidSampler(sampler) && n != 0
    requires Chunkify(c, content, Some(n), sampler, call).Returned?
    ensures var sentences := c.segment(content);
      var spc := SentencesPerChunk(c.chunkSize, SampleTokens(c, sentences, sampler, call), Min(SampleCap, |sentences|));
      var chunks := ChunkTexts(sentences, spc);
      var r := Chunkify(c, content, Some(n), sampler, call).value;
      && |r| == (if n < 0 then |chunks| else Min(n, |chunks|))
      && r[0] == chunks[0]
      && forall i :: 0 <= i < |r| ==> r[i] in chunks
  {
    var sentences := c.segment(content);
    var spc := SentencesPerChunk(c.chunkSize, SampleTokens(c, sentences, sampler, call), Min(SampleCap, |sentences|));
    var chunks := ChunkTexts(sentences, spc);
    var r := Chunkify(c, content, Some(n), sampler, call).value;
    if 1 < n <= |chunks| {
      var picks :| ValidSample(picks, |chunks| - 1, n - 1) && r == LeadPlusSample(chunks, picks);
      forall i | 0 <= i < |r| ensures r[i] in chunks {
        if i > 0 {
          assert r[i] == chunks[1 + picks[i - 1]];
        }
      }
    }
  }

  /** `r` is chosen, for the request `n`, from the chunks that cut the
      sentences in order into `ceil(#sentences / spc)` runs of `spc`: the
      first of them followed by others, `min(n, #chunks)` in all for a
      positive request, and all of them, in order, for a negative request or
      one past their count. */
  ghost predicate ChunkChoice(sentences: seq<string>, spc: nat, n: int, r: seq<string>) {
    && spc >= 1
    && exists chunks :: (
      && ChunkedBy(sentences, spc, chunks)
      && |chunks| == (|sentences| + spc - 1) / spc
      && |r| == (if n < 0 then |chunks| else Min(n, |chunks|))
      && 0 < |r| && r[0] == chunks[0]
      && (forall i :: 0 <= i < |r| ==> r[i] in chunks)
      && (n < 0 || n > |chunks| ==> r == chunks))
  }

  /** What `chunkify` returns for a nonzero request is such a choice. */
  lemma ChunkifyPartition(c: Client, content: string, n: int, sampler: Sampler, call: nat)
    requires ValidSampler(sampler) && n != 0
    requires Chunkify(c, content, Some(n), sampler, call).Returned?
    ensures var sentences := c.segment(content);
      var spc := SentencesPerChunk(c.chunkSize, SampleTokens(c, sentences, sampler, call), Min(SampleCap, |sentences|));
      ChunkChoice(sentences, spc, n, Chunkify(c, content, Some(n), sampler, call).value)
  {
    var sentences := c.segment(content);
    var spc := SentencesPerChunk(c.chunkSize, SampleTokens(c, sentences, sampler, call), Min(SampleCap, |sentences|));
    assert Chunkify(c, content, Some(n), sampler, call).value == SelectChunks(ChunkTexts(sentences, spc), n, sampler, call);
    SelectPartition(sentences, spc, n, sampler, call);
  }

  /** The selection policy applied to the chunks of `sentences`. */
  lemma SelectPartition(sentences: seq<string>, spc: nat, n: int, sampler: Sampler, call: nat)
    requires ValidSampler(sampler) && spc >= 1 && |sentences| > 0 && n != 0
    ensures ChunkChoice(sentences, spc, n, SelectChunks(ChunkTexts(sentences, spc), n, sampler, call))
  {
    var chunks := ChunkTexts(sentences, spc);
    ChunkTextsPartition(sentences, spc);
    var r := SelectChunks(chunks, n, sampler, call);
    if 1 < n <= |chunks| {
      var picks :| ValidSample(picks, |chunks| - 1, n - 1) && r == LeadPlusSample(chunks, picks);
      forall i | 0 <= i < |r| ensures r[i] in chunks {
        if i > 0 {
          assert r[i] == chunks[1 + picks[i - 1]];
        }
      }
    }
  }

  /** Asking for exactly as many chunks as there are (at least two) returns
      the first chunk followed by a permutation of the others. */
  lemma ChunkifyFullRequest(c: Client, content: string, sampler: Sampler, call: nat)
    requires ValidSampler(sampler)
    requires c.segment(content) != [] && SampleTokens(c, c.segment(content), sampler, call) > 0
    requires var sentences := c.segment(content);
      var spc := SentencesPerChunk(c.chunkSize, SampleTokens(c, sentences, sampler, call), Min(SampleCap, |sentences|));
      |ChunkTexts(sentences, spc)| >= 2
    ensures var sentences := c.segment(content);
      var spc := SentencesPerChunk(c.chunkSize, SampleTokens(c, sentences, sampler, call), Min(SampleCap, |sentences|));
      var chunks := ChunkTexts(sentences, spc);
      var r := Chunkify(c, content, Some(|chunks|), sampler, call);
      && r.Returned? && |r.value| == |chunks| && r.value[0] == chunks[0]
      && multiset(r.value[1..]) == multiset(chunks[1..])
      && forall j :: 1 <= j < |chunks| ==> chunks[j] in r.value[1..]
  {
    var sentences := c.segment(content);
    var spc := SentencesPerChunk(c.chunkSize, SampleTokens(c, sentences, sampler, call), Min(SampleCap, |sentences|));
    var chunks := ChunkTexts(sentences, spc);
    assert Chunkify(c, content, Some(|chunks|), sampler, call) == Returned(SelectChunks(chunks, |chunks|, sampler, call));
    SelectFull(chunks, sampler, call);
  }

  /** Selecting as many chunks as there are keeps the first chunk first and
      every other chunk somewhere after it. */
  lemma SelectFull(chunks: seq<string>, sampler: Sampler, call: nat)
    requires |chunks| >= 2 && ValidSampler(sampler)
    ensures var r := SelectChunks(chunks, |chunks|, sampler, call);
      && |r| == |chunks| && r[0] == chunks[0]
      && multiset(r[1..]) == multiset(chunks[1..])
      && forall j :: 1 <= j < |chunks| ==> chunks[j] in r[1..]
  {
    var r := SelectChunks(chunks, |chunks|, sampler, call);
    var picks :| ValidSample(picks, |chunks| - 1, |chunks| - 1) && r == LeadPlusSample(chunks, picks);
    LeadPlusFullSample(chunks, picks);
  }

  /** A request past the chunk count sends every sentence, in order. */
  lemma ChunkifyCoversAll(c: Client, content: string, n: int, sampler: Sampler, call: nat)
    requires ValidSampler(sampler) && n != 0
    requires Chunkify(c, content, Some(n), sampler, call).Returned?
    requires n < 0 || n > |c.segment(content)|
    ensures Join(" ", Chunkify(c, content, Some(n), sampler, call).value) == Join(" ", c.segment(content))
  {
    var sentences := c.segment(content);
    var spc := SentencesPerChunk(c.chunkSize, SampleTokens(c, sentences, sampler, call), Min(SampleCap, |sentences|));
    CeilDivAtMost(|sentences|, spc);
  }

  /** `ceil(n / k)` never exceeds `n`. */
  lemma CeilDivAtMost(n: nat, k: nat)
    requires k >= 1
    ensures (n + k - 1) / k <= n
  {
    var q := (n + k - 1) / k;
    assert q * k + (n + k - 1) % k == n + k - 1 && 0 <= (n + k - 1) % k;
    if n > 0 {
      MulAtLeast(k, n);
    }
    assert (n + 1) * k == n * k + k;
    MulMonotone(q, n + 1, k);
  }

  // ----- process_text -----

  /** `task.get('instruction')`, which the prompt concatenates: only a string
      can be added to the template's start. */
  function Instruction(task: seq<(Key, Value)>): (r: Outcome<string>)
    ensures r.Returned? <==> HasKey(task, StrKey("instruction")) && Get(task, StrKey("instruction")).value.Str?
    ensures r.Returned? ==> Get(task, StrKey("instruction")) == Some(Str(r.value))
    ensures r.Raised? ==> r.error == "TypeError"
  {
    match Get(task, StrKey("instruction"))
    case Some(Str(s)) => Returned(s)
    case _ => Raised("TypeError")
  }

  /** The prompt actually sent: cut to its first `maxContext` characters when
      its token count exceeds the maximum context, and otherwise whole. */
  function Fit(c: Client, full: string): (r: string)
    ensures |r| <= |full| && full[..|r|] == r
    ensures c.count(full) <= c.maxContext ==> r == full
    ensures c.count(full) > c.maxContext ==> |r| == Min(c.maxContext, |full|)
  {
    if c.count(full) > c.maxContext then full[..Min(c.maxContext, |full|)] else full
  }

  /** The prompt of one chunk. */
  function ChunkPrompt(c: Client, instruction: string, chunk: string): string {
    Fit(c, PromptTemplate(c.model, instruction, chunk))
  }

  /** The payload of one chunk: its prompt and, as `max_length`, the prompt's
      own token count, overlaid by the task's parameters. */
  function Payload(c: Client, instruction: string, params: seq<(Key, Value)>, chunk: string)
    : (r: seq<(Key, Value)>)
  {
    var prompt := ChunkPrompt(c, instruction, chunk);
    Overlay([(StrKey("prompt"), Str(prompt)), (StrKey("max_length"), Num(c.count(prompt)))], params)
  }

  /** Without a clashing parameter the payload asks for as many tokens as the
      prompt holds, and carries that prompt. */
  lemma PayloadLength(c: Client, instruction: string, params: seq<(Key, Value)>, chunk: string)
    requires DistinctKeys(params)
    requires !HasKey(params, StrKey("prompt")) && !HasKey(params, StrKey("max_length"))
    ensures var prompt := ChunkPrompt(c, instruction, chunk);
      && Get(Payload(c, instruction, params, chunk), StrKey("prompt")) == Some(Str(prompt))
      && Get(Payload(c, instruction, params, chunk), StrKey("max_length")) == Some(Num(c.count(prompt)))
  {
    var prompt := ChunkPrompt(c, instruction, chunk);
    var base := [(StrKey("prompt"), Str(prompt)), (StrKey("max_length"), Num(c.count(prompt)))];
    OverlayGet(base, params, StrKey("prompt"));
    OverlayGet(base, params, StrKey("max_length"));
    assert IndexOfKey(base, StrKey("prompt")) == Some(0);
    assert IndexOfKey(base, StrKey("max_length")) == Some(1);
  }

  /** `process_text`: the content is cleaned and chunked (`num_chunks == 0`
      keeps it whole), a payload is built for every chunk, and only the last
      one is sent; its reply, or `None`, is the result. */
  function ProcessText(c: Client, content: Option<string>, task: seq<(Key, Value)>,
                       numChunks: Option<int>, sampler: Sampler, call: nat): Outcome<Option<string>>
    requires ValidSampler(sampler)
  {
    var cleaned := CleanText(c.fix, content);
    var chunks := if numChunks == Some(0) then Returned([cleaned]) else Chunkify(c, cleaned, numChunks, sampler, call);
    match chunks
    case Raised(e) => Raised(e)
    case Returned(cs) =>
      if cs == [] then Raised("UnboundLocalError")
      else if Instruction(task).Raised? || Parameters(task).Raised? then Raised("TypeError")
      else Returned(c.call(Payload(c, Instruction(task).value, Parameters(task).value, cs[|cs| - 1])))
  }

  /** Only the last chunk is sent: an exception from chunking propagates,
      and otherwise the reply is the client's answer to the last chunk's
      payload. */
  lemma ProcessTextLastChunk(c: Client, content: Option<string>, task: seq<(Key, Value)>,
                             numChunks: Option<int>, sampler: Sampler, call: nat)
    requires ValidSampler(sampler)
    ensures var r := ProcessText(c, content, task, numChunks, sampler, call);
      var cleaned := CleanText(c.fix, content);
      var chunks := if numChunks == Some(0) then Returned([cleaned]) else Chunkify(c, cleaned, numChunks, sampler, call);
      && (chunks.Raised? ==> r == Raised(chunks.error))
      && (chunks.Returned? && chunks.value != [] && Instruction(task).Returned? && Parameters(task).Returned? ==>
            r == Returned(c.call(Payload(c, Instruction(task).value, Parameters(task).value,
                                         chunks.value[|chunks.value| - 1]))))
  {
    var cleaned := CleanText(c.fix, content);
    var chunks := if numChunks == Some(0) then Returned([cleaned]) else Chunkify(c, cleaned, numChunks, sampler, call);
    var r := ProcessText(c, content, task, numChunks, sampler, call);
    if chunks.Raised? {
      assert r == Raised(chunks.error);
    } else if chunks.value != [] && Instruction(task).Returned? && Parameters(task).Returned? {
      var cs := chunks.value;
      assert r == Returned(c.call(Payload(c, Instruction(task).value, Parameters(task).value, cs[|cs| - 1])));
    }
  }

  /** The exceptions `process_text` can end with. */
  lemma ProcessTextErrors(c: Client, content: Option<string>, task: seq<(Key, Value)>,
                          numChunks: Option<int>, sampler: Sampler, call: nat)
    requires ValidSampler(sampler)
    ensures var r := ProcessText(c, content, task, numChunks, sampler, call);
      r.Raised? ==> r.error in {"ZeroDivisionError", "UnboundLocalError", "TypeError"}
  {
    var cleaned := CleanText(c.fix, content);
    if numChunks != Some(0) {
      var chunks := Chunkify(c, cleaned, numChunks, sampler, call);
      assert chunks.Raised? ==> chunks.error in {"ZeroDivisionError", "UnboundLocalError", "TypeError"};
    }
  }

  /** With `num_chunks == 0` the whole cleaned content is the one prompt sent. */
  lemma ProcessWhole(c: Client, content: Option<string>, task: seq<(Key, Value)>, sampler: Sampler, call: nat)
    requires ValidSampler(sampler)
    requires Instruction(task).Returned? && Parameters(task).Returned?
    ensures ProcessText(c, content, task, Some(0), sampler, call) ==
      Returned(c.call(Payload(c, Instruction(task).value, Parameters(task).value, CleanText(c.fix, content))))
  {
  }
}
