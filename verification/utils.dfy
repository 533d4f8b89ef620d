/** `utils.py`: the helper classes of the scripts. `NLPProcessor.chunkify`
    groups sentences by a sampled token average, `APIHandler` builds the
    fixed-budget payloads of its three jobs around a prompt stub, and
    `generate_genkey` draws the correlation key every client uses. */
module Utils {
  import opened Wrappers
  import opened Text
  import opened Json
  import opened Chunking

  // ----- generate_genkey -----

  predicate IsDigit(c: char) {
    '0' <= c <= '9'
  }

  function DigitChar(d: nat): (c: char)
    requires d <= 9
    ensures IsDigit(c)
  {
    ('0' as int + d) as char
  }

  function DigitValue(c: char): (d: nat)
    requires IsDigit(c)
    ensures d <= 9 && DigitChar(d) == c
  {
    (c as int - '0' as int) as nat
  }

  /** `f"KCP{''.join(str(random.randint(0, 9)) for _ in range(4))}"`, given the
      four numbers `randint` drew. */
  function GenerateGenkey(draws: seq<nat>): (r: string)
    requires |draws| == 4 && forall i :: 0 <= i < 4 ==> draws[i] <= 9
    ensures |r| == 7 && r[..3] == "KCP"
    ensures forall i :: 3 <= i < 7 ==> IsDigit(r[i])
  {
    "KCP" + [DigitChar(draws[0]), DigitChar(draws[1]), DigitChar(draws[2]), DigitChar(draws[3])]
  }

  /** Reads the four digits back out of a key, when it has the key's shape. */
  function GenkeyDigits(key: string): (r: Option<seq<nat>>)
    ensures r.Some? <==> |key| == 7 && key[..3] == "KCP" && forall i :: 3 <= i < 7 ==> IsDigit(key[i])
    ensures r.Some? ==> |r.value| == 4 && forall i :: 0 <= i < 4 ==> r.value[i] <= 9
  {
    if |key| == 7 && key[..3] == "KCP" && forall i :: 3 <= i < 7 ==> IsDigit(key[i]) then
      Some([DigitValue(key[3]), DigitValue(key[4]), DigitValue(key[5]), DigitValue(key[6])])
    else None
  }

  /** The digits of a key are the draws that made it. */
  lemma GenkeyRoundTrip(draws: seq<nat>)
    requires |draws| == 4 && forall i :: 0 <= i < 4 ==> draws[i] <= 9
    ensures GenkeyDigits(GenerateGenkey(draws)) == Some(draws)
  {
    var key := GenerateGenkey(draws);
    forall i | 0 <= i < 4 ensures DigitValue(DigitChar(draws[i])) == draws[i] {
      assert DigitChar(draws[i]) as int == '0' as int + draws[i];
    }
    assert key[3..] == [DigitChar(draws[0]), DigitChar(draws[1]), DigitChar(draws[2]), DigitChar(draws[3])];
    assert GenkeyDigits(key).value == [draws[0], draws[1], draws[2], draws[3]];
    assert draws == [draws[0], draws[1], draws[2], draws[3]];
  }

  /** Every string of the key's shape is a possible key, made from its digits. */
  lemma GenkeyOfDigits(key: string)
    requires GenkeyDigits(key).Some?
    ensures GenerateGenkey(GenkeyDigits(key).value) == key
  {
    var r := GenerateGenkey(GenkeyDigits(key).value);
    assert r[..3] == key[..3];
    forall i | 0 <= i < 7 ensures r[i] == key[i] {
      if i < 3 {
        assert r[i] == r[..3][i] && key[i] == key[..3][i];
      }
    }
  }

  // ----- NLPProcessor.chunkify -----

  /** `chunkify(text, chunk_size, sample_size)`: `random.sample` takes
      `min(sample_size, #sentences)` of the sentences (the sampler's draw
      number `call`), and their token count (`0` when the call fails) fixes
      how many sentences go in each chunk. No sentences, or a zero count,
      divides by zero. */
  function Chunkify(segment: string -> seq<string>, count: string -> nat, text: string, chunkSize: int,
                    sampleSize: nat, sampler: Sampler, call: nat): (r: Outcome<seq<string>>)
    requires ValidSampler(sampler)
    ensures r.Raised? ==> r.error == "ZeroDivisionError"
    ensures var sentences := segment(text);
      var k := Min(sampleSize, |sentences|);
      r.Raised? <==> k == 0 || count(Join(" ", Pick(sentences, sampler.draw(call, |sentences|, k)))) == 0
    ensures r.Returned? ==> |segment(text)| > 0 && |r.value| > 0
    ensures r.Returned? ==> Join(" ", r.value) == Join(" ", segment(text))
    ensures r.Returned? ==> r.value[0] == Join(" ", segment(text)[..Min(SpcOf(segment, count, text, chunkSize,
                                                                          sampleSize, sampler, call), |segment(text)|)])
  {
    var sentences := segment(text);
    var picks := sampler.draw(call, |sentences|, Min(sampleSize, |sentences|));
    var r := SampledChunks(sentences, chunkSize, sampleSize, (s: string) => Some(count(s)), picks);
    assert r.Returned? ==> |sentences| > 0 && |r.value| > 0 by {
      if r.Returned? {
        var spc := SentencesPerChunk(chunkSize, SampleTotal(sentences, (s: string) => Some(count(s)), picks).value, |picks|);
        assert |r.value| == (|sentences| + spc - 1) / spc;
        assert |sentences| + spc - 1 >= spc;
      }
    }
    r
  }

  /** The sentences per chunk `chunkify` settles on, once the count is known to
      be positive (`1` otherwise, where `chunkify` raises). */
  function SpcOf(segment: string -> seq<string>, count: string -> nat, text: string, chunkSize: int,
                 sampleSize: nat, sampler: Sampler, call: nat): (spc: nat)
    requires ValidSampler(sampler)
    ensures spc >= 1
  {
    var sentences := segment(text);
    var picks := sampler.draw(call, |sentences|, Min(sampleSize, |sentences|));
    var total := count(Join(" ", Pick(sentences, picks)));
    if |picks| == 0 || total == 0 then 1 else SentencesPerChunk(chunkSize, total, |picks|)
  }

  /** The chunks partition the sentences in order: every group but the last
      holds exactly `spc` sentences, the last at most that many, and there are
      `ceil(#sentences / spc)` of them. */
  lemma ChunkifyPartition(segment: string -> seq<string>, count: string -> nat, text: string, chunkSize: int,
                          sampleSize: nat, sampler: Sampler, call: nat)
    requires ValidSampler(sampler)
    requires Chunkify(segment, count, text, chunkSize, sampleSize, sampler, call).Returned?
    ensures var spc := SpcOf(segment, count, text, chunkSize, sampleSize, sampler, call);
      var r := Chunkify(segment, count, text, chunkSize, sampleSize, sampler, call).value;
      && |r| == (|segment(text)| + spc - 1) / spc
      && ChunkedBy(segment(text), spc, r)
  {
    var sentences := segment(text);
    var picks := sampler.draw(call, |sentences|, Min(sampleSize, |sentences|));
    var spc := SpcOf(segment, count, text, chunkSize, sampleSize, sampler, call);
    var counted := (s: string) => Some(count(s));
    var r := SampledChunks(sentences, chunkSize, sampleSize, counted, picks);
    assert Chunkify(segment, count, text, chunkSize, sampleSize, sampler, call) == r;
    assert SampleTotal(sentences, counted, picks) == Some(count(Join(" ", Pick(sentences, picks))));
    assert r.value == ChunkTexts(sentences, spc);
    ChunkTextsPartition(sentences, spc);
  }

  /** `sample_size` is capped by the sentence count: a short text is counted
      whole, whatever the sampler's order. */
  lemma ChunkifySampleSize(n: nat, sampleSize: nat, sampler: Sampler, call: nat)
    requires ValidSampler(sampler)
    ensures |sampler.draw(call, n, Min(sampleSize, n))| == Min(sampleSize, n)
    ensures n <= sampleSize ==> forall j :: 0 <= j < n ==> j in sampler.draw(call, n, Min(sampleSize, n))
  {
    var p := sampler.draw(call, n, Min(sampleSize, n));
    if n <= sampleSize {
      FullSampleCovers(p, n);
    }
  }

  // ----- APIHandler -----

  /** `generate_prompt`: the instruction and template are looked up, then
      ignored; every job gets the same stub. */
  function GeneratePrompt(job: int, template: int, text: string): (r: string)
    ensures r == "##Start:"
  {
    "##Start:"
  }

  /** The prompt carries nothing of the job, the template or the text. */
  lemma GeneratePromptConstant(j1: int, t1: int, x1: string, j2: int, t2: int, x2: string)
    ensures GeneratePrompt(j1, t1, x1) == GeneratePrompt(j2, t2, x2)
  {
  }

  /** The three jobs of `APIHandler`. */
  datatype Job = Translate | Summarize | Edit {
    /** The `job` number each method passes to `generate_prompt`. */
    function Number(): int {
      match this
      case Translate => 3
      case Summarize => 2
      case Edit => 1
    }

    /** The fixed `max_length` of the job's payload. */
    function MaxLength(): int {
      match this
      case Translate => 2048
      case Summarize => 1024
      case Edit => 4096
    }

    /** The fixed `max_context_length` of the job's payload. */
    function MaxContextLength(): int {
      match this
      case Translate => 8192
      case Summarize => 8192
      case Edit => 16384
    }
  }

  /** Every job leaves room for its prompt: the reply budget is at most a
      quarter of the context. */
  lemma BudgetsLeaveRoom(job: Job)
    ensures 0 < job.MaxLength() < job.MaxContextLength()
    ensures 4 * job.MaxLength() <= job.MaxContextLength()
  {
  }

  /** The keys of a job's payload, in the order `APIHandler` writes them. */
  const PayloadKeys: seq<string> := ["prompt", "temperature", "rep_pen", "max_length", "max_context_length", "grammar"]

  /** The payload of `translate`, `summarize` or `edit`: the prompt, the
      caller's sampling settings, the job's budgets and, for a summary, the
      JSON grammar. */
  function JobPayload(job: Job, text: string, temperature: Value, repPen: Value): (r: seq<(Key, Value)>)
    ensures |r| == if job == Summarize then 6 else 5
    ensures forall i :: 0 <= i < |r| ==> r[i].0 == StrKey(PayloadKeys[i])
  {
    var base := [(StrKey(PayloadKeys[0]), Str(GeneratePrompt(job.Number(), 0, text))),
                 (StrKey(PayloadKeys[1]), temperature), (StrKey(PayloadKeys[2]), repPen),
                 (StrKey(PayloadKeys[3]), Num(job.MaxLength())),
                 (StrKey(PayloadKeys[4]), Num(job.MaxContextLength()))];
    if job == Summarize then base + [(StrKey(PayloadKeys[5]), Str("json.gbnf"))] else base
  }

  /** No key is written twice, and only a summary asks for the grammar. */
  lemma JobPayloadKeys(job: Job, text: string, temperature: Value, repPen: Value)
    ensures DistinctKeys(JobPayload(job, text, temperature, repPen))
    ensures HasKey(JobPayload(job, text, temperature, repPen), StrKey("grammar")) <==> job == Summarize
  {
    var r := JobPayload(job, text, temperature, repPen);
    forall i, j | 0 <= i < j < 6 ensures PayloadKeys[i] != PayloadKeys[j] {
      assert |PayloadKeys[i]| != |PayloadKeys[j]| || PayloadKeys[i][0] != PayloadKeys[j][0];
    }
    if job == Summarize {
      assert r[5].0 == StrKey("grammar");
    }
  }

  /** The server reads the stub prompt and the job's two fixed budgets. */
  lemma JobPayloadBudgets(job: Job, text: string, temperature: Value, repPen: Value)
    ensures var r := JobPayload(job, text, temperature, repPen);
      && Get(r, StrKey("prompt")) == Some(Str(GeneratePrompt(job.Number(), 0, text)))
      && Get(r, StrKey("max_length")) == Some(Num(job.MaxLength()))
      && Get(r, StrKey("max_context_length")) == Some(Num(job.MaxContextLength()))
  {
    var r := JobPayload(job, text, temperature, repPen);
    JobPayloadKeys(job, text, temperature, repPen);
    GetAt(r, 0);
    GetAt(r, 3);
    GetAt(r, 4);
  }

  /** The document never reaches the server: two texts give the same payload. */
  lemma JobPayloadIgnoresText(job: Job, a: string, b: string, temperature: Value, repPen: Value)
    ensures JobPayload(job, a, temperature, repPen) == JobPayload(job, b, temperature, repPen)
  {
  }
}
