/** `main.py`'s `DocumentProcessor`: prompts wrapped for a chat model, reply
    budgets sized from the server's token count, sampled chunking, and the
    per-file task pipeline. The KoboldCpp server, spaCy, `ftfy` and the
    language detector are opaque functions carried by the processor. */
module MainScript {
  import opened Wrappers
  import opened Text
  import opened Json
  import opened Ladder
  import opened Chunking
  import opened Prompts
  import opened Sanitize

  /** The task names `process_chunk` and `process_document` know. */
  const TranslateTask: string := "translate"
  const EditTask: string := "edit"
  const SummarizeTask: string := "summarize"
  const MetadataTask: string := "metadata"

  /** The four task names are different words. */
  lemma TaskNamesDistinct()
    ensures TranslateTask != EditTask && TranslateTask != SummarizeTask && TranslateTask != MetadataTask
    ensures EditTask != SummarizeTask && EditTask != MetadataTask && SummarizeTask != MetadataTask
  {
    assert TranslateTask[0] != EditTask[0] && TranslateTask[0] != SummarizeTask[0] && TranslateTask[0] != MetadataTask[0];
    assert EditTask[0] != SummarizeTask[0] && EditTask[0] != MetadataTask[0] && SummarizeTask[0] != MetadataTask[0];
  }

  /** A `/v1/generate/` payload. Temperature and `min_p` are kept in
      thousandths, so `0.05` is `50`. */
  datatype Request = Request(prompt: string, temperature: int, repPen: int,
                             maxLength: int, maxContextLength: int, minP: int)

  /** The processor and the services it calls: `count` is `get_token_count`
      (`None` when the call fails), `generate` is `_make_api_call` (`None` when
      it fails), `parse` is `json.loads`, `notEnglish` is `is_not_english`,
      `segment` is the sentencizer and `fix` is `ftfy.fix_text`. */
  datatype DocumentProcessor = DocumentProcessor(
    model: string,
    chunkSize: int,
    count: string -> Option<nat>,
    generate: Request -> Option<string>,
    parse: string -> Decoded,
    notEnglish: string -> bool,
    segment: string -> seq<string>,
    fix: string -> string)

  /** The four jobs with a method of their own; `generate_prompt` numbers them. */
  datatype Job = Summarize | Edit | Metadata | Translate {
    function Number(): int {
      match this
      case Summarize => 0
      case Edit => 1
      case Metadata => 2
      case Translate => 3
    }

    /** Temperature, repetition penalty and `min_p` (thousandths for the first
        and last) of each job's method. */
    function Sampling(): (int, int, int) {
      match this
      case Summarize => (800, 1, 20)
      case Edit => (500, 1, 20)
      case Metadata => (500, 1, 50)
      case Translate => (500, 1, 30)
    }
  }

  /** The instruction of each job's method, ending in the text label. */
  function InstructionFor(job: Job): string {
    match job
    case Summarize => "Summarize the text. Use the type of text to determine how to summarize, for instance if if it is a technical text include relevant technical details and if it is a narrative include perspectives and plots and characters.\n Text: "
    case Edit => "Correct errors and bad formatting in the following text. Do not add any text unless to correct an error. Do not remove any error-free text. If any text contains an error it will be corrected to be error-free. Output will strictly be the original text verbatim except for being error-free. Do not add commentary of any kind.\n Text: "
    case Metadata => "Collect metadata regarding the following text. Determine the following: where this text belongs in the filesystem; who or what wrote it or generated it or created it; the time and date (range) of creation; the time range of its practical relevance; its purpose; its structure; its style. Output will be in JSON schema as follows: {\"file name\": <file name>, \"file_path\": <file path>, \"creator\": <creator>, \"creation_date\": <date>, \"relevance_period\": \"<date> to <date>\", \"purpose\": <purpose>, \"structure\": <structure>, \"style\": <style>, \"importance\": <a float between 0 and 1>}\n Text: "
    case Translate => "Translate the following text to English. If slang or slurs or offensive words or sexual descriptions are used you must translate them as their English equivalent without censor. It is vital that the text be translated to its most appropriate English meaning, using English slang words or offensive words if they are appropriate to convey the same meaning. Do not add any commentary of any kind.\n Text: "
  }

  /** The job a number in 0 to 3 stands for. */
  function JobOf(job: int): (j: Job)
    requires 0 <= job <= 3
    ensures j.Number() == job
  {
    if job == 0 then Summarize else if job == 1 then Edit else if job == 2 then Metadata else Translate
  }

  /** `instructions.get(job)`: jobs 0 to 3 are the four methods' instructions,
      job 4 is the bare text. */
  function Instruction(job: int): (r: Option<string>)
    ensures r.Some? <==> 0 <= job <= 4
    ensures job == 4 ==> r == Some("")
  {
    if 0 <= job <= 3 then Some(InstructionFor(JobOf(job)))
    else if job == 4 then Some("")
    else None
  }

  /** The number each job's method passes to `generate_prompt` looks up that
      job's own instruction. */
  lemma InstructionOfJob(j: Job)
    ensures Instruction(j.Number()) == Some(InstructionFor(j))
  {
    NumberOfJob(j);
  }

  /** Each job is the one its number stands for. */
  lemma NumberOfJob(j: Job)
    ensures 0 <= j.Number() <= 3 && JobOf(j.Number()) == j
  {
  }

  /** `generate_prompt`: the model's wrap around the job's instruction and the
      text. An unknown model fails to unpack `None`, an unknown job fails to
      concatenate `None`; both raise `TypeError`. */
  function GeneratePrompt(model: string, job: int, text: string): (r: Outcome<string>)
    ensures r.Returned? <==> model in KnownModels && 0 <= job <= 4
    ensures r.Returned? ==> Unwrap(WrapFor(model).value, r.value) == Some(Instruction(job).value + text)
    ensures r.Raised? ==> r.error == "TypeError"
  {
    match WrapFor(model)
    case None => Raised("TypeError")
    case Some(w) =>
      match Instruction(job)
      case None => Raised("TypeError")
      case Some(instruction) =>
        UnwrapApply(w, instruction + text);
        Returned(Apply(w, instruction + text))
  }

  /** Different texts give different prompts: the prompt carries the text whole. */
  lemma GeneratePromptInjective(model: string, job: int, a: string, b: string)
    requires GeneratePrompt(model, job, a).Returned?
    requires GeneratePrompt(model, job, a) == GeneratePrompt(model, job, b)
    ensures a == b
  {
    var w := WrapFor(model).value;
    var i := Instruction(job).value;
    assert Unwrap(w, GeneratePrompt(model, job, a).value) == Some(i + a);
    assert Unwrap(w, GeneratePrompt(model, job, b).value) == Some(i + b);
    assert a == (i + a)[|i|..] && b == (i + b)[|i|..];
  }

  /** `find_largest_context`: `bisect_right` on the size ladder; the result is
      the smallest ladder size strictly above `chunkSize`, `None` beyond it. */
  method FindLargestContext(chunkSize: int) returns (r: Option<int>)
    ensures r == NextBucket(chunkSize)
  {
    SizesShape();
    var index := BisectRight(Sizes, chunkSize);
    FirstAboveSplits(Sizes, chunkSize);
    SplitPointUnique(Sizes, chunkSize, index, FirstAbove(Sizes, chunkSize));
    if index == |Sizes| {
      r := None;
    } else {
      r := Some(Sizes[index]);
    }
  }

  /** The payload each job method sends: the prompt, the next ladder size above
      its token count as `max_length`, and twice that as `max_context_length`.
      A failed count reaches `bisect_right` as `None`, a count past the ladder
      makes the size `None` that is then doubled; both raise `TypeError`. */
  function BuildRequest(p: DocumentProcessor, job: Job, text: string): (r: Outcome<Request>)
    ensures r.Returned? <==> (GeneratePrompt(p.model, job.Number(), text).Returned? &&
      var n := p.count(GeneratePrompt(p.model, job.Number(), text).value); n.Some? && n.value < Top)
    ensures r.Raised? ==> r.error == "TypeError"
    ensures r.Returned? ==> GeneratePrompt(p.model, job.Number(), text) == Returned(r.value.prompt)
    ensures r.Returned? ==> (
      var n := p.count(r.value.prompt).value;
      && r.value.maxLength in Sizes && n < r.value.maxLength
      && (forall i :: 0 <= i < |Sizes| && n < Sizes[i] ==> r.value.maxLength <= Sizes[i])
      && r.value.maxContextLength == 2 * r.value.maxLength)
    ensures r.Returned? ==> (r.value.temperature, r.value.repPen, r.value.minP) == job.Sampling()
  {
    match GeneratePrompt(p.model, job.Number(), text)
    case Raised(e) => Raised(e)
    case Returned(prompt) =>
      match p.count(prompt)
      case None => Raised("TypeError")
      case Some(n) =>
        match NextBucket(n)
        case None => Raised("TypeError")
        case Some(size) =>
          var (temperature, repPen, minP) := job.Sampling();
          Returned(Request(prompt, temperature, repPen, size, 2 * size, minP))
  }

  /** `summarize`, `edit`, `translate` and the first half of `metadata`: the
      server's reply to the job's request, `None` when the call fails. */
  function RunJob(p: DocumentProcessor, job: Job, text: string): (r: Outcome<Option<string>>)
    ensures r.Raised? <==> BuildRequest(p, job, text).Raised?
    ensures r.Raised? ==> r.error == "TypeError"
    ensures r.Returned? ==> r.value == p.generate(BuildRequest(p, job, text).value)
  {
    match BuildRequest(p, job, text)
    case Raised(e) => Raised(e)
    case Returned(request) => Returned(p.generate(request))
  }

  /** A Python string or `None`, as a JSON value. */
  function OptStr(o: Option<string>): (v: Value)
    ensures o.None? <==> v == Null
    ensures o.Some? ==> v == Str(o.value)
  {
    match o
    case None => Null
    case Some(s) => Str(s)
  }

  /** `extract_and_validate_json`: the fenced block of the reply, parsed. The
      value is `Null` unless the message is `"Valid JSON"`. */
  function ExtractAndValidateJson(text: string, parse: string -> Decoded): (r: (Value, string))
    ensures r.1 == "Valid JSON" <==> FenceInterior(text).Some? && parse(FenceInterior(text).value).Parsed?
    ensures r.1 == "Valid JSON" ==> r.0 == parse(FenceInterior(text).value).value
    ensures r.1 != "Valid JSON" ==> r.0 == Null
    ensures FenceInterior(text).None? <==> r.1 == "No JSON block found"
  {
    match FenceInterior(text)
    case None => (Null, "No JSON block found")
    case Some(block) =>
      match parse(block)
      case Parsed(v) => (v, "Valid JSON")
      case DecodeError(m) =>
        assert ("Invalid JSON: " + m)[0] == 'I';
        (Null, "Invalid JSON: " + m)
  }

  /** A reply that fences a well-formed JSON body yields the parsed body. */
  lemma ExtractFencedBody(pre: string, ws1: string, body: string, ws2: string, post: string,
                          parse: string -> Decoded)
    requires NoTick(pre) && NoTick(body) && AllSpace(ws1) && AllSpace(ws2)
    requires |body| > 0 ==> !IsSpace(body[0]) && !IsSpace(body[|body| - 1])
    requires parse(body).Parsed?
    ensures ExtractAndValidateJson(pre + FenceOpen + ws1 + body + ws2 + FenceClose + post, parse)
      == (parse(body).value, "Valid JSON")
  {
    FenceFinds(pre, ws1, body, ws2, post);
  }

  /** `metadata`: with the `wizard` model the reply's fenced JSON, or the
      failure message; with any other model the raw reply. A failed call under
      `wizard` hands `None` to `re.search`, which raises `TypeError`. */
  function MetadataJob(p: DocumentProcessor, text: string): (r: Outcome<Value>)
    ensures r.Raised? ==> r.error == "TypeError"
    ensures r.Raised? <==> (RunJob(p, Metadata, text).Raised? ||
      (p.model == "wizard" && RunJob(p, Metadata, text).value.None?))
    ensures r.Returned? && p.model != "wizard" ==> r.value == OptStr(RunJob(p, Metadata, text).value)
    ensures r.Returned? && p.model == "wizard" ==> (
      var (v, message) := ExtractAndValidateJson(RunJob(p, Metadata, text).value.value, p.parse);
      r.value == if message == "Valid JSON" then v else Str(message))
  {
    match RunJob(p, Metadata, text)
    case Raised(e) => Raised(e)
    case Returned(reply) =>
      if p.model == "wizard" then
        match reply
        case None => Raised("TypeError")
        case Some(s) =>
          var (v, message) := ExtractAndValidateJson(s, p.parse);
          if message == "Valid JSON" then Returned(v) else Returned(Str(message))
      else Returned(OptStr(reply))
  }

  /** A job whose reply is handed back as it came: the text, or `None` when
      the call failed. */
  function TextJob(p: DocumentProcessor, job: Job, chunk: string): (r: Outcome<Value>)
    ensures r.Raised? <==> RunJob(p, job, chunk).Raised?
    ensures r.Returned? ==> r.value.Null? || r.value.Str?
    ensures r.Returned? ==> (r.value.Null? <==> RunJob(p, job, chunk).value.None?)
  {
    match RunJob(p, job, chunk)
    case Raised(e) => Raised(e)
    case Returned(o) => Returned(OptStr(o))
  }

  /** `process_chunk`: dispatch on the exact task name; any other name raises
      `ValueError`. Only metadata can return something other than text or
      `None`. */
  function ProcessChunk(p: DocumentProcessor, chunk: string, task: string): (r: Outcome<Value>)
  {
    if task == TranslateTask then TextJob(p, Translate, chunk)
    else if task == EditTask then TextJob(p, Edit, chunk)
    else if task == SummarizeTask then TextJob(p, Summarize, chunk)
    else if task == MetadataTask then
      MetadataJob(p, chunk)
    else Raised("ValueError")
  }

  /** Exactly the names outside the four tasks raise `ValueError`. */
  lemma ProcessChunkUnknown(p: DocumentProcessor, chunk: string, task: string)
    ensures ProcessChunk(p, chunk, task) == Raised("ValueError") <==>
      task != TranslateTask && task != EditTask && task != SummarizeTask && task != MetadataTask
  {
  }

  /** Only metadata can return something other than text or `None`. */
  lemma ProcessChunkText(p: DocumentProcessor, chunk: string, task: string)
    requires task != MetadataTask
    ensures ProcessChunk(p, chunk, task).Returned? ==> ProcessChunk(p, chunk, task).value.Null? || ProcessChunk(p, chunk, task).value.Str?
  {
  }

  /** `process_chunk` as a value, so the task loop can be stated for any
      chunk processor. */
  function Process(p: DocumentProcessor): (string, string) -> Outcome<Value> {
    (chunk, task) => ProcessChunk(p, chunk, task)
  }

  /** `[self.process_chunk(c, task) for c in chunks]`: every chunk's reply in
      order, or the first exception. */
  function MapChunks(process: (string, string) -> Outcome<Value>, chunks: seq<string>, task: string): (r: Outcome<seq<Value>>)
    ensures r.Returned? ==> (|r.value| == |chunks| &&
      forall i :: 0 <= i < |chunks| ==> process(chunks[i], task) == Returned(r.value[i]))
    ensures r.Raised? ==> exists i :: (0 <= i < |chunks| && process(chunks[i], task) == Raised(r.error) &&
      forall j :: 0 <= j < i ==> process(chunks[j], task).Returned?)
    decreases |chunks|
  {
    if |chunks| == 0 then Returned([])
    else
      match process(chunks[0], task)
      case Raised(e) => Raised(e)
      case Returned(v) =>
        match MapChunks(process, chunks[1..], task)
        case Raised(e) =>
          assert exists i :: (0 <= i < |chunks| && process(chunks[i], task) == Raised(e) &&
            forall j :: 0 <= j < i ==> process(chunks[j], task).Returned?) by {
            var i :| (0 <= i < |chunks| - 1 && process(chunks[1..][i], task) == Raised(e) &&
              forall j :: 0 <= j < i ==> process(chunks[1..][j], task).Returned?);
            assert forall j :: 1 <= j < i + 1 ==> chunks[j] == chunks[1..][j - 1];
          }
          Raised(e)
        case Returned(vs) => Returned([v] + vs)
  }

  /** The texts of a list of replies, `None` when one of them is not text. */
  function ReplyTexts(vs: seq<Value>): (r: Option<seq<string>>)
    ensures r.Some? <==> forall i :: 0 <= i < |vs| ==> vs[i].Str?
    ensures r.Some? ==> |r.value| == |vs| && forall i :: 0 <= i < |vs| ==> vs[i] == Str(r.value[i])
    decreases |vs|
  {
    if |vs| == 0 then Some([])
    else if !vs[0].Str? then None
    else
      match ReplyTexts(vs[1..])
      case None => None
      case Some(ts) => Some([vs[0].s] + ts)
  }

  /** The replies to a whole-document task, ready for `" ".join`: every chunk's
      reply is text, or the list comprehension raised, or joining a `None`
      raises `TypeError`. */
  function Replies(process: (string, string) -> Outcome<Value>, chunks: seq<string>, task: string): (r: Outcome<seq<string>>)
    ensures r.Returned? <==> forall i :: 0 <= i < |chunks| ==>
      process(chunks[i], task).Returned? && process(chunks[i], task).value.Str?
    ensures r.Returned? ==> (|r.value| == |chunks| &&
      forall i :: 0 <= i < |chunks| ==> process(chunks[i], task) == Returned(Str(r.value[i])))
  {
    match MapChunks(process, chunks, task)
    case Raised(e) => Raised(e)
    case Returned(vs) =>
      match ReplyTexts(vs)
      case None => Raised("TypeError")
      case Some(ts) => Returned(ts)
  }

  /** Which branch of the task loop a task takes: the tests are substring tests,
      in this order, so `"edit_summary"` edits. */
  function Route(task: string): (r: string)
    ensures r in {EditTask, SummarizeTask, MetadataTask, ""}
    ensures r == EditTask <==> Contains(task, EditTask)
  {
    if Contains(task, EditTask) then EditTask
    else if Contains(task, SummarizeTask) then SummarizeTask
    else if Contains(task, MetadataTask) then MetadataTask
    else ""
  }

  /** Some task from position `i` on takes the branch `name`. */
  predicate Wants(tasks: seq<string>, i: nat, name: string) {
    exists j :: i <= j < |tasks| && Route(tasks[j]) == name
  }

  /** How many chunks the sampled tasks draw. */
  function SampleSize(name: string): nat {
    if name == SummarizeTask then 4 else 2
  }

  /** The reply to a sample of the chunks joined with spaces. */
  function SampledTask(process: (string, string) -> Outcome<Value>, chunks: seq<string>, name: string, picks: seq<nat>): Outcome<Value>
    requires forall i :: 0 <= i < |picks| ==> picks[i] < |chunks|
  {
    process(Join(" ", Pick(chunks, picks)), name)
  }

  /** The result keys the task loop writes. */
  predicate TaskKey(k: Key) {
    k == StrKey(EditTask) || k == StrKey(SummarizeTask) || k == StrKey(MetadataTask)
  }

  /** The task loop of `process_text`, from task `i` on. Each task rewrites the
      result entry of its branch; the `call`-th sample of the run is the one
      drawn for task `call - 1`. */
  function RunTasks(process: (string, string) -> Outcome<Value>, tasks: seq<string>, i: nat, chunks: seq<string>,
                    result: seq<(Key, Value)>, sampler: Sampler): (r: Outcome<seq<(Key, Value)>>)
    requires i <= |tasks|
    requires ValidSampler(sampler)
    ensures r.Returned? ==> (|result| <= |r.value| &&
      forall j :: 0 <= j < |result| && !TaskKey(result[j].0) ==> r.value[j] == result[j])
    decreases |tasks| - i
  {
    if i == |tasks| then Returned(result)
    else
      var name := Route(tasks[i]);
      if name == EditTask then
        match Replies(process, chunks, EditTask)
        case Raised(e) => Raised(e)
        case Returned(ts) => RunTasks(process, tasks, i + 1, chunks, Put(result, StrKey(EditTask), Str(Join(" ", ts))), sampler)
      else if name != "" then
        var picks := sampler.draw(i + 1, |chunks|, Min(SampleSize(name), |chunks|));
        match SampledTask(process, chunks, name, picks)
        case Raised(e) => Raised(e)
        case Returned(v) => RunTasks(process, tasks, i + 1, chunks, Put(result, StrKey(name), v), sampler)
      else RunTasks(process, tasks, i + 1, chunks, result, sampler)
  }

  /** The loop adds exactly one entry per branch some task from `i` on takes. */
  lemma {:induction false} RunTasksKeys(process: (string, string) -> Outcome<Value>, tasks: seq<string>, i: nat, chunks: seq<string>,
                                       result: seq<(Key, Value)>, sampler: Sampler, k: Key)
    requires i <= |tasks| && ValidSampler(sampler)
    requires RunTasks(process, tasks, i, chunks, result, sampler).Returned?
    ensures HasKey(RunTasks(process, tasks, i, chunks, result, sampler).value, k) <==>
      (HasKey(result, k) || Writes(tasks, i, k))
    decreases |tasks| - i
  {
    if i < |tasks| {
      var name := Route(tasks[i]);
      var next;
      if name == EditTask {
        next := Put(result, StrKey(EditTask), Str(Join(" ", Replies(process, chunks, EditTask).value)));
      } else if name != "" {
        var picks := sampler.draw(i + 1, |chunks|, Min(SampleSize(name), |chunks|));
        next := Put(result, StrKey(name), SampledTask(process, chunks, name, picks).value);
      } else {
        next := result;
      }
      assert RunTasks(process, tasks, i, chunks, result, sampler) == RunTasks(process, tasks, i + 1, chunks, next, sampler);
      RunTasksKeys(process, tasks, i + 1, chunks, next, sampler, k);
      assert HasKey(next, k) <==> HasKey(result, k) || (name != "" && k == StrKey(name));
      assert Writes(tasks, i, k) <==> (name != "" && k == StrKey(name)) || Writes(tasks, i + 1, k) by {
        if Writes(tasks, i, k) && !(name != "" && k == StrKey(name)) {
          var j :| i <= j < |tasks| && Route(tasks[j]) != "" && k == StrKey(Route(tasks[j]));
          assert j != i;
        }
      }
    }
  }

  /** Some task from position `i` on writes the entry `k`. */
  predicate Writes(tasks: seq<string>, i: nat, k: Key) {
    exists j :: i <= j < |tasks| && Route(tasks[j]) != "" && k == StrKey(Route(tasks[j]))
  }

  /** An entry no later task writes keeps the value it had. */
  lemma {:induction false} RunTasksKeeps(process: (string, string) -> Outcome<Value>, tasks: seq<string>, i: nat, chunks: seq<string>,
                                        result: seq<(Key, Value)>, sampler: Sampler, k: Key)
    requires i <= |tasks| && ValidSampler(sampler)
    requires RunTasks(process, tasks, i, chunks, result, sampler).Returned?
    requires forall j :: i <= j < |tasks| ==> k != StrKey(Route(tasks[j]))
    ensures Get(RunTasks(process, tasks, i, chunks, result, sampler).value, k) == Get(result, k)
    decreases |tasks| - i
  {
    if i < |tasks| {
      var name := Route(tasks[i]);
      if name == EditTask {
        var ts := Replies(process, chunks, EditTask).value;
        var next := Put(result, StrKey(EditTask), Str(Join(" ", ts)));
        RunTasksKeeps(process, tasks, i + 1, chunks, next, sampler, k);
        GetPutOther(result, StrKey(EditTask), Str(Join(" ", ts)), k);
      } else if name != "" {
        var picks := sampler.draw(i + 1, |chunks|, Min(SampleSize(name), |chunks|));
        var v := SampledTask(process, chunks, name, picks).value;
        RunTasksKeeps(process, tasks, i + 1, chunks, Put(result, StrKey(name), v), sampler, k);
        GetPutOther(result, StrKey(name), v, k);
      } else {
        RunTasksKeeps(process, tasks, i + 1, chunks, result, sampler, k);
      }
    }
  }

  /** Whole-document editing: when any task edits, the `edit` entry is every
      chunk's edited text, in order, joined with spaces. */
  lemma {:induction false} RunTasksEdit(process: (string, string) -> Outcome<Value>, tasks: seq<string>, i: nat, chunks: seq<string>,
                                       result: seq<(Key, Value)>, sampler: Sampler)
    requires i <= |tasks| && ValidSampler(sampler)
    requires RunTasks(process, tasks, i, chunks, result, sampler).Returned?
    requires Wants(tasks, i, EditTask)
    ensures Replies(process, chunks, EditTask).Returned?
    ensures Get(RunTasks(process, tasks, i, chunks, result, sampler).value, StrKey(EditTask))
      == Some(Str(Join(" ", Replies(process, chunks, EditTask).value)))
    decreases |tasks| - i
  {
    var name := Route(tasks[i]);
    if name == EditTask {
      var ts := Replies(process, chunks, EditTask).value;
      var next := Put(result, StrKey(EditTask), Str(Join(" ", ts)));
      assert RunTasks(process, tasks, i, chunks, result, sampler) == RunTasks(process, tasks, i + 1, chunks, next, sampler);
      if Wants(tasks, i + 1, EditTask) {
        RunTasksEdit(process, tasks, i + 1, chunks, next, sampler);
      } else {
        RunTasksKeeps(process, tasks, i + 1, chunks, next, sampler, StrKey(EditTask));
      }
    } else {
      WantsNext(tasks, i, EditTask);
      if name != "" {
        var picks := sampler.draw(i + 1, |chunks|, Min(SampleSize(name), |chunks|));
        var v := SampledTask(process, chunks, name, picks).value;
        var next := Put(result, StrKey(name), v);
        assert RunTasks(process, tasks, i, chunks, result, sampler) == RunTasks(process, tasks, i + 1, chunks, next, sampler);
        RunTasksEdit(process, tasks, i + 1, chunks, next, sampler);
      } else {
        assert RunTasks(process, tasks, i, chunks, result, sampler) == RunTasks(process, tasks, i + 1, chunks, result, sampler);
        RunTasksEdit(process, tasks, i + 1, chunks, result, sampler);
      }
    }
  }

  /** A task that takes another branch does not satisfy a wish for `name`. */
  lemma WantsNext(tasks: seq<string>, i: nat, name: string)
    requires i < |tasks| && Wants(tasks, i, name) && Route(tasks[i]) != name
    ensures Wants(tasks, i + 1, name)
  {
    var j :| i <= j < |tasks| && Route(tasks[j]) == name;
    assert j != i;
  }

  /** A branch some task from `i` on takes has its entry in the result. */
  lemma RunTasksWrites(process: (string, string) -> Outcome<Value>, tasks: seq<string>, i: nat, chunks: seq<string>,
                       result: seq<(Key, Value)>, sampler: Sampler, name: string)
    requires i <= |tasks| && ValidSampler(sampler)
    requires RunTasks(process, tasks, i, chunks, result, sampler).Returned?
    requires name != "" && Wants(tasks, i, name)
    ensures HasKey(RunTasks(process, tasks, i, chunks, result, sampler).value, StrKey(name))
  {
    var j :| i <= j < |tasks| && Route(tasks[j]) == name;
    RunTasksKeys(process, tasks, i, chunks, result, sampler, StrKey(name));
    assert Writes(tasks, i, StrKey(name));
  }

  /** The entry `name` of a result is the reply to a valid sample of
      `min(SampleSize(name), n)` of the `n` chunks. */
  ghost predicate SampleEntry(process: (string, string) -> Outcome<Value>, chunks: seq<string>, name: string,
                        r: seq<(Key, Value)>) {
    && HasKey(r, StrKey(name))
    && exists picks :: (ValidSample(picks, |chunks|, Min(SampleSize(name), |chunks|)) &&
         SampledTask(process, chunks, name, picks) == Returned(Get(r, StrKey(name)).value))
  }

  /** Summaries and metadata read a sample: when a task asks for one, its entry
      is the reply to `min(4, n)` (summaries) or `min(2, n)` (metadata)
      distinct chunks joined with spaces. */
  lemma {:induction false} RunTasksSample(process: (string, string) -> Outcome<Value>, tasks: seq<string>, i: nat, chunks: seq<string>,
                                         result: seq<(Key, Value)>, sampler: Sampler, name: string)
    requires i <= |tasks| && ValidSampler(sampler)
    requires RunTasks(process, tasks, i, chunks, result, sampler).Returned?
    requires name == SummarizeTask || name == MetadataTask
    requires Wants(tasks, i, name)
    ensures SampleEntry(process, chunks, name, RunTasks(process, tasks, i, chunks, result, sampler).value)
    decreases |tasks| - i, 1
  {
    var here := Route(tasks[i]);
    if here == EditTask {
      SampleAfterEdit(process, tasks, i, chunks, result, sampler, name);
    } else if here != "" {
      SampleAfterDraw(process, tasks, i, chunks, result, sampler, name);
    } else {
      SampleAfterIdle(process, tasks, i, chunks, result, sampler, name);
    }
  }

  /** An editing task passes the sampled entry through. */
  lemma SampleAfterEdit(process: (string, string) -> Outcome<Value>, tasks: seq<string>, i: nat, chunks: seq<string>,
                        result: seq<(Key, Value)>, sampler: Sampler, name: string)
    requires i < |tasks| && ValidSampler(sampler)
    requires RunTasks(process, tasks, i, chunks, result, sampler).Returned?
    requires name == SummarizeTask || name == MetadataTask
    requires Wants(tasks, i, name)
    requires Route(tasks[i]) == EditTask
    ensures SampleEntry(process, chunks, name, RunTasks(process, tasks, i, chunks, result, sampler).value)
    decreases |tasks| - i, 0
  {
    TaskNamesDistinct();
    var next := Put(result, StrKey(EditTask), Str(Join(" ", Replies(process, chunks, EditTask).value)));
    assert RunTasks(process, tasks, i, chunks, result, sampler) == RunTasks(process, tasks, i + 1, chunks, next, sampler);
    WantsNext(tasks, i, name);
    RunTasksSample(process, tasks, i + 1, chunks, next, sampler, name);
  }

  /** A sampled task writes the entry, which stays when no later task takes
      the branch again. */
  lemma SampleAfterDraw(process: (string, string) -> Outcome<Value>, tasks: seq<string>, i: nat, chunks: seq<string>,
                        result: seq<(Key, Value)>, sampler: Sampler, name: string)
    requires i < |tasks| && ValidSampler(sampler)
    requires RunTasks(process, tasks, i, chunks, result, sampler).Returned?
    requires name == SummarizeTask || name == MetadataTask
    requires Wants(tasks, i, name)
    requires Route(tasks[i]) != EditTask && Route(tasks[i]) != ""
    ensures SampleEntry(process, chunks, name, RunTasks(process, tasks, i, chunks, result, sampler).value)
    decreases |tasks| - i, 0
  {
    var here := Route(tasks[i]);
    var picks := sampler.draw(i + 1, |chunks|, Min(SampleSize(here), |chunks|));
    var v := SampledTask(process, chunks, here, picks).value;
    var next := Put(result, StrKey(here), v);
    assert RunTasks(process, tasks, i, chunks, result, sampler) == RunTasks(process, tasks, i + 1, chunks, next, sampler);
    if Wants(tasks, i + 1, name) {
      RunTasksSample(process, tasks, i + 1, chunks, next, sampler, name);
    } else {
      TaskNamesDistinct();
      RunTasksSampleHere(process, tasks, i, chunks, result, sampler, name);
    }
  }

  /** A task that takes no branch changes nothing. */
  lemma SampleAfterIdle(process: (string, string) -> Outcome<Value>, tasks: seq<string>, i: nat, chunks: seq<string>,
                        result: seq<(Key, Value)>, sampler: Sampler, name: string)
    requires i < |tasks| && ValidSampler(sampler)
    requires RunTasks(process, tasks, i, chunks, result, sampler).Returned?
    requires name == SummarizeTask || name == MetadataTask
    requires Wants(tasks, i, name)
    requires Route(tasks[i]) == ""
    ensures SampleEntry(process, chunks, name, RunTasks(process, tasks, i, chunks, result, sampler).value)
    decreases |tasks| - i, 0
  {
    TaskNamesDistinct();
    assert RunTasks(process, tasks, i, chunks, result, sampler) == RunTasks(process, tasks, i + 1, chunks, result, sampler);
    WantsNext(tasks, i, name);
    RunTasksSample(process, tasks, i + 1, chunks, result, sampler, name);
  }

  /** The last task taking a sampled branch gives that branch's entry. */
  lemma RunTasksSampleHere(process: (string, string) -> Outcome<Value>, tasks: seq<string>, i: nat, chunks: seq<string>,
                           result: seq<(Key, Value)>, sampler: Sampler, name: string)
    requires i < |tasks| && ValidSampler(sampler)
    requires RunTasks(process, tasks, i, chunks, result, sampler).Returned?
    requires name != "" && name != EditTask && Route(tasks[i]) == name && !Wants(tasks, i + 1, name)
    ensures SampleEntry(process, chunks, name, RunTasks(process, tasks, i, chunks, result, sampler).value)
  {
    var picks := sampler.draw(i + 1, |chunks|, Min(SampleSize(name), |chunks|));
    var v := SampledTask(process, chunks, name, picks).value;
    var next := Put(result, StrKey(name), v);
    assert RunTasks(process, tasks, i, chunks, result, sampler) == RunTasks(process, tasks, i + 1, chunks, next, sampler);
    RunTasksKeeps(process, tasks, i + 1, chunks, next, sampler, StrKey(name));
    assert ValidSample(picks, |chunks|, Min(SampleSize(name), |chunks|));
  }

  /** The text `process_text` works on: the document content after
      `clean_text`. */
  function Cleaned(p: DocumentProcessor, content: Option<string>): string {
    CleanText(p.fix, content)
  }

  /** The chunks of the cleaned document, sampling up to 1000 sentences (the
      value `process_text` passes as `sample_size`); the chunk size is the
      processor's own. */
  function DocumentChunks(p: DocumentProcessor, content: Option<string>, sampler: Sampler): (r: Outcome<seq<string>>)
    requires ValidSampler(sampler)
    ensures r.Returned? ==> |p.segment(Cleaned(p, content))| > 0 && |r.value| > 0
    ensures r.Returned? ==> Join(" ", r.value) == Join(" ", p.segment(Cleaned(p, content)))
  {
    var sentences := p.segment(Cleaned(p, content));
    var picks := sampler.draw(0, |sentences|, Min(1000, |sentences|));
    var r := SampledChunks(sentences, p.chunkSize, 1000, p.count, picks);
    assert r.Returned? ==> |sentences| > 0 && |r.value| > 0 by {
      if r.Returned? {
        assert |picks| > 0;
        var spc := SentencesPerChunk(p.chunkSize, SampleTotal(sentences, p.count, picks).value, |picks|);
        assert |r.value| == (|sentences| + spc - 1) / spc;
        assert |sentences| + spc - 1 >= spc;
      }
    }
    r
  }

  /** How `process_text`'s chunking ends: a count that is not a number fails
      the `/`, as do no sentences and a zero count; otherwise the cleaned
      document's sentences are cut in order into `ceil(#sentences / spc)`
      runs of `spc`. */
  lemma DocumentChunksOutcome(p: DocumentProcessor, content: Option<string>, sampler: Sampler)
    requires ValidSampler(sampler)
    ensures var sentences := p.segment(Cleaned(p, content));
      var total := SampleTotal(sentences, p.count, sampler.draw(0, |sentences|, Min(1000, |sentences|)));
      var r := DocumentChunks(p, content, sampler);
      && (r == Raised("TypeError") <==> total.None?)
      && (r == Raised("ZeroDivisionError") <==> total.Some? && (|sentences| == 0 || total.value == 0))
      && (r.Returned? <==> total.Some? && |sentences| > 0 && total.value > 0)
      && (r.Returned? ==>
            total.Some? && total.value > 0 &&
            var spc := SentencesPerChunk(p.chunkSize, total.value, Min(1000, |sentences|));
            |r.value| == (|sentences| + spc - 1) / spc && ChunkedBy(sentences, spc, r.value))
  {
    var sentences := p.segment(Cleaned(p, content));
    var picks := sampler.draw(0, |sentences|, Min(1000, |sentences|));
    assert |picks| == Min(1000, |sentences|);
    var r := SampledChunks(sentences, p.chunkSize, 1000, p.count, picks);
    assert DocumentChunks(p, content, sampler) == r;
    if r.Returned? {
      SampledChunksPartition(sentences, p.chunkSize, 1000, p.count, picks);
    }
  }

  /** Whether the document is translated first. */
  predicate Translating(p: DocumentProcessor, content: Option<string>, tasks: seq<string>) {
    p.notEnglish(Cleaned(p, content)) && TranslateTask in tasks
  }

  /** The chunks the task loop works on and the result it starts from: the
      file info and Tika's metadata, and for a non-English document with
      `translate` asked for, the translation of every chunk in their place and
      joined under `translate`. */
  function Prepare(p: DocumentProcessor, fileInfo: Value, content: Option<string>, tikaMetadata: Value,
                   tasks: seq<string>, chunks: seq<string>): (r: Outcome<(seq<string>, seq<(Key, Value)>)>)
    ensures r.Returned? ==> (
      var result := r.value.1;
      && |result| >= 2 && result[0] == (StrKey("file_info"), fileInfo)
      && result[1] == (StrKey("tika_metadata"), tikaMetadata)
      && forall k :: HasKey(result, k) <==>
        (|| k == StrKey("file_info") || k == StrKey("tika_metadata")
         || (k == StrKey(TranslateTask) && Translating(p, content, tasks))))
    ensures r.Returned? && Translating(p, content, tasks) ==>
      Replies(Process(p), chunks, TranslateTask) == Returned(r.value.0)
    ensures r.Returned? && !Translating(p, content, tasks) ==> r.value.0 == chunks
  {
    var result := [(StrKey("file_info"), fileInfo), (StrKey("tika_metadata"), tikaMetadata)];
    assert forall k :: HasKey(result, k) <==> k == StrKey("file_info") || k == StrKey("tika_metadata") by {
      forall k ensures HasKey(result, k) <==> k == StrKey("file_info") || k == StrKey("tika_metadata") {
        assert result[0].0 == StrKey("file_info") && result[1].0 == StrKey("tika_metadata");
        if HasKey(result, k) {
          var i :| 0 <= i < |result| && result[i].0 == k;
          assert i == 0 || i == 1;
        }
      }
    }
    if Translating(p, content, tasks) then
      match Replies(Process(p), chunks, TranslateTask)
      case Raised(e) => Raised(e)
      case Returned(translated) =>
        Returned((translated, Put(result, StrKey(TranslateTask), Str(Join(" ", translated)))))
    else Returned((chunks, result))
  }

  /** `process_text` for a document whose Tika content is `content`: the result
      starts with the file info and Tika's metadata; a non-English document is
      translated chunk by chunk when `translate` is asked for, and the task
      loop then works on the translated chunks. */
  function ProcessText(p: DocumentProcessor, fileInfo: Value, content: Option<string>, tikaMetadata: Value,
                       tasks: seq<string>, sampler: Sampler): (r: Outcome<seq<(Key, Value)>>)
    requires ValidSampler(sampler)
    ensures r.Returned? ==> DocumentChunks(p, content, sampler).Returned?
  {
    var chunks := DocumentChunks(p, content, sampler);
    if chunks.Raised? then Raised(chunks.error)
    else
      var prepared := Prepare(p, fileInfo, content, tikaMetadata, tasks, chunks.value);
      if prepared.Raised? then Raised(prepared.error)
      else RunTasks(Process(p), tasks, 0, prepared.value.0, prepared.value.1, sampler)
  }

  /** The result starts with the file info and Tika's metadata. */
  lemma ProcessTextHead(p: DocumentProcessor, fileInfo: Value, content: Option<string>, tikaMetadata: Value,
                        tasks: seq<string>, sampler: Sampler)
    requires ValidSampler(sampler)
    requires ProcessText(p, fileInfo, content, tikaMetadata, tasks, sampler).Returned?
    ensures var r := ProcessText(p, fileInfo, content, tikaMetadata, tasks, sampler).value;
      |r| >= 2 && r[0] == (StrKey("file_info"), fileInfo) && r[1] == (StrKey("tika_metadata"), tikaMetadata)
  {
    var chunks := DocumentChunks(p, content, sampler).value;
    var prepared := Prepare(p, fileInfo, content, tikaMetadata, tasks, chunks).value;
    var result := prepared.1;
    var r := RunTasks(Process(p), tasks, 0, prepared.0, result, sampler);
    assert ProcessText(p, fileInfo, content, tikaMetadata, tasks, sampler) == r;
    assert result[0] == (StrKey("file_info"), fileInfo) && result[1] == (StrKey("tika_metadata"), tikaMetadata);
    assert !TaskKey(result[0].0) && !TaskKey(result[1].0);
  }

  /** The result holds exactly the file info, Tika's metadata, the translation
      when the document was translated, and one entry per branch some task
      took. */
  lemma ProcessTextKeys(p: DocumentProcessor, fileInfo: Value, content: Option<string>, tikaMetadata: Value,
                        tasks: seq<string>, sampler: Sampler, k: Key)
    requires ValidSampler(sampler)
    requires ProcessText(p, fileInfo, content, tikaMetadata, tasks, sampler).Returned?
    ensures HasKey(ProcessText(p, fileInfo, content, tikaMetadata, tasks, sampler).value, k) <==>
      (|| k == StrKey("file_info") || k == StrKey("tika_metadata")
       || (k == StrKey(TranslateTask) && Translating(p, content, tasks))
       || Writes(tasks, 0, k))
  {
    var chunks := DocumentChunks(p, content, sampler).value;
    var prepared := Prepare(p, fileInfo, content, tikaMetadata, tasks, chunks).value;
    var r := RunTasks(Process(p), tasks, 0, prepared.0, prepared.1, sampler);
    assert ProcessText(p, fileInfo, content, tikaMetadata, tasks, sampler) == r;
    RunTasksKeys(Process(p), tasks, 0, prepared.0, prepared.1, sampler, k);
  }
}
