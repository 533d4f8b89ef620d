/** `tasker.py`: the task runner built on `llmer.py`. Its `clean_json` turns
    newlines into spaces before looking for JSON, strips trailing commas and
    lets parse errors escape; its extension filter also accepts a bare
    extension; its task loop writes nothing for an empty task configuration
    and returns `None` when no task wrote anything. */
module Tasker {
  import opened Wrappers
  import opened Text
  import opened Json
  import opened Chunking
  import opened Sanitize
  import opened Files
  import Llmer

  // ----- clean_json -----

  /** The text `clean_json` hands to the parser, if it finds one: the fenced
      block, else the brace span, of the newline-free input, with trailing
      commas before `}` and then before `]` removed. */
  function Candidate(flat: string): (r: Option<string>)
    ensures FenceInterior(flat).Some? ==>
      r == Some(SubCommaClose(SubCommaClose(FenceInterior(flat).value, '}'), ']'))
    ensures FenceInterior(flat).None? ==> (r.Some? <==> BraceSpan(flat).Some?)
    ensures FenceInterior(flat).None? && BraceSpan(flat).Some? ==>
      r == Some(SubCommaClose(SubCommaClose(BraceSpan(flat).value, '}'), ']'))
  {
    var found := if FenceInterior(flat).Some? then FenceInterior(flat) else BraceSpan(flat);
    match found
    case None => None
    case Some(s) => Some(SubCommaClose(SubCommaClose(s, '}'), ']'))
  }

  /** `clean_json`: `None` becomes `""`; text without a fence or brace span
      comes back with its newlines turned into spaces; otherwise the cleaned
      candidate goes to `json.loads(repair_json(.))` (the opaque `load`),
      whose failure is not caught. */
  function CleanJson(data: Option<string>, load: string -> Decoded): (r: Outcome<Value>)
    ensures data.None? ==> r == Returned(Str(""))
    ensures data.Some? && Candidate(ReplaceChar(data.value, '\n', ' ')).None? ==>
      r == Returned(Str(ReplaceChar(data.value, '\n', ' ')))
    ensures data.Some? && Candidate(ReplaceChar(data.value, '\n', ' ')).Some? ==> (
      var d := load(Candidate(ReplaceChar(data.value, '\n', ' ')).value);
      r == if d.Parsed? then Returned(d.value) else Raised("JSONDecodeError"))
    ensures r.Raised? ==> r.error == "JSONDecodeError"
  {
    match data
    case None => Returned(Str(""))
    case Some(s) =>
      var flat := ReplaceChar(s, '\n', ' ');
      match Candidate(flat)
      case None => Returned(Str(flat))
      case Some(c) =>
        match load(c)
        case Parsed(v) => Returned(v)
        case DecodeError(_) => Raised("JSONDecodeError")
  }

  /** The fallback never leaves a newline in the text. */
  lemma FallbackHasNoNewline(s: string, load: string -> Decoded)
    requires Candidate(ReplaceChar(s, '\n', ' ')).None?
    ensures CleanJson(Some(s), load).Returned? && CleanJson(Some(s), load).value.Str?
    ensures '\n' !in CleanJson(Some(s), load).value.s
    ensures |CleanJson(Some(s), load).value.s| == |s|
  {
    var flat := ReplaceChar(s, '\n', ' ');
    assert forall k :: 0 <= k < |flat| ==> flat[k] != '\n';
  }

  /** The rewrite before parsing drops commas and whitespace only: the other
      characters of the fenced block or brace span reach the parser in order. */
  lemma CandidateKeepsEssential(flat: string)
    requires Candidate(flat).Some?
    ensures var found := if FenceInterior(flat).Some? then FenceInterior(flat) else BraceSpan(flat);
      found.Some? && Essential(Candidate(flat).value) == Essential(found.value)
  {
    var found := if FenceInterior(flat).Some? then FenceInterior(flat) else BraceSpan(flat);
    var s := found.value;
    var once := SubCommaClose(s, '}');
    SubKeepsEssential(s, '}', 0);
    SubKeepsEssential(once, ']', 0);
    assert s[0..] == s && once[0..] == once;
  }

  /** A fenced block wins over braces elsewhere: a one-line reply fencing a
      comma-free body parses that body. */
  lemma CleanJsonPrefersFence(pre: string, ws1: string, body: string, ws2: string, post: string,
                              load: string -> Decoded)
    requires NoTick(pre) && NoTick(body) && AllSpace(ws1) && AllSpace(ws2)
    requires |body| > 0 ==> !IsSpace(body[0]) && !IsSpace(body[|body| - 1])
    requires '\n' !in pre + FenceOpen + ws1 + body + ws2 + FenceClose + post
    requires forall k :: 0 <= k < |body| ==> body[k] != ','
    ensures CleanJson(Some(pre + FenceOpen + ws1 + body + ws2 + FenceClose + post), load) ==
      if load(body).Parsed? then Returned(load(body).value) else Raised("JSONDecodeError")
  {
    var s := pre + FenceOpen + ws1 + body + ws2 + FenceClose + post;
    ReplaceUnchanged(s);
    FenceFinds(pre, ws1, body, ws2, post);
    SubWithoutComma(body, '}', 0);
    assert body[0..] == body;
    SubWithoutComma(body, ']', 0);
  }

  lemma ReplaceUnchanged(s: string)
    requires '\n' !in s
    ensures ReplaceChar(s, '\n', ' ') == s
  {
  }

  /** `{"a":1, }` reaches the parser as `{"a":1}`. */
  lemma CleanJsonTrailingComma(load: string -> Decoded)
    ensures Candidate("{\"a\":1, }") == Some("{\"a\":1}")
  {
    var s := "{\"a\":1, }";
    var t := "{\"a\":1}";
    NoTickNoFence(s);
    TrailingCommaSpan();
    SubExample();
    TrailingCommaBracketPass();
    assert Candidate(s) == Some(SubCommaClose(SubCommaClose(s, '}'), ']'));
  }

  lemma TrailingCommaSpan()
    ensures BraceSpan("{\"a\":1, }") == Some("{\"a\":1, }")
  {
    var s := "{\"a\":1, }";
    BraceSpanAt(s, 0, 8);
    assert s[0..9] == s;
  }

  lemma TrailingCommaBracketPass()
    ensures SubCommaClose("{\"a\":1}", ']') == "{\"a\":1}"
  {
    var t := "{\"a\":1}";
    assert forall m :: 0 <= m < |t| ==> t[m] != ',';
    SubWithoutComma(t, ']', 0);
    assert t[0..] == t;
  }

  // ----- FileCrawler -----

  /** One entry of `--categories` against an extension: a category name
      matches the extensions it lists, any other entry matches itself. */
  predicate Matches(ext: string, entry: string) {
    if Listed(entry) != [] then ext in Listed(entry) else ext == entry
  }

  /** The loop over the entries. */
  function AnyMatch(ext: string, entries: seq<string>): bool
    decreases |entries|
  {
    if |entries| == 0 then false
    else if Matches(ext, entries[0]) then true
    else AnyMatch(ext, entries[1..])
  }

  /** The loop answers whether some entry matches. */
  lemma {:induction false} AnyMatchExists(ext: string, entries: seq<string>)
    ensures AnyMatch(ext, entries) <==> exists i :: 0 <= i < |entries| && Matches(ext, entries[i])
    decreases |entries|
  {
    if |entries| > 0 && !Matches(ext, entries[0]) {
      AnyMatchExists(ext, entries[1..]);
      if exists i :: 0 <= i < |entries| && Matches(ext, entries[i]) {
        var i :| 0 <= i < |entries| && Matches(ext, entries[i]);
        assert entries[1..][i - 1] == entries[i];
      }
      if AnyMatch(ext, entries) {
        var i :| 0 <= i < |entries[1..]| && Matches(ext, entries[1..][i]);
        assert entries[i + 1] == entries[1..][i];
      }
    }
  }

  /** `should_include_file`: `'all'` takes everything, otherwise some entry
      must match. Without `--categories` the list is `None`, and `in` on it
      raises. */
  function ShouldIncludeFile(ext: string, categories: Option<seq<string>>): (r: Outcome<bool>)
    ensures r.Raised? <==> categories.None?
    ensures r.Raised? ==> r.error == "TypeError"
    ensures r == Returned(true) <==> (categories.Some? &&
      ("all" in categories.value || exists i :: 0 <= i < |categories.value| && Matches(ext, categories.value[i])))
  {
    match categories
    case None => Raised("TypeError")
    case Some(cs) => AnyMatchExists(ext, cs); Returned("all" in cs || AnyMatch(ext, cs))
  }

  /** A category name takes its extensions, and a bare extension that names
      no category takes that extension alone. */
  lemma ShouldIncludeExamples()
    ensures ShouldIncludeFile("pdf", Some(["document"])) == Returned(true)
    ensures ShouldIncludeFile("md", Some(["md"])) == Returned(true)
    ensures ShouldIncludeFile("exe", Some(["document", "md"])) == Returned(false)
  {
    assert Categories[0].0 == "document";
    assert Listed("document") == Categories[0].1;
    assert Matches("pdf", "document");
    assert "document" in ["document"];
    assert Listed("md") == [] by {
      assert forall i :: 0 <= i < |Categories| ==> Categories[i].0 != "md";
    }
    assert Matches("md", ["md"][0]);
    var cs := ["document", "md"];
    assert !Matches("exe", cs[0]);
    assert !Matches("exe", cs[1]);
  }

  // ----- TaskProcessor.process_tasks -----

  /** What one task writes into the result, or `None` when it writes nothing
      (its configuration is an empty dictionary). `run` is `process_text` of
      `llmer.py` on the document for a task's settings, its `num_chunks` and
      the task's index. */
  function TaskEntry(run: (seq<(Key, Value)>, Option<int>, nat) -> Outcome<Option<string>>, config: Value,
                     task: string, call: nat, load: string -> Decoded): (v: Option<Value>)
    ensures ConfigHas(config, task) == Returned(false) ==> v == Some(Str("Invalid task"))
    ensures ConfigHas(config, task).Raised? ==> v == Some(ErrorEntry("TypeError"))
    ensures !config.Dict? && ConfigHas(config, task) == Returned(true) ==> v == Some(ErrorEntry("AttributeError"))
    ensures v.None? <==> (config.Dict? && HasKey(config.entries, StrKey(task)) &&
      Get(config.entries, StrKey(task)).value == Dict([]))
    ensures config.Dict? && HasKey(config.entries, StrKey(task)) ==> (
      var tc := Get(config.entries, StrKey(task)).value;
      && (!tc.Dict? ==> v == Some(ErrorEntry("AttributeError")))
      && (tc.Dict? && |tc.entries| > 0 ==> (
        var out := run(tc.entries, NumChunksOf(Get(tc.entries, StrKey("num_chunks"))), call);
        && (out.Raised? ==> v == Some(ErrorEntry(out.error)))
        && (out.Returned? && CleanJson(out.value, load).Raised? ==>
              v == Some(ErrorEntry(CleanJson(out.value, load).error)))
        && (out.Returned? && CleanJson(out.value, load).Returned? ==>
              v == Some(CleanJson(out.value, load).value)))))
  {
    match ConfigHas(config, task)
    case Raised(e) => Some(ErrorEntry(e))
    case Returned(false) => Some(Str("Invalid task"))
    case Returned(true) =>
      if !config.Dict? || !Get(config.entries, StrKey(task)).value.Dict? then Some(ErrorEntry("AttributeError"))
      else
        var tes := Get(config.entries, StrKey(task)).value.entries;
        if |tes| == 0 then None
        else
          match run(tes, NumChunksOf(Get(tes, StrKey("num_chunks"))), call)
          case Raised(e) => Some(ErrorEntry(e))
          case Returned(o) =>
            match CleanJson(o, load)
            case Raised(e) => Some(ErrorEntry(e))
            case Returned(cleaned) => Some(cleaned)
  }

  /** The entries the tasks would write, task by task. */
  function Entries(run: (seq<(Key, Value)>, Option<int>, nat) -> Outcome<Option<string>>, config: Value,
                   tasks: seq<string>, load: string -> Decoded): (es: seq<Option<Value>>)
    ensures |es| == |tasks|
    ensures forall j :: 0 <= j < |tasks| ==> es[j] == TaskEntry(run, config, tasks[j], j, load)
  {
    seq(|tasks|, j requires 0 <= j < |tasks| => TaskEntry(run, config, tasks[j], j, load))
  }

  /** The loop from task `i` on: each written entry is stored under its task. */
  function Record(tasks: seq<string>, entries: seq<Option<Value>>, i: nat, result: seq<(Key, Value)>)
    : seq<(Key, Value)>
    requires i <= |tasks| == |entries|
    decreases |tasks| - i
  {
    if i == |tasks| then result
    else
      match entries[i]
      case None => Record(tasks, entries, i + 1, result)
      case Some(v) => Record(tasks, entries, i + 1, Put(result, StrKey(tasks[i]), v))
  }

  /** The loop keeps the keys of a dictionary distinct. */
  lemma {:induction false} RecordDistinct(tasks: seq<string>, entries: seq<Option<Value>>, i: nat,
                                         result: seq<(Key, Value)>)
    requires i <= |tasks| == |entries| && DistinctKeys(result)
    ensures DistinctKeys(Record(tasks, entries, i, result))
    decreases |tasks| - i
  {
    if i < |tasks| {
      var next := if entries[i].Some? then Put(result, StrKey(tasks[i]), entries[i].value) else result;
      assert Record(tasks, entries, i, result) == Record(tasks, entries, i + 1, next);
      RecordDistinct(tasks, entries, i + 1, next);
    }
  }

  /** Some task from position `i` on writes under key `k`. */
  predicate WroteFrom(tasks: seq<string>, entries: seq<Option<Value>>, i: nat, k: Key)
    requires |tasks| == |entries|
  {
    exists j :: i <= j < |tasks| && k == StrKey(tasks[j]) && entries[j].Some?
  }

  lemma WroteFromStep(tasks: seq<string>, entries: seq<Option<Value>>, i: nat, k: Key)
    requires i < |tasks| == |entries|
    ensures WroteFrom(tasks, entries, i, k) <==>
      (k == StrKey(tasks[i]) && entries[i].Some?) || WroteFrom(tasks, entries, i + 1, k)
  {
    if WroteFrom(tasks, entries, i, k) {
      var j :| i <= j < |tasks| && k == StrKey(tasks[j]) && entries[j].Some?;
      if j > i {
        assert WroteFrom(tasks, entries, i + 1, k);
      }
    }
  }

  /** The loop adds exactly the keys of the tasks that write. */
  lemma {:induction false} RecordKeys(tasks: seq<string>, entries: seq<Option<Value>>, i: nat,
                                     result: seq<(Key, Value)>, k: Key)
    requires i <= |tasks| == |entries|
    ensures HasKey(Record(tasks, entries, i, result), k) <==> HasKey(result, k) || WroteFrom(tasks, entries, i, k)
    decreases |tasks| - i, 1
  {
    if i < |tasks| {
      if entries[i].None? {
        RecordKeysSkip(tasks, entries, i, result, k);
      } else {
        RecordKeysWrite(tasks, entries, i, result, k);
      }
    }
  }

  /** A task that writes nothing adds no key. */
  lemma {:induction false} RecordKeysSkip(tasks: seq<string>, entries: seq<Option<Value>>, i: nat,
                                         result: seq<(Key, Value)>, k: Key)
    requires i < |tasks| == |entries| && entries[i].None?
    ensures HasKey(Record(tasks, entries, i, result), k) <==> HasKey(result, k) || WroteFrom(tasks, entries, i, k)
    decreases |tasks| - i, 0
  {
    WroteFromStep(tasks, entries, i, k);
    assert Record(tasks, entries, i, result) == Record(tasks, entries, i + 1, result);
    RecordKeys(tasks, entries, i + 1, result, k);
  }

  /** A task that writes adds its own key. */
  lemma {:induction false} RecordKeysWrite(tasks: seq<string>, entries: seq<Option<Value>>, i: nat,
                                          result: seq<(Key, Value)>, k: Key)
    requires i < |tasks| == |entries| && entries[i].Some?
    ensures HasKey(Record(tasks, entries, i, result), k) <==> HasKey(result, k) || WroteFrom(tasks, entries, i, k)
    decreases |tasks| - i, 0
  {
    WroteFromStep(tasks, entries, i, k);
    var next := Put(result, StrKey(tasks[i]), entries[i].value);
    assert Record(tasks, entries, i, result) == Record(tasks, entries, i + 1, next);
    RecordKeys(tasks, entries, i + 1, next, k);
    assert HasKey(next, k) <==> HasKey(result, k) || k == StrKey(tasks[i]);
  }

  /** The dictionary the loop leaves for a document. */
  function Collected(run: (seq<(Key, Value)>, Option<int>, nat) -> Outcome<Option<string>>, config: Value,
                     fileInfo: Value, tasks: seq<string>, load: string -> Decoded): seq<(Key, Value)> {
    Record(tasks, Entries(run, config, tasks, load), 0, [(StrKey("file_info"), fileInfo)])
  }

  /** `process_tasks`: the file info, then the entries the tasks write; `None`
      when that leaves only one key. */
  function ProcessTasks(run: (seq<(Key, Value)>, Option<int>, nat) -> Outcome<Option<string>>, config: Value,
                        fileInfo: Value, tasks: seq<string>, load: string -> Decoded)
    : (r: Option<seq<(Key, Value)>>)
    ensures r.Some? ==> |r.value| > 1 && DistinctKeys(r.value)
    ensures r.Some? ==> r.value == Collected(run, config, fileInfo, tasks, load)
  {
    var r := Collected(run, config, fileInfo, tasks, load);
    RecordDistinct(tasks, Entries(run, config, tasks, load), 0, [(StrKey("file_info"), fileInfo)]);
    if |r| > 1 then Some(r) else None
  }

  /** Every key of the result is `file_info` or a task that wrote. */
  lemma CollectedKeys(run: (seq<(Key, Value)>, Option<int>, nat) -> Outcome<Option<string>>, config: Value,
                      fileInfo: Value, tasks: seq<string>, load: string -> Decoded, k: Key)
    ensures HasKey(Collected(run, config, fileInfo, tasks, load), k) <==>
      k == StrKey("file_info") ||
      exists j :: 0 <= j < |tasks| && k == StrKey(tasks[j]) && TaskEntry(run, config, tasks[j], j, load).Some?
  {
    var start := [(StrKey("file_info"), fileInfo)];
    var es := Entries(run, config, tasks, load);
    RecordKeys(tasks, es, 0, start, k);
    assert HasKey(start, k) <==> k == StrKey("file_info") by {
      assert start[0].0 == StrKey("file_info");
    }
  }

  /** `None` exactly when no task other than one named `file_info` wrote. */
  lemma ProcessTasksNone(run: (seq<(Key, Value)>, Option<int>, nat) -> Outcome<Option<string>>, config: Value,
                         fileInfo: Value, tasks: seq<string>, load: string -> Decoded)
    ensures ProcessTasks(run, config, fileInfo, tasks, load).None? <==>
      forall j :: 0 <= j < |tasks| && tasks[j] != "file_info" ==> TaskEntry(run, config, tasks[j], j, load).None?
  {
    var fi := StrKey("file_info");
    var r := Collected(run, config, fileInfo, tasks, load);
    CollectedKeys(run, config, fileInfo, tasks, load, fi);
    if exists j :: 0 <= j < |tasks| && tasks[j] != "file_info" && TaskEntry(run, config, tasks[j], j, load).Some? {
      var j :| 0 <= j < |tasks| && tasks[j] != "file_info" && TaskEntry(run, config, tasks[j], j, load).Some?;
      CollectedKeys(run, config, fileInfo, tasks, load, StrKey(tasks[j]));
      TwoKeys(r, fi, StrKey(tasks[j]));
    } else if |r| > 1 {
      RecordDistinct(tasks, Entries(run, config, tasks, load), 0, [(fi, fileInfo)]);
      var k := if r[0].0 == fi then r[1].0 else r[0].0;
      assert k != fi && HasKey(r, k);
      CollectedKeys(run, config, fileInfo, tasks, load, k);
    }
  }

  /** A dictionary holding two different keys has at least two entries. */
  lemma TwoKeys(es: seq<(Key, Value)>, a: Key, b: Key)
    requires HasKey(es, a) && HasKey(es, b) && a != b
    ensures |es| > 1
  {
    var i :| 0 <= i < |es| && es[i].0 == a;
    var j :| 0 <= j < |es| && es[j].0 == b;
  }

  /** A task the configuration does not name is marked `"Invalid task"`. */
  lemma {:induction false} RecordInvalid(tasks: seq<string>, entries: seq<Option<Value>>, i: nat,
                                        result: seq<(Key, Value)>, t: string)
    requires i <= |tasks| == |entries|
    requires forall j :: i <= j < |tasks| && tasks[j] == t ==> entries[j] == Some(Str("Invalid task"))
    ensures Get(Record(tasks, entries, i, result), StrKey(t)) ==
      if exists j :: i <= j < |tasks| && tasks[j] == t then Some(Str("Invalid task")) else Get(result, StrKey(t))
    decreases |tasks| - i
  {
    if i < |tasks| {
      TaskOccursStep(tasks, i, t);
      if entries[i].None? {
        assert Record(tasks, entries, i, result) == Record(tasks, entries, i + 1, result);
        RecordInvalid(tasks, entries, i + 1, result, t);
      } else {
        var next := Put(result, StrKey(tasks[i]), entries[i].value);
        assert Record(tasks, entries, i, result) == Record(tasks, entries, i + 1, next);
        RecordInvalid(tasks, entries, i + 1, next, t);
        if tasks[i] != t {
          GetPutOther(result, StrKey(tasks[i]), entries[i].value, StrKey(t));
        }
      }
    }
  }

  /** Task `t` occurs from position `i` on when it is task `i` or occurs after it. */
  lemma TaskOccursStep(tasks: seq<string>, i: nat, t: string)
    requires i < |tasks|
    ensures (exists j :: i <= j < |tasks| && tasks[j] == t) <==>
      tasks[i] == t || exists j :: i + 1 <= j < |tasks| && tasks[j] == t
  {
    if exists j :: i <= j < |tasks| && tasks[j] == t {
      var j :| i <= j < |tasks| && tasks[j] == t;
      assert j == i || i + 1 <= j;
    }
  }

  lemma ProcessTasksInvalid(run: (seq<(Key, Value)>, Option<int>, nat) -> Outcome<Option<string>>, config: Value,
                            fileInfo: Value, tasks: seq<string>, load: string -> Decoded, t: string)
    requires config.Dict? && !HasKey(config.entries, StrKey(t)) && t in tasks && t != "file_info"
    ensures ProcessTasks(run, config, fileInfo, tasks, load).Some?
    ensures Get(ProcessTasks(run, config, fileInfo, tasks, load).value, StrKey(t)) == Some(Str("Invalid task"))
  {
    var j :| 0 <= j < |tasks| && tasks[j] == t;
    var es := Entries(run, config, tasks, load);
    assert ConfigHas(config, t) == Returned(false);
    assert TaskEntry(run, config, tasks[j], j, load).Some?;
    ProcessTasksNone(run, config, fileInfo, tasks, load);
    RecordInvalid(tasks, es, 0, [(StrKey("file_info"), fileInfo)], t);
  }

  /** `process_text` of `llmer.py` on one document, as the loop calls it. */
  function Run(c: Llmer.Client, content: Option<string>, sampler: Sampler)
    : (seq<(Key, Value)>, Option<int>, nat) -> Outcome<Option<string>>
    requires ValidSampler(sampler)
  {
    (task: seq<(Key, Value)>, numChunks: Option<int>, call: nat) => Llmer.ProcessText(c, content, task, numChunks, sampler, call)
  }
}
