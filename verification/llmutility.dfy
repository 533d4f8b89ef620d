/** `llm-utility.py`: builds a central metadata file for a directory. Each
    file's model answer has its keys title-cased, the `Metadata` record is
    read with defaults, and the file is recorded under its basename unless
    that basename is already in the file. */
module LlmUtility {
  import opened Wrappers
  import opened Text
  import opened Json
  import opened Normalize

  // ----- extract_metadata -----

  /** What `FileUtils.get_basic_metadata` reports: the size in bytes and the
      two timestamps as ISO strings. */
  datatype FileStat = FileStat(size: int, created: string, modified: string)

  /** The keys of the combined record, in the order `extract_metadata` writes them. */
  const MetadataKeys: seq<string> := ["File", "Title", "Caption", "Creator", "Author", "Subject", "Topic",
                                      "Filetype", "FullPath", "PreviousPath", "PreviousName", "Size (KB)",
                                      "Created", "Modified", "Category", "ProposedFilename"]

  /** The defaults of the fields the model may leave out. */
  const MetadataName: string := "Metadata"
  const FilenameField: string := "Filename"
  const Unknown: string := "Unknown"
  const NotSpecified: string := "Not Specified"
  const UnknownName: string := "unknown"

  /** `result.get('Metadata', {})` on the normalised answer; the answer must be
      a dictionary (`.items()`) and so must the record (`.get`). */
  function LlmMetadata(answer: Value): (r: Outcome<seq<(Key, Value)>>)
    ensures r.Raised? ==> r.error == "AttributeError"
    ensures !answer.Dict? ==> r.Raised?
    ensures answer.Dict? && !HasKey(NormalizeKeys(answer.entries), StrKey(MetadataName)) ==> r == Returned([])
  {
    if !answer.Dict? then Raised("AttributeError") else MetadataRecord(NormalizeKeys(answer.entries))
  }

  /** The `Metadata` record of an already normalised answer. */
  function MetadataRecord(result: seq<(Key, Value)>): (r: Outcome<seq<(Key, Value)>>)
    ensures r.Raised? <==> HasKey(result, StrKey(MetadataName)) && !Get(result, StrKey(MetadataName)).value.Dict?
    ensures r.Raised? ==> r.error == "AttributeError"
    ensures !HasKey(result, StrKey(MetadataName)) ==> r == Returned([])
    ensures r.Returned? && HasKey(result, StrKey(MetadataName)) ==> Get(result, StrKey(MetadataName)) == Some(Dict(r.value))
  {
    match Get(result, StrKey(MetadataName))
    case None => Returned([])
    case Some(Dict(es)) => Returned(es)
    case Some(_) => Raised("AttributeError")
  }

  /** `llm_metadata.get(name, default)`. */
  function Field(llm: seq<(Key, Value)>, name: string, default: string): (r: Value)
    ensures HasKey(llm, StrKey(name)) ==> Some(r) == Get(llm, StrKey(name))
    ensures !HasKey(llm, StrKey(name)) ==> r == Str(default)
  {
    Get(llm, StrKey(name)).GetOr(Str(default))
  }

  /** `size // 1024`: whole kilobytes, rounded down. */
  function Kilobytes(bytes: int): (kb: int)
    ensures 1024 * kb <= bytes < 1024 * kb + 1024
  {
    bytes / 1024
  }

  /** The value of field `i` of the combined record. */
  function MetadataField(i: nat, llm: seq<(Key, Value)>, path: string, absolute: string, caption: string,
                         category: string, stat: FileStat): Value
  {
    match i
    case 0 => Str(Basename(path))
    case 1 => Field(llm, MetadataKeys[1], Unknown)
    case 2 => Str(caption)
    case 3 => Field(llm, MetadataKeys[3], Unknown)
    case 4 => Field(llm, MetadataKeys[4], NotSpecified)
    case 5 => Field(llm, MetadataKeys[5], Unknown)
    case 6 => Field(llm, MetadataKeys[6], Unknown)
    case 8 => Str(absolute)
    case 11 => Num(Kilobytes(stat.size))
    case 12 => Str(stat.created)
    case 13 => Str(stat.modified)
    case 14 => Str(category)
    case 15 => Field(llm, FilenameField, UnknownName)
    case _ => Str("")
  }

  /** The combined record: each key of `MetadataKeys` with its value. */
  function Combined(llm: seq<(Key, Value)>, path: string, absolute: string, caption: string, category: string,
                    stat: FileStat): (r: seq<(Key, Value)>)
    ensures |r| == 16
    ensures forall i :: 0 <= i < 16 ==> r[i].0 == StrKey(MetadataKeys[i])
    ensures forall i :: 0 <= i < 16 ==> r[i].1 == MetadataField(i, llm, path, absolute, caption, category, stat)
  {
    seq(16, i requires 0 <= i < 16 => (StrKey(MetadataKeys[i]), MetadataField(i, llm, path, absolute, caption, category, stat)))
  }

  /** `extract_metadata(file_path, ..., category, caption)`, given the cleaned
      model answer for the file, its absolute path and its statistics. */
  function ExtractMetadata(answer: Value, path: string, absolute: string, caption: string, category: string,
                           stat: FileStat): (r: Outcome<seq<(Key, Value)>>)
    ensures r.Raised? <==> LlmMetadata(answer).Raised?
    ensures r.Raised? ==> r.error == "AttributeError"
    ensures r.Returned? ==> |r.value| == 16
    ensures r.Returned? ==> forall i :: 0 <= i < |r.value| ==> r.value[i].0 == StrKey(MetadataKeys[i])
  {
    match LlmMetadata(answer)
    case Raised(e) => Raised(e)
    case Returned(llm) => Returned(Combined(llm, path, absolute, caption, category, stat))
  }

  /** The record names the file by its basename, carries the caption and
      category it was given, and gives the size in whole kilobytes. */
  lemma ExtractMetadataFields(answer: Value, path: string, absolute: string, caption: string, category: string,
                              stat: FileStat)
    requires LlmMetadata(answer).Returned?
    ensures var r := ExtractMetadata(answer, path, absolute, caption, category, stat).value;
      && r[0].1 == Str(Basename(path)) && r[2].1 == Str(caption) && r[14].1 == Str(category)
      && r[11].1.Num? && 1024 * r[11].1.n <= stat.size < 1024 * r[11].1.n + 1024
  {
    CombinedFields(LlmMetadata(answer).value, path, absolute, caption, category, stat);
  }

  /** The fields of the combined record that do not come from the model. */
  lemma CombinedFields(llm: seq<(Key, Value)>, path: string, absolute: string, caption: string, category: string,
                       stat: FileStat)
    ensures var r := Combined(llm, path, absolute, caption, category, stat);
      && r[0].1 == Str(Basename(path)) && r[2].1 == Str(caption) && r[14].1 == Str(category)
      && r[11].1.Num? && 1024 * r[11].1.n <= stat.size < 1024 * r[11].1.n + 1024
  {
    var r := Combined(llm, path, absolute, caption, category, stat);
    assert r[0].1 == MetadataField(0, llm, path, absolute, caption, category, stat);
    assert r[2].1 == MetadataField(2, llm, path, absolute, caption, category, stat);
    var kb := Kilobytes(stat.size);
    assert r[11].1 == MetadataField(11, llm, path, absolute, caption, category, stat) == Num(kb);
    assert r[14].1 == MetadataField(14, llm, path, absolute, caption, category, stat);
  }

  /** No field of the combined record is written twice. */
  lemma MetadataKeysDistinct()
    ensures forall i, j :: 0 <= i < j < |MetadataKeys| ==> MetadataKeys[i] != MetadataKeys[j]
  {
    forall i, j | 0 <= i < j < |MetadataKeys| ensures MetadataKeys[i] != MetadataKeys[j] {
      var a, b := MetadataKeys[i], MetadataKeys[j];
      assert |a| != |b| || a[0] != b[0] || a[1] != b[1] || a[|a| - 1] != b[|b| - 1];
    }
  }

  /** A field the model left out takes its default: `Unknown` for the title,
      creator, subject and topic, `Not Specified` for the author, `unknown`
      for the proposed file name; a field it gave is copied. */
  lemma ExtractMetadataDefaults(answer: Value, path: string, absolute: string, caption: string, category: string,
                                stat: FileStat)
    requires LlmMetadata(answer).Returned?
    ensures var llm := LlmMetadata(answer).value;
      var r := ExtractMetadata(answer, path, absolute, caption, category, stat).value;
      && r[1].1 == Get(llm, r[1].0).GetOr(Str(Unknown))
      && r[3].1 == Get(llm, r[3].0).GetOr(Str(Unknown))
      && r[4].1 == Get(llm, r[4].0).GetOr(Str(NotSpecified))
      && r[5].1 == Get(llm, r[5].0).GetOr(Str(Unknown))
      && r[6].1 == Get(llm, r[6].0).GetOr(Str(Unknown))
      && r[15].1 == Get(llm, StrKey(FilenameField)).GetOr(Str(UnknownName))
  {
    CombinedDefaults(LlmMetadata(answer).value, path, absolute, caption, category, stat);
    CombinedMoreDefaults(LlmMetadata(answer).value, path, absolute, caption, category, stat);
  }

  /** The title, creator and author of the combined record: the model's, or
      the default. */
  lemma CombinedDefaults(llm: seq<(Key, Value)>, path: string, absolute: string, caption: string, category: string,
                         stat: FileStat)
    ensures var r := Combined(llm, path, absolute, caption, category, stat);
      && r[1].1 == Get(llm, r[1].0).GetOr(Str(Unknown))
      && r[3].1 == Get(llm, r[3].0).GetOr(Str(Unknown))
      && r[4].1 == Get(llm, r[4].0).GetOr(Str(NotSpecified))
  {
    var r := Combined(llm, path, absolute, caption, category, stat);
    assert r[1].1 == MetadataField(1, llm, path, absolute, caption, category, stat);
    assert r[3].1 == MetadataField(3, llm, path, absolute, caption, category, stat);
    assert r[4].1 == MetadataField(4, llm, path, absolute, caption, category, stat);
  }

  /** The subject, topic and proposed file name of the combined record: the
      model's, or the default. */
  lemma CombinedMoreDefaults(llm: seq<(Key, Value)>, path: string, absolute: string, caption: string, category: string,
                             stat: FileStat)
    ensures var r := Combined(llm, path, absolute, caption, category, stat);
      && r[5].1 == Get(llm, r[5].0).GetOr(Str(Unknown))
      && r[6].1 == Get(llm, r[6].0).GetOr(Str(Unknown))
      && r[15].1 == Get(llm, StrKey(FilenameField)).GetOr(Str(UnknownName))
  {
    var r := Combined(llm, path, absolute, caption, category, stat);
    assert r[5].1 == MetadataField(5, llm, path, absolute, caption, category, stat);
    assert r[6].1 == MetadataField(6, llm, path, absolute, caption, category, stat);
    assert r[15].1 == MetadataField(15, llm, path, absolute, caption, category, stat);
  }

  /** The model's key casing does not matter: an answer whose one record key
      title-cases to `Metadata`, holding one key that title-cases to `Title`,
      gives that title. */
  lemma ExtractMetadataAnyCase(a: string, b: string, t: Value, path: string, absolute: string, caption: string,
                               category: string, stat: FileStat)
    requires Title(a) == MetadataName && Title(b) == MetadataKeys[1]
    ensures var r := ExtractMetadata(Dict([(StrKey(a), Dict([(StrKey(b), t)]))]), path, absolute, caption,
                                     category, stat);
      r.Returned? && r.value[1].1 == NormalizeValue(t)
  {
    var llm := [(StrKey(MetadataKeys[1]), NormalizeValue(t))];
    LlmMetadataAnyCase(a, b, t);
    assert Get(llm, StrKey(MetadataKeys[1])) == Some(NormalizeValue(t));
    assert Combined(llm, path, absolute, caption, category, stat)[1].1
        == MetadataField(1, llm, path, absolute, caption, category, stat);
  }

  /** The record the model gave, read through any casing of its keys. */
  lemma LlmMetadataAnyCase(a: string, b: string, t: Value)
    requires Title(a) == MetadataName && Title(b) == MetadataKeys[1]
    ensures LlmMetadata(Dict([(StrKey(a), Dict([(StrKey(b), t)]))]))
         == Returned([(StrKey(MetadataKeys[1]), NormalizeValue(t))])
  {
    var inner := [(StrKey(b), t)];
    var n := [(StrKey(MetadataKeys[1]), NormalizeValue(t))];
    NormalizeSingle(StrKey(b), t);
    assert NormalizeValue(Dict(inner)) == Dict(n);
    NormalizeSingle(StrKey(a), Dict(inner));
    MetadataRecordSingle(n);
  }

  /** A normalised answer holding only a `Metadata` record yields that record. */
  lemma MetadataRecordSingle(n: seq<(Key, Value)>)
    ensures MetadataRecord([(StrKey(MetadataName), Dict(n))]) == Returned(n)
  {
    assert Get([(StrKey(MetadataName), Dict(n))], StrKey(MetadataName)) == Some(Dict(n));
  }

  // ----- process_files -----

  /** A file the crawl found: its category and path. */
  datatype Found = Found(category: string, path: string)

  /** What the run learns from outside for a path: the caption the server
      gives an image (any JSON value the reply holds under `caption`, `None`
      on failure), the cleaned answer to the metadata
      task for a path and caption, the file's statistics and its absolute path. */
  datatype Env = Env(caption: string -> Option<Value>, answer: (string, string) -> Value,
                     stat: string -> FileStat, absolute: string -> string)

  /** The key a file is recorded under: its basename. */
  function NameKey(f: Found): (k: Key)
    ensures k.StrKey? && '/' !in k.name
  {
    StrKey(Basename(f.path))
  }

  function Extract(env: Env, path: string, category: string, caption: string): Outcome<seq<(Key, Value)>> {
    ExtractMetadata(env.answer(path, caption), path, env.absolute(path), caption, category, env.stat(path))
  }

  /** The record one file yields, or `None` when it yields none: an image
      without a truthy caption is passed over, and an error in
      `extract_metadata` is caught and the file skipped: a caption that is not
      a string fails in `clean_content`, as `ftfy.fix_text` takes only text. */
  function Attempt(env: Env, f: Found): (r: Option<Value>)
    ensures r.Some? ==> r.value.Dict?
    ensures f.category == "image" && (env.caption(f.path) == None || !Truthy(env.caption(f.path).value)) ==> r.None?
    ensures f.category == "image" && env.caption(f.path).Some? && !env.caption(f.path).value.Str? ==> r.None?
    ensures var c := env.caption(f.path);
      f.category == "image" && c.Some? && Truthy(c.value) && c.value.Str? ==>
        (r.Some? <==> Extract(env, f.path, "Image", c.value.s).Returned?) &&
        (r.Some? ==> r.value == Dict(Extract(env, f.path, "Image", c.value.s).value))
    ensures f.category != "image" ==> (r.Some? <==> Extract(env, f.path, "Document", "").Returned?)
    ensures f.category != "image" && r.Some? ==> r.value == Dict(Extract(env, f.path, "Document", "").value)
  {
    var o := if f.category == "image" then
               (match env.caption(f.path)
                case None => Raised("no caption")
                case Some(c) =>
                  if !Truthy(c) then Raised("no caption")
                  else if !c.Str? then Raised("TypeError")
                  else Extract(env, f.path, "Image", c.s))
             else Extract(env, f.path, "Document", "");
    if o.Returned? then Some(Dict(o.value)) else None
  }

  /** The key and the record, if any, of each file, in crawl order. */
  function Visits(env: Env, files: seq<Found>): (vs: seq<(Key, Option<Value>)>)
    ensures |vs| == |files|
    ensures forall i :: 0 <= i < |files| ==> vs[i] == (NameKey(files[i]), Attempt(env, files[i]))
  {
    seq(|files|, i requires 0 <= i < |files| => (NameKey(files[i]), Attempt(env, files[i])))
  }

  /** Some visit yields a record under `k`. */
  predicate Recorded(vs: seq<(Key, Option<Value>)>, k: Key) {
    exists i :: 0 <= i < |vs| && vs[i].0 == k && vs[i].1.Some?
  }

  lemma RecordedCons(vs: seq<(Key, Option<Value>)>, k: Key)
    requires |vs| > 0
    ensures Recorded(vs, k) <==> (vs[0].0 == k && vs[0].1.Some?) || Recorded(vs[1..], k)
  {
    if Recorded(vs, k) && !(vs[0].0 == k && vs[0].1.Some?) {
      var i :| 0 <= i < |vs| && vs[i].0 == k && vs[i].1.Some?;
      assert vs[1..][i - 1] == vs[i];
    }
    if Recorded(vs[1..], k) {
      var i :| 0 <= i < |vs[1..]| && vs[1..][i].0 == k && vs[1..][i].1.Some?;
      assert vs[i + 1] == vs[1..][i];
    }
  }

  /** One turn of the loop: a basename already present is skipped, otherwise
      the file's record, if any, is stored under it. */
  function Visit(central: seq<(Key, Value)>, v: (Key, Option<Value>)): (r: seq<(Key, Value)>)
    ensures forall k :: HasKey(central, k) ==> Get(r, k) == Get(central, k)
    ensures forall k :: HasKey(r, k) <==> HasKey(central, k) || (k == v.0 && v.1.Some?)
    ensures !HasKey(central, v.0) ==> Get(r, v.0) == v.1
    ensures DistinctKeys(central) ==> DistinctKeys(r)
  {
    if HasKey(central, v.0) then central
    else
      match v.1
      case None => central
      case Some(m) =>
        forall k | HasKey(central, k) ensures Get(Put(central, v.0, m), k) == Get(central, k) {
          GetPutOther(central, v.0, m, k);
        }
        Put(central, v.0, m)
  }

  /** The loop of `process_files` over the visits, in order. */
  function VisitAll(central: seq<(Key, Value)>, vs: seq<(Key, Option<Value>)>): (r: seq<(Key, Value)>)
    ensures forall k :: HasKey(central, k) ==> Get(r, k) == Get(central, k)
    ensures forall k :: HasKey(r, k) <==> HasKey(central, k) || Recorded(vs, k)
    ensures DistinctKeys(central) ==> DistinctKeys(r)
    decreases |vs|
  {
    if |vs| == 0 then central
    else
      var r := VisitAll(Visit(central, vs[0]), vs[1..]);
      assert forall k :: Recorded(vs, k) <==> (vs[0].0 == k && vs[0].1.Some?) || Recorded(vs[1..], k) by {
        forall k ensures Recorded(vs, k) <==> (vs[0].0 == k && vs[0].1.Some?) || Recorded(vs[1..], k) {
          RecordedCons(vs, k);
        }
      }
      r
  }

  /** Of the visits under one key, the first that carries a record is the one
      kept. */
  lemma {:induction false} VisitAllFirstWins(central: seq<(Key, Value)>, vs: seq<(Key, Option<Value>)>, i: nat)
    requires i < |vs| && !HasKey(central, vs[i].0) && vs[i].1.Some?
    requires forall j :: 0 <= j < i && vs[j].0 == vs[i].0 ==> vs[j].1.None?
    ensures Get(VisitAll(central, vs), vs[i].0) == vs[i].1
    decreases |vs|
  {
    var next := Visit(central, vs[0]);
    if i == 0 {
      assert Get(next, vs[0].0) == vs[0].1;
    } else {
      assert !HasKey(next, vs[i].0);
      assert forall j :: 0 <= j < i - 1 ==> vs[1..][j] == vs[j + 1];
      assert vs[1..][i - 1] == vs[i];
      VisitAllFirstWins(next, vs[1..], i - 1);
    }
  }

  /** `process_files`: the crawl's files visited in order over the loaded
      central record. Entries already there are never overwritten, and a
      basename is added exactly when some file of that name yields a record. */
  function ProcessFiles(env: Env, central: seq<(Key, Value)>, files: seq<Found>): (r: seq<(Key, Value)>)
    ensures forall k :: HasKey(central, k) ==> Get(r, k) == Get(central, k)
    ensures forall k :: HasKey(r, k) <==>
      (HasKey(central, k) || exists i :: 0 <= i < |files| && NameKey(files[i]) == k && Attempt(env, files[i]).Some?)
    ensures DistinctKeys(central) ==> DistinctKeys(r)
  {
    var vs := Visits(env, files);
    assert forall k :: Recorded(vs, k) ==>
      exists i :: 0 <= i < |files| && NameKey(files[i]) == k && Attempt(env, files[i]).Some?;
    VisitAll(central, vs)
  }

  /** Of the files sharing a basename, the first one that yields a record is
      the one recorded; every later namesake is skipped. */
  lemma FirstRecordWins(env: Env, central: seq<(Key, Value)>, files: seq<Found>, i: nat)
    requires i < |files| && !HasKey(central, NameKey(files[i])) && Attempt(env, files[i]).Some?
    requires forall j :: 0 <= j < i && NameKey(files[j]) == NameKey(files[i]) ==> Attempt(env, files[j]).None?
    ensures Get(ProcessFiles(env, central, files), NameKey(files[i])) == Attempt(env, files[i])
  {
    VisitAllFirstWins(central, Visits(env, files), i);
  }
}
