/** The directory crawl that `main.py` (`FileCrawler.find_and_process_files`) and
    `crawl.py` (`find_and_process_files`) both perform: walk a listing, keep the
    files whose document type passes the `--types` filter, process each kept
    file when tasks are given, and group their records by type. Writing the
    per-file `_info.json` is I/O and is left out; only its name is recorded. */
module Crawl {
  import opened Wrappers
  import opened Json
  import opened Files

  /** The `file_info` dictionary of one kept file. */
  datatype FileRecord = FileRecord(location: string, name: string, basename: string,
                                   ext: string, fileType: string, infoFile: Option<string>)

  /** The filter: the file has a document type, and the `--types` list, when
      given, names it. */
  predicate Included(fileType: Option<string>, fileTypes: Option<seq<string>>) {
    fileType.Some? && (fileTypes.None? || fileType.value in fileTypes.value)
  }

  /** Without `--types` exactly the files of a known document type are kept. */
  lemma IncludedWithoutFilter(fileType: Option<string>)
    ensures Included(fileType, None) <==> fileType.Some?
  {
  }

  /** The name of the JSON file written next to a processed document. */
  function InfoFileName(name: string): (r: string)
    ensures r == SplitExt(name).0 + "_info.json"
    ensures Ext(name) == "" ==> r == name + "_info.json"
  {
    SplitExt(name).0 + "_info.json"
  }

  /** The record of a kept file; `info_file` is set only when tasks ran. */
  function Record(root: string, name: string, fileType: string, withTasks: bool): (r: FileRecord)
    ensures r.basename + r.ext == name
    ensures r.infoFile.Some? <==> withTasks
  {
    FileRecord(root, name, SplitExt(name).0, SplitExt(name).1, fileType,
               if withTasks then Some(InfoFileName(name)) else None)
  }

  /** `file_list`: for each document type, the records of the kept files of that
      type, in walk order. `listing` holds the walked `(root, file)` pairs. */
  function Catalogue(listing: seq<(string, string)>, fileTypes: Option<seq<string>>, withTasks: bool)
    : (r: map<string, seq<FileRecord>>)
    ensures forall t :: t in r ==> |r[t]| > 0 && Included(Some(t), fileTypes)
    ensures forall i :: 0 <= i < |listing| && Included(GetFileType(listing[i].1), fileTypes) ==>
      GetFileType(listing[i].1).value in r
    decreases |listing|
  {
    if |listing| == 0 then map[]
    else
      var prev := Catalogue(listing[..|listing| - 1], fileTypes, withTasks);
      var (root, name) := listing[|listing| - 1];
      var ft := GetFileType(name);
      assert forall i :: 0 <= i < |listing| - 1 ==> listing[i] == listing[..|listing| - 1][i];
      if Included(ft, fileTypes) then
        var t := ft.value;
        prev[t := (if t in prev then prev[t] else []) + [Record(root, name, t, withTasks)]]
      else prev
  }

  /** The reference definition: the records of type `t`, filtering the listing. */
  function OfType(listing: seq<(string, string)>, t: string, fileTypes: Option<seq<string>>, withTasks: bool)
    : seq<FileRecord>
    decreases |listing|
  {
    if |listing| == 0 then []
    else
      var last := listing[|listing| - 1];
      var rest := OfType(listing[..|listing| - 1], t, fileTypes, withTasks);
      if GetFileType(last.1) == Some(t) && Included(Some(t), fileTypes)
      then rest + [Record(last.0, last.1, t, withTasks)]
      else rest
  }

  /** The catalogue groups exactly the kept files: each type maps to its files
      in walk order, and a type without kept files is absent. */
  lemma {:induction false} CatalogueIsFilter(listing: seq<(string, string)>, fileTypes: Option<seq<string>>,
                                            withTasks: bool, t: string)
    ensures t in Catalogue(listing, fileTypes, withTasks) ==>
      Catalogue(listing, fileTypes, withTasks)[t] == OfType(listing, t, fileTypes, withTasks)
    ensures t !in Catalogue(listing, fileTypes, withTasks) ==> OfType(listing, t, fileTypes, withTasks) == []
    decreases |listing|
  {
    if |listing| > 0 {
      var init := listing[..|listing| - 1];
      var last := listing[|listing| - 1];
      CatalogueIsFilter(init, fileTypes, withTasks, t);
      var prev := Catalogue(init, fileTypes, withTasks);
      var ft := GetFileType(last.1);
      if Included(ft, fileTypes) && ft.value == t {
        var rec := Record(last.0, last.1, t, withTasks);
        assert Catalogue(listing, fileTypes, withTasks) == prev[t := (if t in prev then prev[t] else []) + [rec]];
        assert OfType(listing, t, fileTypes, withTasks) == OfType(init, t, fileTypes, withTasks) + [rec];
      } else if Included(ft, fileTypes) {
        assert Catalogue(listing, fileTypes, withTasks) == prev[ft.value := (if ft.value in prev then prev[ft.value] else []) +
          [Record(last.0, last.1, ft.value, withTasks)]];
        assert OfType(listing, t, fileTypes, withTasks) == OfType(init, t, fileTypes, withTasks);
      } else {
        assert Catalogue(listing, fileTypes, withTasks) == prev;
        assert OfType(listing, t, fileTypes, withTasks) == OfType(init, t, fileTypes, withTasks);
      }
    }
  }

  /** Every record in the catalogue is a walked file filed under its own type. */
  lemma {:induction false} OfTypeSound(listing: seq<(string, string)>, t: string,
                                      fileTypes: Option<seq<string>>, withTasks: bool)
    ensures forall f :: f in OfType(listing, t, fileTypes, withTasks) ==>
      f.fileType == t && exists i :: (0 <= i < |listing| && GetFileType(listing[i].1) == Some(t) &&
        f == Record(listing[i].0, listing[i].1, t, withTasks))
    decreases |listing|
  {
    if |listing| > 0 {
      var init := listing[..|listing| - 1];
      OfTypeSound(init, t, fileTypes, withTasks);
      forall f | f in OfType(listing, t, fileTypes, withTasks)
        ensures f.fileType == t && exists i :: (0 <= i < |listing| && GetFileType(listing[i].1) == Some(t) &&
          f == Record(listing[i].0, listing[i].1, t, withTasks))
      {
        if f in OfType(init, t, fileTypes, withTasks) {
          var i :| 0 <= i < |init| && GetFileType(init[i].1) == Some(t) &&
            f == Record(init[i].0, init[i].1, t, withTasks);
          assert init[i] == listing[i];
        }
      }
    }
  }

  /** `crawl.py`'s `process_document`: the record holds the file info and Tika's
      metadata, and each requested task calls `process_text` on the
      `NLPProcessor` of `utils.py`, which has no such method. */
  function ProcessDocument(fileInfo: Value, tikaMetadata: Value, tasks: seq<string>)
    : (r: Outcome<seq<(Key, Value)>>)
    ensures r.Returned? <==> ("metadata" !in tasks && "summarize" !in tasks &&
                              "translate" !in tasks && "edit" !in tasks)
    ensures r.Returned? ==> r.value == [(StrKey("file_info"), fileInfo), (StrKey("tika_metadata"), tikaMetadata)]
    ensures r.Raised? ==> r.error == "AttributeError"
  {
    if "metadata" in tasks || "summarize" in tasks || "translate" in tasks || "edit" in tasks then
      Raised("AttributeError")
    else
      Returned([(StrKey("file_info"), fileInfo), (StrKey("tika_metadata"), tikaMetadata)])
  }

  // ----- find_and_process_files with tasks -----

  /** The `file_info` dictionary of a kept file, as it is handed to the task
      processing (before `info_file` is added). */
  function InfoValue(rec: FileRecord): (v: Value)
    ensures v.Dict? && |v.entries| == 5
    ensures forall i :: 0 <= i < 5 ==> v.entries[i].0 == StrKey(["location", "name", "basename", "ext", "type"][i])
  {
    Dict([(StrKey("location"), Str(rec.location)), (StrKey("name"), Str(rec.name)),
          (StrKey("basename"), Str(rec.basename)), (StrKey("ext"), Str(rec.ext)),
          (StrKey("type"), Str(rec.fileType))])
  }

  /** The file at walk position `i` is kept and its processing raises.
      `process` gives the outcome of processing a walked `(root, file)` pair. */
  predicate Fails(listing: seq<(string, string)>, fileTypes: Option<seq<string>>,
                  process: (string, string) -> Outcome<seq<(Key, Value)>>, i: nat)
    requires i < |listing|
  {
    Included(GetFileType(listing[i].1), fileTypes) && process(listing[i].0, listing[i].1).Raised?
  }

  /** For each walk position, whether its file is kept and raises. */
  function Failures(listing: seq<(string, string)>, fileTypes: Option<seq<string>>,
                    process: (string, string) -> Outcome<seq<(Key, Value)>>): (bs: seq<bool>)
    ensures |bs| == |listing|
    ensures forall j :: 0 <= j < |listing| ==> bs[j] == Fails(listing, fileTypes, process, j)
  {
    seq(|listing|, j requires 0 <= j < |listing| => Fails(listing, fileTypes, process, j))
  }

  /** The first position from `i` on that holds `true`. */
  function FirstTrue(bs: seq<bool>, i: nat): (r: Option<nat>)
    requires i <= |bs|
    ensures r.Some? ==> i <= r.value < |bs| && bs[r.value]
    ensures r.Some? ==> forall j :: i <= j < r.value ==> !bs[j]
    ensures r.None? <==> forall j :: i <= j < |bs| ==> !bs[j]
    decreases |bs| - i
  {
    if i == |bs| then None else if bs[i] then Some(i) else FirstTrue(bs, i + 1)
  }

  /** `find_and_process_files`: without tasks, the catalogue. With tasks, every
      kept file is processed in walk order before it is catalogued, and the
      first processing that raises ends the crawl with its exception. */
  function FindAndProcessFiles(listing: seq<(string, string)>, fileTypes: Option<seq<string>>,
                               tasks: Option<seq<string>>,
                               process: (string, string) -> Outcome<seq<(Key, Value)>>)
    : (r: Outcome<map<string, seq<FileRecord>>>)
    ensures r.Raised? <==> tasks.Some? && exists i :: 0 <= i < |listing| && Fails(listing, fileTypes, process, i)
    ensures r.Raised? ==> exists i :: (0 <= i < |listing| && Fails(listing, fileTypes, process, i) &&
      process(listing[i].0, listing[i].1) == Raised(r.error) &&
      forall j :: 0 <= j < i ==> !Fails(listing, fileTypes, process, j))
    ensures r.Returned? ==> r.value == Catalogue(listing, fileTypes, tasks.Some?)
  {
    if tasks.None? then Returned(Catalogue(listing, fileTypes, false))
    else
      var bs := Failures(listing, fileTypes, process);
      match FirstTrue(bs, 0)
      case Some(i) =>
        assert Fails(listing, fileTypes, process, i);
        Raised(process(listing[i].0, listing[i].1).error)
      case None => Returned(Catalogue(listing, fileTypes, true))
  }

  /** Whether a task list asks for one of the four model tasks. */
  predicate AsksModel(tasks: seq<string>) {
    "metadata" in tasks || "summarize" in tasks || "translate" in tasks || "edit" in tasks
  }

  /** When processing fails the same way for every file, the crawl raises that
      exception exactly when tasks run and some file is kept. */
  lemma UniformProcessing(listing: seq<(string, string)>, fileTypes: Option<seq<string>>, tasks: seq<string>,
                          process: (string, string) -> Outcome<seq<(Key, Value)>>, fails: bool, e: string)
    requires forall root, name :: process(root, name).Raised? <==> fails
    requires forall root, name :: process(root, name).Raised? ==> process(root, name).error == e
    ensures var r := FindAndProcessFiles(listing, fileTypes, Some(tasks), process);
      && (r.Raised? <==> fails && exists i :: 0 <= i < |listing| && Included(GetFileType(listing[i].1), fileTypes))
      && (r.Raised? ==> r.error == e)
  {
    var r := FindAndProcessFiles(listing, fileTypes, Some(tasks), process);
    if r.Raised? {
      var i :| 0 <= i < |listing| && Fails(listing, fileTypes, process, i) &&
        process(listing[i].0, listing[i].1) == Raised(r.error);
    } else if fails {
      forall i | 0 <= i < |listing| ensures !Included(GetFileType(listing[i].1), fileTypes) {
        assert !Fails(listing, fileTypes, process, i);
      }
    }
  }

  /** `crawl.py`'s processing of a walked file: `process_document` on its
      `file_info` and Tika's metadata (`tika`, which reads the file). */
  function DocumentProcessing(tasks: seq<string>, tika: (string, string) -> Value)
    : (process: (string, string) -> Outcome<seq<(Key, Value)>>)
    ensures forall root, name :: (process(root, name) ==
      ProcessDocument(InfoValue(Record(root, name, GetFileType(name).GetOr(""), false)), tika(root, name), tasks))
  {
    (root: string, name: string) =>
      ProcessDocument(InfoValue(Record(root, name, GetFileType(name).GetOr(""), false)), tika(root, name), tasks)
  }

  /** `crawl.py` with tasks raises `AttributeError` exactly when some file is
      kept and a model task is asked for; otherwise it returns the catalogue
      with every `info_file` set. */
  lemma CrawlScriptOutcome(listing: seq<(string, string)>, fileTypes: Option<seq<string>>, tasks: seq<string>,
                           tika: (string, string) -> Value)
    ensures var r := FindAndProcessFiles(listing, fileTypes, Some(tasks), DocumentProcessing(tasks, tika));
      && (r.Raised? <==> AsksModel(tasks) && exists i :: 0 <= i < |listing| && Included(GetFileType(listing[i].1), fileTypes))
      && (r.Raised? ==> r.error == "AttributeError")
      && (r.Returned? ==> r.value == Catalogue(listing, fileTypes, true))
  {
    var process := DocumentProcessing(tasks, tika);
    assert forall root, name :: process(root, name).Raised? <==> AsksModel(tasks);
    UniformProcessing(listing, fileTypes, tasks, process, AsksModel(tasks), "AttributeError");
  }
}
