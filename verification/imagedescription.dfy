/** `get-image-description.py`: caption every image of a folder once, keeping
    the results in `<folder>_results.json` so that a second run resumes where
    the first stopped. The results file is an abstract stored value; the
    caption server is a function of the image path. */
module ImageDescription {
  import opened Wrappers
  import opened Text
  import opened Json

  // ----- get_output_filename -----

  /** How many leading slashes `posixpath.normpath` keeps: two exactly when the
      path starts with two but not three, otherwise one for an absolute path. */
  function InitialSlashes(p: string): (n: nat)
    ensures n <= 2
    ensures n == 0 <==> |p| == 0 || p[0] != '/'
  {
    if |p| >= 1 && p[0] == '/' then
      (if |p| >= 2 && p[1] == '/' && !(|p| >= 3 && p[2] == '/') then 2 else 1)
    else 0
  }

  /** One component of the `normpath` loop: empty and `.` components vanish, a
      `..` removes the component before it when there is one that is not
      itself `..` (and at the root it is dropped), anything else is kept. */
  function NormStep(acc: seq<string>, c: string, rooted: bool): seq<string> {
    if c == "" || c == "." then acc
    else if c != ".." || (!rooted && acc == []) || (acc != [] && acc[|acc| - 1] == "..") then acc + [c]
    else if acc != [] then acc[..|acc| - 1]
    else acc
  }

  /** The `normpath` loop over the components, left to right. */
  function NormComps(comps: seq<string>, rooted: bool, acc: seq<string>): seq<string>
    decreases |comps|
  {
    if |comps| == 0 then acc else NormComps(comps[1..], rooted, NormStep(acc, comps[0], rooted))
  }

  /** `posixpath.normpath`. */
  function NormPath(p: string): string {
    if p == "" then "."
    else
      var n := InitialSlashes(p);
      var q := (if n == 2 then "//" else if n == 1 then "/" else "") + Join("/", NormComps(Split(p, '/'), n > 0, []));
      if q == "" then "." else q
  }

  /** `get_output_filename`: the last component of the normalised folder path
      followed by `_results.json`. */
  function GetOutputFilename(directory: string): string {
    Basename(NormPath(directory)) + "_results.json"
  }

  /** The name is the last component of the normalised path, the text after
      its last slash, followed by `_results.json`. */
  lemma GetOutputFilenameShape(directory: string)
    ensures var p := NormPath(directory);
      exists k :: (0 <= k <= |p| && GetOutputFilename(directory) == p[k..] + "_results.json" &&
        '/' !in p[k..] && (k == 0 || p[k - 1] == '/'))
  {
    var p := NormPath(directory);
    var k := |p| - |Basename(p)|;
    assert GetOutputFilename(directory) == p[k..] + "_results.json";
  }

  /** Two paths with the same leading slashes and the same normalised
      components normalise alike. */
  lemma SameNorm(p: string, q: string)
    requires p != "" && q != "" && InitialSlashes(p) == InitialSlashes(q)
    requires NormComps(Split(p, '/'), InitialSlashes(p) > 0, []) == NormComps(Split(q, '/'), InitialSlashes(q) > 0, [])
    ensures NormPath(p) == NormPath(q)
  {
  }

  /** Empty and `.` components, wherever they stand, change nothing. */
  lemma {:induction false} NormCompsSkip(xs: seq<string>, x: string, ys: seq<string>, rooted: bool, acc: seq<string>)
    requires x == "" || x == "."
    ensures NormComps(xs + [x] + ys, rooted, acc) == NormComps(xs + ys, rooted, acc)
    decreases |xs|
  {
    if xs == [] {
      assert xs + [x] + ys == [x] + ys && ([x] + ys)[1..] == ys && xs + ys == ys;
    } else {
      assert (xs + [x] + ys)[0] == xs[0] && (xs + [x] + ys)[1..] == xs[1..] + [x] + ys;
      assert (xs + ys)[0] == xs[0] && (xs + ys)[1..] == xs[1..] + ys;
      NormCompsSkip(xs[1..], x, ys, rooted, NormStep(acc, xs[0], rooted));
    }
  }

  /** A plain component followed by `..` cancels out. */
  lemma {:induction false} NormCompsCancel(xs: seq<string>, x: string, ys: seq<string>, rooted: bool,
                                           acc: seq<string>)
    requires x != "" && x != "." && x != ".."
    ensures NormComps(xs + [x, ".."] + ys, rooted, acc) == NormComps(xs + ys, rooted, acc)
    decreases |xs|
  {
    if xs == [] {
      var s := [x, ".."] + ys;
      assert xs + [x, ".."] + ys == s && s[0] == x && s[1..][0] == ".." && s[1..][1..] == ys && xs + ys == ys;
      var mid := NormStep(acc, x, rooted);
      assert mid == acc + [x];
      assert NormStep(mid, "..", rooted) == acc by {
        assert mid[..|mid| - 1] == acc;
      }
    } else {
      assert (xs + [x, ".."] + ys)[0] == xs[0] && (xs + [x, ".."] + ys)[1..] == xs[1..] + [x, ".."] + ys;
      assert (xs + ys)[0] == xs[0] && (xs + ys)[1..] == xs[1..] + ys;
      NormCompsCancel(xs[1..], x, ys, rooted, NormStep(acc, xs[0], rooted));
    }
  }

  /** A trailing slash does not change the normalised path (beyond the bare
      roots `/` and `//`, whose slash count it changes). */
  lemma NormPathTrailingSlash(p: string)
    requires p != "" && p != "/" && p != "//"
    ensures NormPath(p + "/") == NormPath(p)
  {
    var q := p + "/";
    assert InitialSlashes(q) == InitialSlashes(p) by {
      assert q[0] == p[0];
      if p[0] == '/' {
        assert q[1] == p[1];
        if p[1] == '/' {
          assert q[2] == p[2];
        }
      }
    }
    SplitAppend(p, '/', "");
    SplitWhole("", '/');
    assert q == p + ['/'] + "";
    var xs := Split(p, '/');
    NormCompsSkip(xs, "", [], InitialSlashes(p) > 0, []);
    assert xs + [""] + [] == xs + [""] && xs + [] == xs;
    SameNorm(q, p);
  }

  /** A `.` component does not change the normalised path. */
  lemma NormPathDot(a: string, b: string)
    requires a != "" && a != "/"
    ensures NormPath(a + "/./" + b) == NormPath(a + "/" + b)
  {
    var p, q := a + "/./" + b, a + "/" + b;
    assert InitialSlashes(p) == InitialSlashes(q) by {
      assert p[0] == q[0] == a[0];
      if a[0] == '/' {
        assert p[1] == q[1];
        if |a| > 2 {
          assert p[2] == q[2];
        }
      }
    }
    assert p == a + ['/'] + ("." + ['/'] + b);
    assert q == a + ['/'] + b;
    SplitAppend(a, '/', "." + ['/'] + b);
    SplitAppend(".", '/', b);
    SplitWhole(".", '/');
    SplitAppend(a, '/', b);
    var xs, ys := Split(a, '/'), Split(b, '/');
    assert Split(p, '/') == xs + ["."] + ys;
    NormCompsSkip(xs, ".", ys, InitialSlashes(p) > 0, []);
    SameNorm(p, q);
  }

  /** A plain component followed by `..` does not change the normalised path. */
  lemma NormPathParent(a: string, x: string, b: string)
    requires a != "" && a != "/"
    requires x != "" && x != "." && x != ".." && '/' !in x
    ensures NormPath(a + "/" + x + "/../" + b) == NormPath(a + "/" + b)
  {
    ParentSlashes(a, x, b);
    SplitParent(a, x, b);
    assert a + "/" + b == a + ['/'] + b;
    SplitAppend(a, '/', b);
    SameNormCancel(a + "/" + x + "/../" + b, a + "/" + b, Split(a, '/'), x, Split(b, '/'));
  }

  /** Two paths whose components differ by a cancelled `x/..` normalise alike. */
  lemma SameNormCancel(p: string, q: string, xs: seq<string>, x: string, ys: seq<string>)
    requires p != "" && q != "" && InitialSlashes(p) == InitialSlashes(q)
    requires x != "" && x != "." && x != ".."
    requires Split(p, '/') == xs + [x, ".."] + ys && Split(q, '/') == xs + ys
    ensures NormPath(p) == NormPath(q)
  {
    NormCompsCancel(xs, x, ys, InitialSlashes(p) > 0, []);
    SameNorm(p, q);
  }

  lemma ParentSlashes(a: string, x: string, b: string)
    requires a != "" && a != "/"
    ensures InitialSlashes(a + "/" + x + "/../" + b) == InitialSlashes(a + "/" + b)
  {
    var p, q := a + "/" + x + "/../" + b, a + "/" + b;
    assert p[0] == q[0] == a[0];
    if a[0] == '/' {
      assert p[1] == q[1];
      if |a| > 2 {
        assert p[2] == q[2];
      }
    }
  }

  /** The components of `a/x/../b`. */
  lemma SplitParent(a: string, x: string, b: string)
    requires '/' !in x
    ensures Split(a + "/" + x + "/../" + b, '/') == Split(a, '/') + [x, ".."] + Split(b, '/')
  {
    var tail := ".." + ['/'] + b;
    assert a + "/" + x + "/../" + b == a + ['/'] + (x + ['/'] + tail);
    SplitAppend(a, '/', x + ['/'] + tail);
    SplitAppend(x, '/', tail);
    SplitAppend("..", '/', b);
    SplitWhole(x, '/');
    SplitWhole("..", '/');
    Regroup(Split(a, '/'), x, "..", Split(b, '/'));
  }

  lemma Regroup<T>(xs: seq<T>, x: T, y: T, ys: seq<T>)
    ensures xs + ([x] + ([y] + ys)) == xs + [x, y] + ys
  {
  }

  /** The results file of a folder does not depend on a trailing slash. */
  lemma GetOutputFilenameTrailingSlash(directory: string)
    requires directory != "" && directory != "/" && directory != "//"
    ensures GetOutputFilename(directory + "/") == GetOutputFilename(directory)
  {
    NormPathTrailingSlash(directory);
  }

  /** Nor on `.` components or a component undone by `..`. */
  lemma GetOutputFilenameDots(a: string, x: string, b: string)
    requires a != "" && a != "/"
    requires x != "" && x != "." && x != ".." && '/' !in x
    ensures GetOutputFilename(a + "/./" + b) == GetOutputFilename(a + "/" + b)
    ensures GetOutputFilename(a + "/" + x + "/../" + b) == GetOutputFilename(a + "/" + b)
  {
    NormPathDot(a, b);
    NormPathParent(a, x, b);
  }

  /** A plain folder name gives `<name>_results.json`. */
  lemma GetOutputFilenamePlain(directory: string)
    requires directory != "" && directory != "." && directory != ".." && '/' !in directory
    ensures GetOutputFilename(directory) == directory + "_results.json"
  {
    SplitWhole(directory, '/');
    assert NormComps([directory], false, []) == NormComps([], false, [directory]);
    assert Join("/", [directory]) == directory;
    assert NormPath(directory) == directory by {
      assert InitialSlashes(directory) == 0;
      assert "" + directory == directory;
    }
  }

  // ----- load_previous_results / append_result -----

  /** The results file on disk: missing, present but not JSON, or holding a
      JSON value (a file written by `json.dump` reads back as that value). */
  datatype Stored = Absent | Unparsable | Holds(value: Value)

  /** The dictionary the stored file contributes when updated: `{}` for a
      missing or unparsable file, its entries for a dictionary, nothing
      otherwise. */
  function StoredEntries(f: Stored): Option<seq<(Key, Value)>> {
    match f
    case Absent => Some([])
    case Unparsable => Some([])
    case Holds(Dict(es)) => Some(es)
    case Holds(_) => None
  }

  /** `load_previous_results`: the stored JSON value, or `{}` when the file is
      missing or cannot be parsed. */
  function LoadPreviousResults(f: Stored): Value {
    match f
    case Holds(v) => v
    case _ => Dict([])
  }

  /** `append_result`: a missing file receives the new entries alone; otherwise
      the stored dictionary (`{}` when unparsable) is updated with them; a
      stored value without `update` raises. */
  function AppendResult(f: Stored, result: seq<(Key, Value)>): Outcome<Stored> {
    match f
    case Absent => Returned(Holds(Dict(result)))
    case Unparsable => Returned(Holds(Dict(Overlay([], result))))
    case Holds(Dict(es)) => Returned(Holds(Dict(Overlay(es, result))))
    case Holds(_) => Raised("AttributeError")
  }

  /** Appending raises exactly when the stored value is not a dictionary (and
      the file is present and parsable), with `AttributeError`. */
  lemma AppendRaises(f: Stored, result: seq<(Key, Value)>)
    ensures AppendResult(f, result).Raised? <==> StoredEntries(f).None?
    ensures AppendResult(f, result).Raised? ==> AppendResult(f, result).error == "AttributeError"
  {
  }

  /** What a later load reads back after an append: the new entries win, every
      other key keeps what the file held. */
  lemma AppendThenLoad(f: Stored, result: seq<(Key, Value)>, k: Key)
    requires DistinctKeys(result) && StoredEntries(f).Some?
    ensures AppendResult(f, result).Returned?
    ensures var loaded := LoadPreviousResults(AppendResult(f, result).value);
      && loaded.Dict?
      && (HasKey(loaded.entries, k) <==> HasKey(StoredEntries(f).value, k) || HasKey(result, k))
      && Get(loaded.entries, k) == (if HasKey(result, k) then Get(result, k) else Get(StoredEntries(f).value, k))
  {
    var base := StoredEntries(f).value;
    if f.Absent? {
      assert LoadPreviousResults(AppendResult(f, result).value) == Dict(result);
      AppendedEntries([], result, k);
      OverlayOfEmpty(result, k);
    } else {
      assert LoadPreviousResults(AppendResult(f, result).value) == Dict(Overlay(base, result));
      AppendedEntries(base, result, k);
    }
  }

  /** The entries after an update, key by key. */
  lemma AppendedEntries(base: seq<(Key, Value)>, result: seq<(Key, Value)>, k: Key)
    requires DistinctKeys(result)
    ensures HasKey(Overlay(base, result), k) <==> HasKey(base, k) || HasKey(result, k)
    ensures Get(Overlay(base, result), k) == (if HasKey(result, k) then Get(result, k) else Get(base, k))
  {
    OverlayGet(base, result, k);
    OverlayHasKey(base, result, k);
  }

  /** Writing the new entries to a fresh file reads back like updating `{}`. */
  lemma OverlayOfEmpty(result: seq<(Key, Value)>, k: Key)
    requires DistinctKeys(result)
    ensures HasKey(result, k) <==> HasKey(Overlay([], result), k)
    ensures Get(result, k) == Get(Overlay([], result), k)
  {
    AppendedEntries([], result, k);
    assert !HasKey([], k);
  }

  /** Loading never fails: a missing or unparsable file reads as `{}`. */
  lemma LoadPreviousResultsEmpty(f: Stored)
    ensures f.Absent? || f.Unparsable? ==> LoadPreviousResults(f) == Dict([])
    ensures f.Holds? ==> LoadPreviousResults(f) == f.value
    ensures StoredEntries(f).Some? <==> LoadPreviousResults(f).Dict?
    ensures StoredEntries(f).Some? ==> LoadPreviousResults(f).entries == StoredEntries(f).value
  {
  }

  // ----- get_image_metadata -----

  /** A file the crawl reports: the fields of `FileCrawler.get_file_info`. */
  datatype Crawled = Crawled(path: string, directory: string, name: string, extension: string,
                             category: string, metadata: Value)

  /** `FileCrawler.get_file_info`: the dictionary the loop receives. */
  function FileInfo(f: Crawled): seq<(Key, Value)> {
    [(StrKey("path"), Str(f.path)), (StrKey("directory"), Str(f.directory)), (StrKey("name"), Str(f.name)),
     (StrKey("extension"), Str(f.extension)), (StrKey("category"), Str(f.category)),
     (StrKey("metadata"), f.metadata)]
  }

  /** The crawler stores the path under `path` and the metadata under
      `metadata`; it has no `file_metadata` entry. */
  lemma FileInfoKeys(f: Crawled)
    ensures Get(FileInfo(f), StrKey("path")) == Some(Str(f.path))
    ensures Get(FileInfo(f), StrKey("metadata")) == Some(f.metadata)
    ensures !HasKey(FileInfo(f), StrKey("file_metadata"))
  {
    var es := FileInfo(f);
    assert es[0].0 == StrKey("path");
    assert es[5].0 == StrKey("metadata");
    assert forall i :: 0 <= i < 5 ==> es[i].0 != StrKey("metadata");
    assert IndexOfKey(es, StrKey("path")) == Some(0);
    assert IndexOfKey(es, StrKey("metadata")) == Some(5);
  }

  /** `file_path not in previous_results` asks the loaded value: a dictionary
      for its keys, a list for its elements, a string for a substring; any
      other value is not a container. */
  function Contains(prev: Value, path: string): Outcome<bool> {
    match prev
    case Dict(es) => Returned(HasKey(es, StrKey(path)))
    case List(items) => Returned(Str(path) in items)
    case Str(s) => Returned(FindFrom(s, path, 0).Some?)
    case _ => Raised("TypeError")
  }

  /** `previous_results[file_path] = result`: only a dictionary accepts it. */
  function Store(prev: Value, path: string, result: Value): Outcome<Value> {
    match prev
    case Dict(es) => Returned(Dict(Put(es, StrKey(path), result)))
    case _ => Raised("TypeError")
  }

  /** The loop's state: the results in memory and the results file. */
  datatype Run = Run(previous: Value, stored: Stored)

  /** The key the loop reads the metadata from, as the script spells it. */
  const WrittenMetadataKey: string := "file_metadata"

  /** The key `get_file_info` stores the metadata under. */
  const CrawlerMetadataKey: string := "metadata"

  /** One turn of the loop, reading the metadata under `metaKey`: a path
      already among the results is skipped, an image without a caption is
      passed over, and a captioned one is recorded in memory and appended to
      the file. */
  function VisitImage(run: Run, f: Crawled, caption: string -> Option<Value>, metaKey: string): Outcome<Run> {
    match Contains(run.previous, f.path)
    case Raised(e) => Raised(e)
    case Returned(true) => Returned(run)
    case Returned(false) =>
      var c := caption(f.path);
      if c.None? || !Truthy(c.value) then Returned(run)
      else
        match Get(FileInfo(f), StrKey(metaKey))
        case None => Raised("KeyError")
        case Some(m) =>
          var result := Dict([(StrKey("caption"), c.value), (StrKey("metadata"), m)]);
          match Store(run.previous, f.path, result)
          case Raised(e) => Raised(e)
          case Returned(prev) =>
            match AppendResult(run.stored, [(StrKey(f.path), result)])
            case Raised(e) => Raised(e)
            case Returned(stored) => Returned(Run(prev, stored))
  }

  /** The loop over the crawled files, in order; an exception ends the run. */
  function VisitAll(run: Run, files: seq<Crawled>, caption: string -> Option<Value>, metaKey: string)
    : Outcome<Run>
    decreases |files|
  {
    if |files| == 0 then Returned(run)
    else
      match VisitImage(run, files[0], caption, metaKey)
      case Raised(e) => Raised(e)
      case Returned(next) => VisitAll(next, files[1..], caption, metaKey)
  }

  /** `get_image_metadata` as written: the metadata is read under
      `file_metadata`. */
  function GetImageMetadataAsWritten(f: Stored, files: seq<Crawled>, caption: string -> Option<Value>)
    : Outcome<Run>
  {
    VisitAll(Run(LoadPreviousResults(f), f), files, caption, WrittenMetadataKey)
  }

  /** `get_image_metadata` reading the metadata under the key the crawler
      uses. */
  function GetImageMetadata(f: Stored, files: seq<Crawled>, caption: string -> Option<Value>): Outcome<Run> {
    VisitAll(Run(LoadPreviousResults(f), f), files, caption, CrawlerMetadataKey)
  }

  /** As written, the first image that is not skipped and gets a caption
      raises `KeyError`. */
  lemma AsWrittenRaisesOnCaption(run: Run, f: Crawled, caption: string -> Option<Value>)
    requires Contains(run.previous, f.path) == Returned(false)
    requires caption(f.path).Some? && Truthy(caption(f.path).value)
    ensures VisitImage(run, f, caption, WrittenMetadataKey) == Raised("KeyError")
  {
    FileInfoKeys(f);
  }

  /** As written, a run that finishes has recorded nothing: every turn either
      changes nothing or raises. */
  lemma {:induction false} AsWrittenRecordsNothing(run: Run, files: seq<Crawled>, caption: string -> Option<Value>)
    ensures VisitAll(run, files, caption, WrittenMetadataKey).Returned? ==>
      VisitAll(run, files, caption, WrittenMetadataKey).value == run
    decreases |files|
  {
    if |files| > 0 {
      FileInfoKeys(files[0]);
      var o := VisitImage(run, files[0], caption, WrittenMetadataKey);
      assert o.Returned? ==> o.value == run;
      AsWrittenRecordsNothing(run, files[1..], caption);
    }
  }

  /** The whole script as written: one fresh captioned image makes it raise. */
  lemma AsWrittenFailsOnFirstImage(f: Crawled, caption: string -> Option<Value>)
    requires caption(f.path).Some? && Truthy(caption(f.path).value)
    ensures GetImageMetadataAsWritten(Absent, [f], caption) == Raised("KeyError")
  {
    assert Contains(Dict([]), f.path) == Returned(false);
    AsWrittenRaisesOnCaption(Run(Dict([]), Absent), f, caption);
  }

  /** The memory and the file agree: loading the file gives the results in
      memory, and they form a dictionary. */
  predicate InSync(run: Run) {
    run.previous.Dict? && LoadPreviousResults(run.stored) == run.previous
  }

  /** Every start from a file holding a dictionary, or from no usable file,
      is in sync. */
  lemma StartInSync(f: Stored)
    requires StoredEntries(f).Some?
    ensures InSync(Run(LoadPreviousResults(f), f))
  {
  }

  /** A path already among the results is skipped: nothing changes and the
      caption server is not asked. */
  lemma SkipRecorded(run: Run, f: Crawled, caption: string -> Option<Value>)
    requires run.previous.Dict? && HasKey(run.previous.entries, StrKey(f.path))
    ensures VisitImage(run, f, caption, CrawlerMetadataKey) == Returned(run)
  {
  }

  /** A fresh path with a caption is recorded with that caption and the
      crawler's metadata; a fresh path without one changes nothing. Either way
      memory and file stay in sync and other keys keep their values. */
  lemma VisitInSync(run: Run, f: Crawled, caption: string -> Option<Value>, k: Key)
    requires InSync(run)
    ensures var o := VisitImage(run, f, caption, CrawlerMetadataKey);
      var c := caption(f.path);
      var isNew := !HasKey(run.previous.entries, StrKey(f.path)) && c.Some? && Truthy(c.value);
      && o.Returned? && InSync(o.value)
      && (HasKey(o.value.previous.entries, k) <==> HasKey(run.previous.entries, k) || (isNew && k == StrKey(f.path)))
      && (HasKey(run.previous.entries, k) ==> Get(o.value.previous.entries, k) == Get(run.previous.entries, k))
      && (isNew ==>
            Get(o.value.previous.entries, StrKey(f.path)) ==
            Some(Dict([(StrKey("caption"), c.value), (StrKey("metadata"), f.metadata)])))
  {
    var es := run.previous.entries;
    var c := caption(f.path);
    if !HasKey(es, StrKey(f.path)) && c.Some? && Truthy(c.value) {
      var result := Dict([(StrKey("caption"), c.value), (StrKey("metadata"), f.metadata)]);
      VisitFresh(run, f, caption, result);
      if k != StrKey(f.path) {
        GetPutOther(es, StrKey(f.path), result, k);
      }
    }
  }

  /** The turn for a fresh captioned path, unfolded. */
  lemma VisitFresh(run: Run, f: Crawled, caption: string -> Option<Value>, result: Value)
    requires InSync(run) && !HasKey(run.previous.entries, StrKey(f.path))
    requires caption(f.path).Some? && Truthy(caption(f.path).value)
    requires result == Dict([(StrKey("caption"), caption(f.path).value), (StrKey("metadata"), f.metadata)])
    ensures var prev := Put(run.previous.entries, StrKey(f.path), result);
      VisitImage(run, f, caption, CrawlerMetadataKey) == Returned(Run(Dict(prev), Holds(Dict(prev))))
  {
    FileInfoKeys(f);
    assert Contains(run.previous, f.path) == Returned(false);
    assert Get(FileInfo(f), StrKey(CrawlerMetadataKey)) == Some(f.metadata);
    assert Store(run.previous, f.path, result) == Returned(Dict(Put(run.previous.entries, StrKey(f.path), result)));
    SyncedAppend(run, StrKey(f.path), result);
  }

  /** In sync, appending one entry writes exactly what storing it in memory
      gives. */
  lemma SyncedAppend(run: Run, k: Key, v: Value)
    requires InSync(run)
    ensures AppendResult(run.stored, [(k, v)]) == Returned(Holds(Dict(Put(run.previous.entries, k, v))))
  {
    PutIsOverlay(run.previous.entries, k, v);
    if run.stored.Absent? {
      assert !HasKey([], k);
    }
  }

  /** Updating with one entry is storing it. */
  lemma PutIsOverlay(es: seq<(Key, Value)>, k: Key, v: Value)
    ensures Overlay(es, [(k, v)]) == Put(es, k, v)
  {
    assert [(k, v)][1..] == [];
  }

  /** Some file of the run is captioned under key `k`. */
  predicate Captioned(files: seq<Crawled>, caption: string -> Option<Value>, k: Key) {
    exists i :: 0 <= i < |files| && k == StrKey(files[i].path) &&
      caption(files[i].path).Some? && Truthy(caption(files[i].path).value)
  }

  lemma CaptionedCons(files: seq<Crawled>, caption: string -> Option<Value>, k: Key)
    requires |files| > 0
    ensures Captioned(files, caption, k) <==>
      (k == StrKey(files[0].path) && caption(files[0].path).Some? && Truthy(caption(files[0].path).value))
      || Captioned(files[1..], caption, k)
  {
    if Captioned(files[1..], caption, k) {
      var i :| 0 <= i < |files[1..]| && k == StrKey(files[1..][i].path) &&
        caption(files[1..][i].path).Some? && Truthy(caption(files[1..][i].path).value);
      assert files[i + 1] == files[1..][i];
    }
    if Captioned(files, caption, k) {
      var i :| 0 <= i < |files| && k == StrKey(files[i].path) &&
        caption(files[i].path).Some? && Truthy(caption(files[i].path).value);
      if i > 0 {
        assert files[1..][i - 1] == files[i];
      }
    }
  }

  /** A run that starts in sync finishes without an exception, still in sync;
      it ends holding exactly the earlier results and the captioned paths, and
      an earlier result is never overwritten. */
  lemma {:induction false} VisitAllInSync(run: Run, files: seq<Crawled>, caption: string -> Option<Value>, k: Key)
    requires InSync(run)
    ensures var o := VisitAll(run, files, caption, CrawlerMetadataKey);
      && o.Returned? && InSync(o.value)
      && (HasKey(o.value.previous.entries, k) <==> HasKey(run.previous.entries, k) || Captioned(files, caption, k))
      && (HasKey(run.previous.entries, k) ==> Get(o.value.previous.entries, k) == Get(run.previous.entries, k))
    decreases |files|
  {
    if |files| > 0 {
      VisitInSync(run, files[0], caption, k);
      var next := VisitImage(run, files[0], caption, CrawlerMetadataKey).value;
      VisitAllInSync(next, files[1..], caption, k);
      CaptionedCons(files, caption, k);
    }
  }

  /** The whole script: started from a usable results file, it never raises,
      and the file it leaves reads back as the earlier results plus one entry
      per newly captioned image. */
  lemma GetImageMetadataResumes(f: Stored, files: seq<Crawled>, caption: string -> Option<Value>, k: Key)
    requires StoredEntries(f).Some?
    ensures var o := GetImageMetadata(f, files, caption);
      var before := StoredEntries(f).value;
      && o.Returned? && InSync(o.value)
      && (HasKey(LoadPreviousResults(o.value.stored).entries, k) <==> HasKey(before, k) || Captioned(files, caption, k))
      && (HasKey(before, k) ==> Get(LoadPreviousResults(o.value.stored).entries, k) == Get(before, k))
  {
    StartInSync(f);
    VisitAllInSync(Run(LoadPreviousResults(f), f), files, caption, k);
  }
}
