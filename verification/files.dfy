/** File classification shared by several scripts: `os.path.splitext`, the
    twelve-entry document type table of `main.py` and `crawl.py`, and the
    extension categories of `llmprocessor.py` and `tasker.py`. */
module Files {
  import opened Wrappers
  import opened Text

  /** `os.path.splitext(p)` on POSIX: the extension starts at the last `.` of
      the last path component, unless only dots precede it in that component. */
  function SplitExt(p: string): (r: (string, string))
    ensures r.0 + r.1 == p
    ensures r.1 == "" || (r.1[0] == '.' && '.' !in r.1[1..] && '/' !in r.1)
    ensures '.' !in p ==> r.1 == ""
  {
    var sep := LastIndexOf(p, '/');
    var lo := if sep.Some? then sep.value + 1 else 0;
    match LastIndexOf(p, '.')
    case None =>
      assert p + "" == p;
      (p, "")
    case Some(d) =>
      if d >= lo && exists k :: lo <= k < d && p[k] != '.' then
        assert p[..d] + p[d..] == p;
        assert forall k :: 0 <= k < |p[d..]| ==> p[d..][k] == p[d + k];
        (p[..d], p[d..])
      else
        assert p + "" == p;
        (p, "")
  }

  /** Where the split falls: an extension is cut only after a non-dot of the
      last component, and no extension is cut only when every dot that follows
      a non-dot of the last component has another dot after it, that is, when
      the last component has no dot after its leading dots. */
  lemma SplitExtStem(p: string)
    ensures var r := SplitExt(p);
      r.1 != "" ==> exists k :: 0 <= k < |r.0| && r.0[k] != '.' && '/' !in r.0[k..]
    ensures var r := SplitExt(p);
      r.1 == "" ==> forall k, e :: (0 <= k < e < |p| && p[k] != '.' && p[e] == '.' && '/' !in p[k..]
        ==> '.' in p[e + 1..])
  {
    var sep := LastIndexOf(p, '/');
    var lo := if sep.Some? then sep.value + 1 else 0;
    var r := SplitExt(p);
    if r.1 != "" {
      var d := LastIndexOf(p, '.').value;
      var k :| lo <= k < d && p[k] != '.';
      assert r.0 == p[..d];
      assert forall j :: 0 <= j < |p[..d][k..]| ==> p[..d][k..][j] == p[k + j];
    }
    forall k, e | 0 <= k < e < |p| && p[k] != '.' && p[e] == '.' && '/' !in p[k..] && '.' !in p[e + 1..]
      ensures r.1 != ""
    {
      LastDotCut(p, k, e);
    }
  }

  /** A last dot with a non-dot of the last component before it is cut. */
  lemma LastDotCut(p: string, k: nat, e: nat)
    requires k < e < |p| && p[k] != '.' && p[e] == '.' && '/' !in p[k..] && '.' !in p[e + 1..]
    ensures SplitExt(p).1 == p[e..]
  {
    forall j | e < j < |p| ensures p[j] != '.' {
      assert p[e + 1..][j - e - 1] == p[j];
    }
    LastIndexOfAt(p, '.', e);
    forall j | k <= j < |p| ensures p[j] != '/' {
      assert p[k..][j - k] == p[j];
    }
    var sep := LastIndexOf(p, '/');
    assert sep.Some? ==> sep.value < k;
  }

  function Ext(p: string): string {
    SplitExt(p).1
  }

  /** In a name without `/`, a last dot that is not the first character starts
      the extension. */
  lemma ExtAt(p: string, d: nat)
    requires 0 < d < |p| && p[d] == '.' && p[0] != '.'
    requires forall k :: d < k < |p| ==> p[k] != '.'
    requires forall k :: 0 <= k < |p| ==> p[k] != '/'
    ensures Ext(p) == p[d..]
  {
    LastIndexOfAt(p, '.', d);
  }

  /** The extension table both `get_file_type` copies use. */
  const DocumentTypes: map<string, string> := map[
    ".txt" := "Text", ".pdf" := "PDF", ".doc" := "Word", ".docx" := "Word",
    ".xls" := "Excel", ".xlsx" := "Excel", ".ppt" := "PowerPoint",
    ".pptx" := "PowerPoint", ".csv" := "CSV",
    ".xml" := "XML", ".html" := "HTML", ".htm" := "HTML"]

  /** `get_file_type`: the type of the lower-cased extension, `None` when the
      table does not list it. */
  function GetFileType(filename: string): (r: Option<string>)
    ensures r.Some? <==> Lower(Ext(filename)) in DocumentTypes
    ensures r.Some? ==> r.value == DocumentTypes[Lower(Ext(filename))]
    ensures Ext(filename) == "" ==> r.None?
  {
    var ext := Lower(Ext(filename));
    if ext !in DocumentTypes then None else Some(DocumentTypes[ext])
  }

  /** The table lists exactly these twelve extensions, and the paired ones
      share a type. */
  lemma DocumentTypesShape()
    ensures DocumentTypes.Keys == {".txt", ".pdf", ".doc", ".docx", ".xls", ".xlsx", ".ppt",
                                   ".pptx", ".csv", ".xml", ".html", ".htm"}
    ensures DocumentTypes[".doc"] == DocumentTypes[".docx"] == "Word"
    ensures DocumentTypes[".htm"] == DocumentTypes[".html"] == "HTML"
    ensures DocumentTypes[".xls"] == DocumentTypes[".xlsx"] == "Excel"
    ensures DocumentTypes[".ppt"] == DocumentTypes[".pptx"] == "PowerPoint"
  {
  }

  /** Case does not matter: an upper-case extension is looked up lower-cased. */
  lemma FileTypeOfUpperPdf()
    ensures GetFileType("report.PDF") == Some("PDF")
  {
    ExtAt("report.PDF", 6);
    LowerPdf();
  }

  lemma LowerPdf()
    ensures Lower(".PDF") == ".pdf"
  {
  }

  /** Only the last extension counts. */
  lemma FileTypeOfDoubleExtension()
    ensures GetFileType("a.tar.htm") == Some("HTML")
  {
    ExtAt("a.tar.htm", 5);
    assert Lower(".htm") == ".htm";
  }

  /** A name without a dot, or whose only dot leads it, has no extension. */
  lemma FileTypeWithoutExtension()
    ensures GetFileType("README") == None
    ensures GetFileType(".txt") == None
  {
    assert '.' !in "README";
    assert Lower("") == "";
  }

  /** The extension categories of the two crawlers, in declaration order. */
  const Categories: seq<(string, seq<string>)> := [
    ("document", ["txt", "pdf", "doc", "docx", "md", "rtf"]),
    ("spreadsheet", ["xls", "xlsx", "csv", "ods"]),
    ("presentation", ["ppt", "pptx", "odp"]),
    ("image", ["jpg", "jpeg", "png", "gif", "bmp", "tiff"]),
    ("audio", ["mp3", "wav", "ogg", "flac"]),
    ("video", ["mp4", "avi", "mov", "wmv", "flv", "mkv"]),
    ("web", ["html", "htm", "xml", "css", "js"]),
    ("code", ["py", "java", "cpp", "c", "js", "php", "rb"]),
    ("archive", ["zip", "rar", "7z", "tar", "gz"])]

  /** `self.file_categories.get(name, [])`. */
  function Listed(name: string): (r: seq<string>)
    ensures r != [] <==> exists i :: 0 <= i < |Categories| && Categories[i].0 == name
  {
    ListedFrom(name, 0)
  }

  function ListedFrom(name: string, i: nat): (r: seq<string>)
    requires i <= |Categories|
    ensures r != [] <==> exists m :: i <= m < |Categories| && Categories[m].0 == name
    ensures r != [] ==> exists m :: i <= m < |Categories| && Categories[m] == (name, r)
    decreases |Categories| - i
  {
    if i == |Categories| then []
    else if Categories[i].0 == name then Categories[i].1
    else ListedFrom(name, i + 1)
  }

  /** `get_file_category`: the first category, in declaration order, that lists
      the extension, and `"other"` when none does. */
  function GetFileCategory(ext: string): (r: string)
    ensures r != "other" <==> exists i :: 0 <= i < |Categories| && ext in Categories[i].1
    ensures r != "other" ==> exists i :: (0 <= i < |Categories| && Categories[i].0 == r &&
      ext in Categories[i].1 && forall m :: 0 <= m < i ==> ext !in Categories[m].1)
  {
    assert forall m :: 0 <= m < |Categories| ==> Categories[m].0 != "other";
    CategoryFromSpec(Categories, ext, 0);
    CategoryFrom(Categories, ext, 0)
  }

  /** The scan over `cats` from position `i` on. */
  function CategoryFrom(cats: seq<(string, seq<string>)>, ext: string, i: nat): string
    requires i <= |cats|
    decreases |cats| - i
  {
    if i == |cats| then "other"
    else if ext in cats[i].1 then cats[i].0
    else CategoryFrom(cats, ext, i + 1)
  }

  /** The scan finds a category exactly when one lists the extension, and then
      it is the first such. */
  lemma {:induction false} CategoryFromSpec(cats: seq<(string, seq<string>)>, ext: string, i: nat)
    requires i <= |cats| && forall m :: 0 <= m < |cats| ==> cats[m].0 != "other"
    ensures var r := CategoryFrom(cats, ext, i);
      r != "other" <==> exists m :: i <= m < |cats| && ext in cats[m].1
    ensures var r := CategoryFrom(cats, ext, i);
      r != "other" ==> exists m :: (i <= m < |cats| && cats[m].0 == r &&
        ext in cats[m].1 && forall j :: i <= j < m ==> ext !in cats[j].1)
    decreases |cats| - i
  {
    if i < |cats| {
      if ext in cats[i].1 {
        assert cats[i].0 != "other";
      } else {
        CategoryFromSpec(cats, ext, i + 1);
        var r := CategoryFrom(cats, ext, i);
        if r != "other" {
          var m :| i + 1 <= m < |cats| && cats[m].0 == r && ext in cats[m].1 &&
            forall j :: i + 1 <= j < m ==> ext !in cats[j].1;
          assert forall j :: i <= j < m ==> ext !in cats[j].1;
        }
      }
    }
  }

  /** `"js"` is listed under both web and code; web comes first. */
  lemma CategoryOfJs()
    ensures GetFileCategory("js") == "web"
  {
    assert Categories[6].1[4] == "js";
    assert forall j :: 0 <= j < 6 ==> "js" !in Categories[j].1;
    CategoryFromAt(Categories, "js", 0, 6);
  }

  /** The scan stops at the first category, from `i` on, that lists `ext`. */
  lemma {:induction false} CategoryFromAt(cats: seq<(string, seq<string>)>, ext: string, i: nat, m: nat)
    requires i <= m < |cats| && ext in cats[m].1
    requires forall j :: i <= j < m ==> ext !in cats[j].1
    ensures CategoryFrom(cats, ext, i) == cats[m].0
    decreases m - i
  {
    if i < m {
      CategoryFromAt(cats, ext, i + 1, m);
    }
  }

  lemma CategoryOfPdf()
    ensures GetFileCategory("pdf") == "document"
  {
    assert Categories[0].1[1] == "pdf";
  }
}
