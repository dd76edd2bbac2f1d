/** Packing source files into one XML-like text for an AI assistant
    (`docpack/git_file.py`). Reading a file is replaced by its content,
    given as a parameter or by a `read` function over paths. */
module GitFile {
  import opened Wrappers
  import opened Text
  import opened Paths

  /** The `FileData` record: the three fields of one document. */
  datatype FileData = FileData(filename: string, path: string, content: string)

  /** The `File` dataclass: a path and, optionally, the path to show instead. */
  datatype File = File(path: Path, relpath: Option<Path>)

  /** `File.to_xml_data`, with `content` standing for `path.read_text()`. */
  function ToXmlData(f: File, content: string): (d: FileData)
    ensures f.path.names != [] ==> d.filename == f.path.names[|f.path.names| - 1]
    ensures f.path.names == [] ==> d.filename == ""
    ensures d.content == content
  {
    FileData(
      f.path.Name(),
      if f.relpath.None? then f.path.Str() else f.relpath.value.Str(),
      content)
  }

  /** What `to_xml_data` records: the final name of the path, the shown path
      (which reads back as the relative path when there is one, else as the
      path itself) and the content unchanged. */
  lemma ToXmlDataFields(f: File, content: string)
    requires Valid(f.path) && (f.relpath.Some? ==> Valid(f.relpath.value))
    ensures var d := ToXmlData(f, content);
      && (f.path.names != [] ==> d.filename == f.path.names[|f.path.names| - 1])
      && (f.path.names == [] ==> d.filename == "")
      && ParsePath(d.path) == (if f.relpath.None? then f.path else f.relpath.value)
      && d.content == content
  {
    if f.relpath.None? {
      StrRoundTrip(f.path);
    } else {
      StrRoundTrip(f.relpath.value);
    }
  }

  // ---------------------------------------------------------------------
  // serialize_to_xml

  /** The seven lines one record contributes, in order. */
  function DocumentLines(d: FileData): seq<string>
  {
    [ "<document>",
      "  <filename>" + d.filename + "</filename>",
      "  <path>" + d.path + "</path>",
      "  <content>",
      d.content,
      "  </content>",
      "</document>" ]
  }

  /** The `lines` list after the loop has visited every record of `docs`. */
  function AllLines(docs: seq<FileData>): seq<string>
  {
    if docs == [] then []
    else AllLines(docs[..|docs| - 1]) + DocumentLines(docs[|docs| - 1])
  }

  /** The text `serialize_to_xml` returns for `docs`. */
  function Serialization(docs: seq<FileData>): string
  {
    Join(AllLines(docs), "\n")
  }

  /** `serialize_to_xml`: appends each record's seven lines to a list, then
      joins the list with newlines. */
  method SerializeToXml(fileDataList: seq<FileData>) returns (s: string)
    ensures s == Serialization(fileDataList)
  {
    var lines: seq<string> := [];
    for k := 0 to |fileDataList|
      invariant lines == AllLines(fileDataList[..k])
    {
      var fileData := fileDataList[k];
      assert fileDataList[..k + 1][..k] == fileDataList[..k];
      lines := lines + ["<document>"];
      lines := lines + ["  <filename>" + fileData.filename + "</filename>"];
      lines := lines + ["  <path>" + fileData.path + "</path>"];
      lines := lines + ["  <content>"];
      lines := lines + [fileData.content];
      lines := lines + ["  </content>"];
      lines := lines + ["</document>"];
    }
    assert fileDataList[..|fileDataList|] == fileDataList;
    s := Join(lines, "\n");
  }

  lemma {:induction false} AllLinesAppend(a: seq<FileData>, b: seq<FileData>)
    ensures AllLines(a + b) == AllLines(a) + AllLines(b)
    decreases |b|
  {
    if b == [] {
      assert a + b == a;
    } else {
      var b' := b[..|b| - 1];
      assert (a + b)[..|a + b| - 1] == a + b';
      AllLinesAppend(a, b');
    }
  }

  lemma {:induction false} AllLinesLength(docs: seq<FileData>)
    ensures |AllLines(docs)| == 7 * |docs|
    decreases |docs|
  {
    if docs != [] {
      AllLinesLength(docs[..|docs| - 1]);
    }
  }

  /** No documents, no text. */
  lemma SerializeEmpty()
    ensures Serialization([]) == ""
  {
  }

  /** One record gives exactly its seven lines joined by newlines. */
  lemma SerializeOne(d: FileData)
    ensures Serialization([d]) ==
      "<document>" + "\n" +
      ("  <filename>" + d.filename + "</filename>") + "\n" +
      ("  <path>" + d.path + "</path>") + "\n" +
      "  <content>" + "\n" +
      d.content + "\n" +
      "  </content>" + "\n" +
      "</document>"
  {
    assert [d][..0] == [];
    assert AllLines([d]) == DocumentLines(d);
    JoinUnfold(DocumentLines(d), "\n");
  }

  /** Documents appear in input order, separated by one newline. */
  lemma SerializeAppend(a: seq<FileData>, b: seq<FileData>)
    requires a != [] && b != []
    ensures Serialization(a + b) == Serialization(a) + "\n" + Serialization(b)
  {
    AllLinesAppend(a, b);
    AllLinesLength(a);
    AllLinesLength(b);
    JoinAppend(AllLines(a), AllLines(b), "\n");
  }

  /** A non-empty serialisation opens with `<document>` and closes with
      `</document>`. */
  lemma SerializeBrackets(docs: seq<FileData>)
    requires docs != []
    ensures var s := Serialization(docs);
      |s| >= 21 && s[..10] == "<document>" && s[|s| - 11..] == "</document>"
  {
    var lines := AllLines(docs);
    AllLinesLength(docs);
    AllLinesAppend(docs[..1], docs[1..]);
    assert docs[..1] + docs[1..] == docs;
    assert docs[..1][..0] == [];
    assert lines[0] == "<document>";
    JoinStartsWithFirst(lines, "\n");
    JoinEndsWithLast(lines, "\n");
    JoinLength(lines, "\n");
  }

  /** Sum over the records of their three field lengths. */
  function FieldLength(docs: seq<FileData>): nat
  {
    if docs == [] then 0
    else
      var d := docs[|docs| - 1];
      FieldLength(docs[..|docs| - 1]) + |d.filename| + |d.path| + |d.content|
  }

  lemma {:induction false} TotalLengthAppend(xs: seq<string>, ys: seq<string>)
    ensures TotalLength(xs + ys) == TotalLength(xs) + TotalLength(ys)
    decreases |xs|
  {
    if xs == [] {
      assert xs + ys == ys;
    } else {
      assert (xs + ys)[1..] == xs[1..] + ys;
      TotalLengthAppend(xs[1..], ys);
    }
  }

  lemma {:induction false} AllLinesTotalLength(docs: seq<FileData>)
    ensures TotalLength(AllLines(docs)) == FieldLength(docs) + 82 * |docs|
    decreases |docs|
  {
    if docs != [] {
      var init := docs[..|docs| - 1];
      var d := docs[|docs| - 1];
      AllLinesTotalLength(init);
      TotalLengthAppend(AllLines(init), DocumentLines(d));
      TotalLengthUnfold(DocumentLines(d));
    }
  }

  /** Fields go in verbatim, without escaping: the text is the fields plus
      82 fixed characters and seven newlines per record, less the one
      newline that `join` does not put after the last line. */
  lemma SerializeLength(docs: seq<FileData>)
    ensures docs != [] ==> |Serialization(docs)| == FieldLength(docs) + 89 * |docs| - 1
  {
    AllLinesLength(docs);
    AllLinesTotalLength(docs);
    JoinLength(AllLines(docs), "\n");
  }

  // ---------------------------------------------------------------------
  // Reading the text back

  /** `line` with `open` stripped from the front and `close` from the back. */
  function Unwrap(line: string, open: string, close: string): Option<string>
  {
    if |open| + |close| <= |line| && line[..|open|] == open && line[|line| - |close|..] == close
    then Some(line[|open|..|line| - |close|])
    else None
  }

  /** One record from its seven lines. */
  function ParseDocument(b: seq<string>): Option<FileData>
    requires |b| == 7
  {
    var filename := Unwrap(b[1], "  <filename>", "</filename>");
    var path := Unwrap(b[2], "  <path>", "</path>");
    if b[0] == "<document>" && filename.Some? && path.Some? && b[3] == "  <content>" &&
       b[5] == "  </content>" && b[6] == "</document>"
    then Some(FileData(filename.value, path.value, b[4]))
    else None
  }

  function ParseLines(lines: seq<string>): Option<seq<FileData>>
    decreases |lines|
  {
    if lines == [] then Some([])
    else if |lines| < 7 then None
    else
      match ParseDocument(lines[..7])
      case None => None
      case Some(d) =>
        match ParseLines(lines[7..])
        case None => None
        case Some(ds) => Some([d] + ds)
  }

  /** Reads a serialisation back into its records. */
  function ParseDocuments(s: string): Option<seq<FileData>>
  {
    if s == "" then Some([]) else ParseLines(Split(s, '\n'))
  }

  predicate NoNewline(d: FileData)
  {
    '\n' !in d.filename && '\n' !in d.path && '\n' !in d.content
  }

  lemma UnwrapWrapped(open: string, x: string, close: string)
    ensures Unwrap(open + x + close, open, close) == Some(x)
  {
    var line := open + x + close;
    assert line[..|open|] == open;
    assert line[|line| - |close|..] == close;
    assert line[|open|..|line| - |close|] == x;
  }

  lemma {:induction false} ParseAllLines(docs: seq<FileData>)
    ensures ParseLines(AllLines(docs)) == Some(docs)
    decreases |docs|
  {
    if docs != [] {
      var d := docs[0];
      AllLinesAppend([d], docs[1..]);
      assert [d] + docs[1..] == docs;
      assert [d][..0] == [];
      var lines := AllLines(docs);
      assert lines == DocumentLines(d) + AllLines(docs[1..]);
      assert lines[..7] == DocumentLines(d);
      assert lines[7..] == AllLines(docs[1..]);
      UnwrapWrapped("  <filename>", d.filename, "</filename>");
      UnwrapWrapped("  <path>", d.path, "</path>");
      ParseAllLines(docs[1..]);
    }
  }

  lemma {:induction false} AllLinesNoNewline(docs: seq<FileData>)
    requires forall k :: 0 <= k < |docs| ==> NoNewline(docs[k])
    ensures forall k :: 0 <= k < |AllLines(docs)| ==> '\n' !in AllLines(docs)[k]
    decreases |docs|
  {
    if docs != [] {
      AllLinesNoNewline(docs[..|docs| - 1]);
    }
  }

  /** When no field holds a newline, the records are read back exactly from
      the text: nothing is lost, reordered or merged. */
  lemma SerializeRoundTrip(docs: seq<FileData>)
    requires forall k :: 0 <= k < |docs| ==> NoNewline(docs[k])
    ensures ParseDocuments(Serialization(docs)) == Some(docs)
  {
    if docs != [] {
      SerializeBrackets(docs);
      AllLinesLength(docs);
      AllLinesNoNewline(docs);
      SplitJoin(AllLines(docs), '\n');
      ParseAllLines(docs);
    }
  }

  /** Different newline-free record lists never give the same text. */
  lemma SerializeInjective(a: seq<FileData>, b: seq<FileData>)
    requires forall k :: 0 <= k < |a| ==> NoNewline(a[k])
    requires forall k :: 0 <= k < |b| ==> NoNewline(b[k])
    requires Serialization(a) == Serialization(b)
    ensures a == b
  {
    SerializeRoundTrip(a);
    SerializeRoundTrip(b);
  }

  /** Content is inserted without escaping: a record whose content spells
      out the closing lines of its own document and a whole second document
      serialises to the same text as the two documents. */
  lemma ContentIsNotEscaped(d: FileData, e: FileData)
    ensures var forged := FileData(d.filename, d.path, Join(
        [ d.content, "  </content>", "</document>",
          "<document>", "  <filename>" + e.filename + "</filename>", "  <path>" + e.path + "</path>",
          "  <content>", e.content ], "\n"));
      Serialization([forged]) == Serialization([d, e])
  {
    var dl, el := DocumentLines(d), DocumentLines(e);
    var middle := dl[4..] + el[..5];
    var forged := FileData(d.filename, d.path, Join(middle, "\n"));
    assert [d][..0] == [] && [forged][..0] == [];
    assert [d, e][..1] == [d];
    assert AllLines([d]) == dl;
    assert AllLines([d, e]) == dl + el;
    assert middle == [ d.content, "  </content>", "</document>",
          "<document>", "  <filename>" + e.filename + "</filename>", "  <path>" + e.path + "</path>",
          "  <content>", e.content ];
    assert AllLines([forged]) == dl[..4] + [Join(middle, "\n")] + el[5..];
    JoinFlatten(dl[..4], middle, el[5..], "\n");
    assert dl[..4] + middle + el[5..] == dl + el;
  }

  // ---------------------------------------------------------------------
  // pack_them

  /** The `relpath` a path gets in `pack_them`: none without a root, else
      the path relative to the root. */
  function FileOf(path: Path, rootPath: Option<Path>): (r: Result<File, PathError>)
    ensures r.Err? <==> rootPath.Some? && !IsUnder(path, rootPath.value)
    ensures r.Err? ==> r.error == NotRelative(path, rootPath.value)
    ensures r.Ok? ==> r.value.path == path
    ensures r.Ok? && rootPath.None? ==> r.value.relpath == None
    ensures r.Ok? && rootPath.Some? ==>
      && r.value.relpath.Some?
      && !r.value.relpath.value.absolute
      && JoinPath(rootPath.value, r.value.relpath.value) == path
  {
    if rootPath.None? then Ok(File(path, None))
    else
      match RelativeTo(path, rootPath.value)
      case Err(e) => Err(e)
      case Ok(rel) => Ok(File(path, Some(rel)))
  }

  /** `paths[j]` is the first path that is not under `root`. */
  predicate FirstOutside(paths: seq<Path>, root: Path, j: nat)
    requires j < |paths|
  {
    !IsUnder(paths[j], root) && forall k :: 0 <= k < j ==> IsUnder(paths[k], root)
  }

  /** The list comprehension in `pack_them`: one record per input path, in
      input order. With a root, each record shows the path with the root's
      names removed, and the first path not under the root raises. */
  function FileDataList(inPaths: seq<Path>, rootPath: Option<Path>, read: Path -> string)
    : (r: Result<seq<FileData>, PathError>)
    ensures r.Ok? <==>
      (rootPath.None? || forall k :: 0 <= k < |inPaths| ==> IsUnder(inPaths[k], rootPath.value))
    ensures r.Ok? ==> |r.value| == |inPaths|
    ensures r.Ok? ==> forall k :: 0 <= k < |inPaths| ==>
      && r.value[k].filename == inPaths[k].Name()
      && r.value[k].content == read(inPaths[k])
      && r.value[k].path == (if rootPath.None? then inPaths[k].Str()
                             else Path(false, inPaths[k].names[|rootPath.value.names|..]).Str())
    ensures r.Err? ==>
      exists j :: 0 <= j < |inPaths| && FirstOutside(inPaths, rootPath.value, j) &&
        r.error == NotRelative(inPaths[j], rootPath.value)
    decreases |inPaths|
  {
    if inPaths == [] then Ok([])
    else
      match FileOf(inPaths[0], rootPath)
      case Err(e) => Err(e)
      case Ok(f) =>
        match FileDataList(inPaths[1..], rootPath, read)
        case Err(e) => Err(e)
        case Ok(rest) => Ok([ToXmlData(f, read(inPaths[0]))] + rest)
  }

  /** In `pack_them`, the shown path of a valid path reads back as the path
      itself without a root, and as the path relative to the root with one. */
  lemma ShownPathReadsBack(path: Path, rootPath: Option<Path>, content: string)
    requires Valid(path) && FileOf(path, rootPath).Ok?
    ensures ParsePath(ToXmlData(FileOf(path, rootPath).value, content).path) ==
      if rootPath.None? then path else Path(false, path.names[|rootPath.value.names|..])
  {
    if rootPath.Some? {
      RelativeToValid(path, rootPath.value);
    }
    ToXmlDataFields(FileOf(path, rootPath).value, content);
  }

  /** `pack_them`: builds the records, serialises them and returns the
      text it writes to `out_path`; a path outside `root_path` raises first. */
  method PackThem(inPaths: seq<Path>, rootPath: Option<Path>, read: Path -> string)
    returns (r: Result<string, PathError>)
    ensures FileDataList(inPaths, rootPath, read).Err? ==>
      r == Err(FileDataList(inPaths, rootPath, read).error)
    ensures FileDataList(inPaths, rootPath, read).Ok? ==>
      r == Ok(Serialization(FileDataList(inPaths, rootPath, read).value))
  {
    var fileDataList := FileDataList(inPaths, rootPath, read);
    if fileDataList.Err? {
      r := Err(fileDataList.error);
    } else {
      var text := SerializeToXml(fileDataList.value);
      r := Ok(text);
    }
  }

  /** The packed text holds exactly one document per input path, in input
      order: when no field holds a newline, reading the text back gives
      the records of `FileDataList`, whose fields are stated there. */
  lemma PackedDocumentsRoundTrip(inPaths: seq<Path>, rootPath: Option<Path>, read: Path -> string)
    requires FileDataList(inPaths, rootPath, read).Ok?
    requires forall k :: 0 <= k < |inPaths| ==> NoNewline(FileDataList(inPaths, rootPath, read).value[k])
    ensures var records := FileDataList(inPaths, rootPath, read).value;
      ParseDocuments(Serialization(records)) == Some(records) && |records| == |inPaths|
  {
    SerializeRoundTrip(FileDataList(inPaths, rootPath, read).value);
  }
}
