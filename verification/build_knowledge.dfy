/** Building the knowledge-base text for a GitHub repository
    (`docpack/build_knowledge.py`): links to files on GitHub, the eight-line
    document layout, and the title and link of a documentation folder.
    The module-level `dir_project_root` comes from a package outside this
    model, and `dir_repo` is computed from it as
    `dir_project_root.parent.parent`; both are parameters here, and
    `DocLinkIsGithubUrl` states what that relation gives. Reading a file is
    replaced by its content, given as a parameter. */
module BuildKnowledge {
  import opened Wrappers
  import opened Text
  import opened Paths

  /** The default arguments of `get_github_url`. */
  const DefaultDomain := "https://github.com"
  const DefaultOrg := "collegeboard-software"
  const DefaultRepo := "msss-searchstream-spikes"
  const DefaultBranch := "development"

  /** The fixed link prefix of the documentation folders,
      `https://github.com/collegeboard-software/msss-searchstream-spikes/blob/development/opensearch/osmpoc-project/`,
      written piece by piece. */
  const DocsBaseUrl :=
    "https://github.com" + "/" + "collegeboard-software" + "/" + "msss-searchstream-spikes" + "/" +
    "blob" + "/" + "development" + "/" + "opensearch" + "/" + "osmpoc-project" + "/"

  // ---------------------------------------------------------------------
  // get_github_url

  /** `domain` with one trailing `/` removed, if it has one. */
  function TrimSlash(domain: string): (d: string)
    ensures EndsWith(domain, "/") ==> d + "/" == domain
    ensures !EndsWith(domain, "/") ==> d == domain
  {
    if EndsWith(domain, "/") then domain[..|domain| - 1] else domain
  }

  /** `get_github_url`: joins the domain, organisation, repository, `blob`,
      branch and the parts of `path` relative to `dirRepo` with `/`; a path
      outside `dirRepo` raises. */
  function GetGithubUrl(path: Path, dirRepo: Path, domain: string, org: string, repo: string, branch: string)
    : (r: Result<string, PathError>)
    ensures r.Err? <==> !IsUnder(path, dirRepo)
    ensures r.Err? ==> r.error == NotRelative(path, dirRepo)
  {
    var d := TrimSlash(domain);
    match RelativeTo(path, dirRepo)
    case Err(e) => Err(e)
    case Ok(relpath) => Ok(Join([d, org, repo, "blob", branch] + relpath.Parts(), "/"))
  }

  /** Each piece preceded by `sep`. */
  function Prefixed(xs: seq<string>, sep: string): string
  {
    if xs == [] then "" else sep + xs[0] + Prefixed(xs[1..], sep)
  }

  lemma {:induction false} JoinPrefixed(x: string, xs: seq<string>, sep: string)
    ensures Join([x] + xs, sep) == x + Prefixed(xs, sep)
    decreases |xs|
  {
    if xs != [] {
      assert ([x] + xs)[1..] == xs;
      assert xs == [xs[0]] + xs[1..];
      JoinPrefixed(xs[0], xs[1..], sep);
    }
  }

  lemma {:induction false} PrefixedAppend(xs: seq<string>, ys: seq<string>, sep: string)
    ensures Prefixed(xs + ys, sep) == Prefixed(xs, sep) + Prefixed(ys, sep)
    decreases |xs|
  {
    if xs == [] {
      assert xs + ys == ys;
    } else {
      assert (xs + ys)[1..] == xs[1..] + ys;
      PrefixedAppend(xs[1..], ys, sep);
    }
  }

  /** A `domain` followed by a slash loses that slash and only that one;
      a domain without a trailing slash is kept as it is. */
  lemma TrimSlashOnce(domain: string)
    ensures TrimSlash(domain + "/") == domain
    ensures !EndsWith(domain, "/") ==> TrimSlash(domain) == domain
  {
  }

  /** The four fixed pieces after the domain, each preceded by `/`. */
  lemma PrefixedFixed(d: string, org: string, repo: string, branch: string)
    ensures d + Prefixed([org, repo, "blob", branch], "/") ==
      d + "/" + org + "/" + repo + "/" + "blob" + "/" + branch
  {
    var fixed := [org, repo, "blob", branch];
    assert fixed[3..][1..] == [];
    assert fixed[2..][1..] == fixed[3..];
    assert fixed[1..][1..] == fixed[2..];
    var d1 := d + "/" + org;
    var d2 := d1 + "/" + repo;
    var d3 := d2 + "/" + "blob";
    assert d + Prefixed(fixed, "/") == d1 + Prefixed(fixed[1..], "/");
    assert d1 + Prefixed(fixed[1..], "/") == d2 + Prefixed(fixed[2..], "/");
    assert d2 + Prefixed(fixed[2..], "/") == d3 + Prefixed(fixed[3..], "/");
    assert d3 + Prefixed(fixed[3..], "/") == d3 + "/" + branch;
  }

  /** The link is the trimmed domain, then `/org/repo/blob/branch`, then
      `/` and each name of `path` below `dirRepo`. */
  lemma GithubUrlShape(path: Path, dirRepo: Path, domain: string, org: string, repo: string, branch: string)
    requires IsUnder(path, dirRepo)
    ensures GetGithubUrl(path, dirRepo, domain, org, repo, branch) ==
      Ok(TrimSlash(domain) + "/" + org + "/" + repo + "/" + "blob" + "/" + branch +
         Prefixed(path.names[|dirRepo.names|..], "/"))
  {
    var d := TrimSlash(domain);
    var rel := path.names[|dirRepo.names|..];
    var fixed := [org, repo, "blob", branch];
    assert RelativeTo(path, dirRepo).value.Parts() == rel;
    assert [d, org, repo, "blob", branch] + rel == [d] + (fixed + rel);
    calc {
      Join([d, org, repo, "blob", branch] + rel, "/");
      { JoinPrefixed(d, fixed + rel, "/"); }
      d + Prefixed(fixed + rel, "/");
      { PrefixedAppend(fixed, rel, "/"); }
      d + (Prefixed(fixed, "/") + Prefixed(rel, "/"));
      (d + Prefixed(fixed, "/")) + Prefixed(rel, "/");
      { PrefixedFixed(d, org, repo, branch); }
      d + "/" + org + "/" + repo + "/" + "blob" + "/" + branch + Prefixed(rel, "/");
    }
  }

  /** `https://github.com` and `https://github.com/` give the same link. */
  lemma GithubUrlTrailingSlash(path: Path, dirRepo: Path, domain: string, org: string, repo: string, branch: string)
    requires !EndsWith(domain, "/")
    ensures GetGithubUrl(path, dirRepo, domain + "/", org, repo, branch) ==
            GetGithubUrl(path, dirRepo, domain, org, repo, branch)
  {
    TrimSlashOnce(domain);
  }

  /** The repository itself links to the branch, with no trailing `/`. */
  lemma GithubUrlAtRepoRoot(dirRepo: Path, domain: string, org: string, repo: string, branch: string)
    ensures GetGithubUrl(dirRepo, dirRepo, domain, org, repo, branch) ==
      Ok(TrimSlash(domain) + "/" + org + "/" + repo + "/" + "blob" + "/" + branch)
  {
    GithubUrlShape(dirRepo, dirRepo, domain, org, repo, branch);
    assert dirRepo.names[|dirRepo.names|..] == [];
    var base := TrimSlash(domain) + "/" + org + "/" + repo + "/" + "blob" + "/" + branch;
    assert base + Prefixed([], "/") == base;
  }

  /** The example of the docstring of `get_github_url`. */
  lemma GithubUrlDocExample()
    ensures GetGithubUrl(
      Path(true, ["path", "to", "msss-searchstream-spikes", "opensearch", "osmpoc-project", "README.rst"]),
      Path(true, ["path", "to", "msss-searchstream-spikes"]),
      DefaultDomain, DefaultOrg, DefaultRepo, DefaultBranch)
      == Ok("https://github.com" + "/" + "collegeboard-software" + "/" + "msss-searchstream-spikes" + "/" +
            "blob" + "/" + "development" + "/" + "opensearch" + "/" + "osmpoc-project" + "/" + "README.rst")
  {
    var path := Path(true, ["path", "to", "msss-searchstream-spikes", "opensearch", "osmpoc-project", "README.rst"]);
    var dirRepo := Path(true, ["path", "to", "msss-searchstream-spikes"]);
    GithubUrlShape(path, dirRepo, DefaultDomain, DefaultOrg, DefaultRepo, DefaultBranch);
    var rel := path.names[3..];
    assert rel == ["opensearch", "osmpoc-project", "README.rst"];
    assert rel[1..][1..][1..] == [];
    assert Prefixed(rel[1..][1..], "/") == "/" + "README.rst";
    assert Prefixed(rel[1..], "/") == "/" + "osmpoc-project" + Prefixed(rel[1..][1..], "/");
    assert Prefixed(rel, "/") == "/" + "opensearch" + Prefixed(rel[1..], "/");
    assert Prefixed(rel, "/") == "/" + "opensearch" + "/" + "osmpoc-project" + "/" + "README.rst";
    assert DefaultDomain[|DefaultDomain| - 1] == 'm';
    assert TrimSlash(DefaultDomain) == DefaultDomain;
    var base := "https://github.com" + "/" + "collegeboard-software" + "/" + "msss-searchstream-spikes" + "/" +
      "blob" + "/" + "development";
    assert GetGithubUrl(path, dirRepo, DefaultDomain, DefaultOrg, DefaultRepo, DefaultBranch)
      == Ok(base + Prefixed(rel, "/"));
    var a, b, c := "opensearch", "osmpoc-project", "README.rst";
    assert base + ("/" + a + "/" + b + "/" + c) == base + "/" + a + "/" + b + "/" + c;
  }

  // ---------------------------------------------------------------------
  // GitHubFile

  /** The eight lines of a `GitHubFile` document, in order. */
  function TagLines(filename: string, relpath: string, githubUrl: string, content: string): seq<string>
  {
    [ "<document>",
      "  <filename>" + filename + "</filename>",
      "  <path>" + relpath + "</path>",
      "  <github_url>" + githubUrl + "</github_url>",
      "  <content>",
      content,
      "  </content>",
      "</document>" ]
  }

  /** A file of the repository `dirRepo`, shown with its GitHub link. */
  datatype GitHubFile = GitHubFile(path: Path)
  {
    /** `filename`: the final name of the path. */
    function Filename(): (name: string)
      ensures path.names == [] ==> name == ""
      ensures path.names != [] ==> name == path.names[|path.names| - 1]
    {
      path.Name()
    }

    /** `relpath`: the path relative to the directory holding the repository,
        as a string; a file outside that directory raises. */
    function Relpath(dirRepo: Path): (r: Result<string, PathError>)
      ensures r.Ok? <==> IsUnder(path, dirRepo.Parent())
      ensures r.Err? ==> r.error == NotRelative(path, dirRepo.Parent())
      ensures r.Ok? ==> r.value == Path(false, path.names[|dirRepo.Parent().names|..]).Str()
    {
      match RelativeTo(path, dirRepo.Parent())
      case Err(e) => Err(e)
      case Ok(rel) => Ok(rel.Str())
    }

    /** `github_url`: `get_github_url` with its default arguments; a file
        outside `dirRepo` raises. */
    function GithubUrl(dirRepo: Path): (r: Result<string, PathError>)
      ensures r.Ok? <==> IsUnder(path, dirRepo)
      ensures r.Err? ==> r.error == NotRelative(path, dirRepo)
    {
      GetGithubUrl(path, dirRepo, DefaultDomain, DefaultOrg, DefaultRepo, DefaultBranch)
    }

    /** `to_xml_tag`, with `content` standing for `path.read_text()`: the
        `relpath` line is computed before the `github_url` line, so its
        error is the one raised. */
    function ToXmlTag(dirRepo: Path, content: string): (r: Result<string, PathError>)
      ensures r.Ok? <==> Relpath(dirRepo).Ok? && GithubUrl(dirRepo).Ok?
      ensures Relpath(dirRepo).Err? ==> r == Err(Relpath(dirRepo).error)
      ensures Relpath(dirRepo).Ok? && GithubUrl(dirRepo).Err? ==> r == Err(GithubUrl(dirRepo).error)
    {
      match Relpath(dirRepo)
      case Err(e) => Err(e)
      case Ok(relpath) =>
        match GithubUrl(dirRepo)
        case Err(e) => Err(e)
        case Ok(githubUrl) => Ok(Join(TagLines(Filename(), relpath, githubUrl, content), "\n"))
    }
  }

  /** With the default arguments, the link of a file is the repository's
      `blob/development` address followed by `/` and each name of the file
      below `dirRepo`. */
  lemma GithubUrlOfFile(f: GitHubFile, dirRepo: Path)
    requires IsUnder(f.path, dirRepo)
    ensures f.GithubUrl(dirRepo) ==
      Ok("https://github.com" + "/" + "collegeboard-software" + "/" + "msss-searchstream-spikes" + "/" +
         "blob" + "/" + "development" + Prefixed(f.path.names[|dirRepo.names|..], "/"))
  {
    GithubUrlShape(f.path, dirRepo, DefaultDomain, DefaultOrg, DefaultRepo, DefaultBranch);
    assert DefaultDomain[|DefaultDomain| - 1] == 'm';
    assert TrimSlash(DefaultDomain) == DefaultDomain;
  }

  /** Inside a named repository directory, `relpath` starts with the
      repository's own directory name followed by the names below it. */
  lemma RelpathStartsWithRepoName(f: GitHubFile, dirRepo: Path)
    requires IsUnder(f.path, dirRepo) && dirRepo.names != []
    ensures f.Relpath(dirRepo) ==
      Ok(Path(false, [dirRepo.Name()] + f.path.names[|dirRepo.names|..]).Str())
  {
    UnderParent(f.path, dirRepo);
  }

  /** `to_xml_tag` fails exactly for a file outside `dirRepo`, with the
      error of `relpath` when the file is not even under `dirRepo`'s
      parent, else with that of `github_url`. */
  lemma ToXmlTagErrors(f: GitHubFile, dirRepo: Path, content: string)
    ensures f.ToXmlTag(dirRepo, content).Err? <==> !IsUnder(f.path, dirRepo)
    ensures f.ToXmlTag(dirRepo, content).Err? ==>
      f.ToXmlTag(dirRepo, content).error ==
        if IsUnder(f.path, dirRepo.Parent()) then NotRelative(f.path, dirRepo)
        else NotRelative(f.path, dirRepo.Parent())
  {
    if IsUnder(f.path, dirRepo) {
      UnderParent(f.path, dirRepo);
    }
  }

  lemma {:induction false} TagLinesNoNewline(filename: string, relpath: string, githubUrl: string, content: string)
    requires '\n' !in filename && '\n' !in relpath && '\n' !in githubUrl && '\n' !in content
    ensures forall k :: 0 <= k < 8 ==> '\n' !in TagLines(filename, relpath, githubUrl, content)[k]
  {
    var lines := TagLines(filename, relpath, githubUrl, content);
    forall k | 0 <= k < 8
      ensures '\n' !in lines[k]
    {
      if k == 1 {
        assert forall j :: 0 <= j < |lines[1]| ==> lines[1][j] == '\n' ==> j >= 12 && j < 12 + |filename|;
      }
    }
  }

  /** A document holds exactly eight lines, in the source's order, when
      none of its fields holds a newline. */
  lemma ToXmlTagLines(f: GitHubFile, dirRepo: Path, content: string)
    requires IsUnder(f.path, dirRepo)
    ensures f.ToXmlTag(dirRepo, content).Ok?
    ensures var relpath := f.Relpath(dirRepo).value;
      var githubUrl := f.GithubUrl(dirRepo).value;
      '\n' !in f.Filename() && '\n' !in relpath && '\n' !in githubUrl && '\n' !in content ==>
        Split(f.ToXmlTag(dirRepo, content).value, '\n') ==
          [ "<document>",
            "  <filename>" + f.Filename() + "</filename>",
            "  <path>" + relpath + "</path>",
            "  <github_url>" + githubUrl + "</github_url>",
            "  <content>",
            content,
            "  </content>",
            "</document>" ]
  {
    UnderParent(f.path, dirRepo);
    var relpath := f.Relpath(dirRepo).value;
    var githubUrl := f.GithubUrl(dirRepo).value;
    if '\n' !in f.Filename() && '\n' !in relpath && '\n' !in githubUrl && '\n' !in content {
      TagLinesNoNewline(f.Filename(), relpath, githubUrl, content);
      SplitJoin(TagLines(f.Filename(), relpath, githubUrl, content), '\n');
    }
  }

  /** The text of a document, for any content, file content with newlines
      included: the eight lines joined by newlines. */
  lemma ToXmlTagText(f: GitHubFile, dirRepo: Path, content: string)
    requires IsUnder(f.path, dirRepo)
    ensures f.ToXmlTag(dirRepo, content) == Ok(
      "<document>" + "\n" + (
      ("  <filename>" + f.Filename() + "</filename>") + "\n" +
      ("  <path>" + f.Relpath(dirRepo).value + "</path>") + "\n" +
      ("  <github_url>" + f.GithubUrl(dirRepo).value + "</github_url>") + "\n" +
      "  <content>" + "\n" +
      content + "\n" +
      "  </content>" + "\n" +
      "</document>"))
  {
    UnderParent(f.path, dirRepo);
    var lines := TagLines(f.Filename(), f.Relpath(dirRepo).value, f.GithubUrl(dirRepo).value, content);
    assert Join(lines, "\n") == lines[0] + "\n" + Join(lines[1..], "\n");
    JoinUnfold(lines[1..], "\n");
  }

  // ---------------------------------------------------------------------
  // get_metadata_for_doc_folder

  /** The `DocSource` dataclass. */
  datatype DocSource = DocSource(path: Path, title: string, githubUrl: string)

  /** The two `ValueError`s `get_metadata_for_doc_folder` can raise. */
  datatype MetadataError = EmptyIndex | OutsideProjectRoot(cause: PathError)

  /** The test `line == "=" * len(line)`. */
  predicate IsUnderline(line: string)
  {
    line == Repeat('=', |line|)
  }

  /** A line passes the test exactly when it holds nothing but `=`; the
      empty line passes too. */
  lemma UnderlineIffOnlyEquals(line: string)
    ensures IsUnderline(line) <==> forall k :: 0 <= k < |line| ==> line[k] == '='
    ensures IsUnderline("")
  {
    if forall k :: 0 <= k < |line| ==> line[k] == '=' {
      assert line == Repeat('=', |line|);
    }
  }

  /** Index of the first line that passes the test, or `|lines|`. */
  function FirstUnderline(lines: seq<string>): (k: nat)
    ensures k <= |lines|
    ensures k < |lines| ==> IsUnderline(lines[k])
    ensures forall j :: 0 <= j < k ==> !IsUnderline(lines[j])
  {
    if lines == [] || IsUnderline(lines[0]) then 0 else 1 + FirstUnderline(lines[1..])
  }

  /** Index of the title line: the line before the loop's final `i`, read
      with Python's negative indexing, so that `i == 0` picks the last line. */
  function TitleIndex(lines: seq<string>): (t: nat)
    requires lines != []
    ensures t < |lines|
    ensures var stop := if FirstUnderline(lines) < |lines| then FirstUnderline(lines) else |lines| - 1;
      t + 1 == stop || (stop == 0 && t == |lines| - 1)
  {
    var k := FirstUnderline(lines);
    var i := if k < |lines| then k else |lines| - 1;
    if i >= 1 then i - 1 else i - 1 + |lines|
  }

  /** `get_metadata_for_doc_folder`, with `content` standing for the text of
      `path_index`: the title is the stripped line above the first line
      made only of `=`, and the link is the fixed documentation prefix
      followed by the path's names below `dirProjectRoot`. An empty file,
      and then a path outside `dirProjectRoot`, raise. */
  method GetMetadataForDocFolder(pathIndex: Path, content: string, dirProjectRoot: Path)
    returns (r: Result<DocSource, MetadataError>)
    ensures content == "" ==> r == Err(EmptyIndex)
    ensures content != "" && !IsUnder(pathIndex, dirProjectRoot) ==>
      r == Err(OutsideProjectRoot(NotRelative(pathIndex, dirProjectRoot)))
    ensures content != "" && IsUnder(pathIndex, dirProjectRoot) ==>
      r == Ok(DocSource(
        pathIndex,
        Strip(SplitLines(content)[TitleIndex(SplitLines(content))]),
        DocsBaseUrl + Join(pathIndex.names[|dirProjectRoot.names|..], "/")))
  {
    var lines := SplitLines(content);
    var i: Option<nat> := None;
    var n := 0;
    while n < |lines|
      invariant n <= |lines|
      invariant forall j :: 0 <= j < n ==> !IsUnderline(lines[j])
      invariant i == if n == 0 then None else Some(n - 1)
    {
      i := Some(n);
      if lines[n] == Repeat('=', |lines[n]|) {
        break;
      }
      n := n + 1;
    }
    if i.None? {
      return Err(EmptyIndex);
    }
    assert i.value == if FirstUnderline(lines) < |lines| then FirstUnderline(lines) else |lines| - 1;
    var t: int := i.value - 1;
    if t < 0 {
      t := t + |lines|;
    }
    assert t == TitleIndex(lines);
    var title := Strip(lines[t]);
    match RelativeTo(pathIndex, dirProjectRoot)
    case Err(e) =>
      r := Err(OutsideProjectRoot(e));
    case Ok(relpath) =>
      assert relpath.Parts() == pathIndex.names[|dirProjectRoot.names|..];
      var githubUrl := DocsBaseUrl + Join(relpath.Parts(), "/");
      r := Ok(DocSource(pathIndex, title, githubUrl));
  }

  /** A non-empty list with each piece preceded by `sep` is `sep` and the join. */
  lemma PrefixedJoin(xs: seq<string>, sep: string)
    requires xs != []
    ensures Prefixed(xs, sep) == sep + Join(xs, sep)
  {
    assert xs == [xs[0]] + xs[1..];
    JoinPrefixed(xs[0], xs[1..], sep);
  }

  /** Two pieces, each preceded by `sep`, after `d`. */
  lemma PrefixedTwo(d: string, x: string, y: string, sep: string)
    ensures d + Prefixed([x, y], sep) == d + sep + x + sep + y
  {
    assert [x, y][1..][1..] == [];
    assert Prefixed([x, y][1..], sep) == sep + y;
  }

  /** The module-level `dir_repo` is `dir_project_root.parent.parent`. For
      the project root `.../opensearch/osmpoc-project`, the link of a file
      below it built from the fixed prefix is the link `get_github_url`
      gives with its default arguments. */
  lemma DocLinkIsGithubUrl(pathIndex: Path, dirProjectRoot: Path)
    requires |dirProjectRoot.names| >= 2
    requires dirProjectRoot.names[|dirProjectRoot.names| - 2..] == ["opensearch", "osmpoc-project"]
    requires IsUnder(pathIndex, dirProjectRoot) && |pathIndex.names| > |dirProjectRoot.names|
    ensures GetGithubUrl(pathIndex, dirProjectRoot.Parent().Parent(),
                         DefaultDomain, DefaultOrg, DefaultRepo, DefaultBranch)
      == Ok(DocsBaseUrl + Join(pathIndex.names[|dirProjectRoot.names|..], "/"))
  {
    var n := |dirProjectRoot.names|;
    var dirRepo := dirProjectRoot.Parent().Parent();
    var rel := pathIndex.names[n..];
    assert dirRepo.names == dirProjectRoot.names[..n - 2] == pathIndex.names[..n - 2];
    assert pathIndex.names[n - 2..] == ["opensearch", "osmpoc-project"] + rel;
    GithubUrlShape(pathIndex, dirRepo, DefaultDomain, DefaultOrg, DefaultRepo, DefaultBranch);
    assert DefaultDomain[|DefaultDomain| - 1] == 'm';
    var base := DefaultDomain + "/" + DefaultOrg + "/" + DefaultRepo + "/" + "blob" + "/" + DefaultBranch;
    var top := ["opensearch", "osmpoc-project"];
    var j := Join(rel, "/");
    calc {
      base + Prefixed(top + rel, "/");
      { PrefixedAppend(top, rel, "/"); }
      base + (Prefixed(top, "/") + Prefixed(rel, "/"));
      { PrefixedJoin(rel, "/"); }
      (base + Prefixed(top, "/")) + ("/" + j);
      { PrefixedTwo(base, "opensearch", "osmpoc-project", "/"); }
      (base + "/" + "opensearch" + "/" + "osmpoc-project") + ("/" + j);
      DocsBaseUrl + j;
    }
  }

  /** The usual case: the title is the line just above the first line made
      only of `=`. */
  lemma TitleAboveUnderline(lines: seq<string>, j: nat)
    requires j + 1 < |lines| && IsUnderline(lines[j + 1])
    requires forall k :: 0 <= k <= j ==> !IsUnderline(lines[k])
    ensures TitleIndex(lines) == j
  {
  }

  /** When the first line already passes the test (an overline, or a blank
      first line), the title is taken from the last line of the file. */
  lemma TitleWrapsToLastLine(lines: seq<string>)
    requires lines != [] && IsUnderline(lines[0])
    ensures TitleIndex(lines) == |lines| - 1
  {
  }

  /** Without any line made only of `=`, the loop ends on the last line and
      the title is the second-to-last line (the only line of a one-line file). */
  lemma TitleWithoutUnderline(lines: seq<string>)
    requires lines != []
    requires forall k :: 0 <= k < |lines| ==> !IsUnderline(lines[k])
    ensures TitleIndex(lines) == if |lines| >= 2 then |lines| - 2 else 0
  {
  }

  /** A blank line counts as an underline: in a file that starts with a
      label and a blank line, the label is taken as the title. */
  lemma BlankLineEndsTheScan()
    ensures TitleIndex([".. _intro:", "", "Introduction", "============"]) == 0
  {
    var lines := [".. _intro:", "", "Introduction", "============"];
    assert !IsUnderline(lines[0]) by {
      assert lines[0][0] != '=';
    }
    assert IsUnderline(lines[1]);
    assert FirstUnderline(lines[1..]) == 0;
  }
}
