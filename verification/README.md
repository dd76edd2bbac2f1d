# docpack: packing files into one AI context document

docpack gathers source files and documentation pages into a single
XML-like text for an AI assistant. This project models, in Dafny, the
part of docpack that turns selected files into that text:

- `docpack/git_file.py`: the per-file record (`File.to_xml_data`: file
  name, shown path, content), the record list of `pack_them` (paths made
  relative to an optional root) and the seven-line-per-document serialiser
  `serialize_to_xml`.
- `docpack/build_knowledge.py`: the GitHub link of a file
  (`get_github_url`), the eight-line document of a `GitHubFile`
  (`to_xml_tag`), and the title and link of a documentation folder
  (`get_metadata_for_doc_folder`), whose title is the line above the first
  line made only of `=`.

Modules, one per file:

- `wrappers.dfy` (`Wrappers`): `Option` for Python's `None`, `Result` for a
  raised exception.
- `text.dfy` (`Text`): the Python string operations used: `sep.join`,
  `splitlines`, `strip`, and `"=" * n`. Neither source file calls
  `str.split`; `Split` on one character is here only as the inverse of
  `Join`, on which the partner parsers `ParseDocuments` and `ParsePath`
  are built.
- `paths.dfy` (`Paths`): POSIX `pathlib` paths as an anchor flag and a
  sequence of names, with `name`, `parent`, `parts`, `str()` and
  `relative_to`. `relative_to` strips a required prefix or fails.
- `git_file.dfy` (`GitFile`) and `build_knowledge.dfy` (`BuildKnowledge`):
  the two source files.

`serialize_to_xml` and `get_metadata_for_doc_folder` work with loops, so
they are methods proved against specification functions (`Serialization`,
`FirstUnderline`, `TitleIndex`). `pack_them` is the method `PackThem`,
proved against the record list `FileDataList` and `Serialization`. The
other operations are functions.
Every operation has a partner:

- `Split` undoes `Join`.
- `ParseDocuments` reads a serialisation back into its records.
- `ParsePath` reads `str(path)` back into the path.
- `JoinPath` (`root / q`) undoes `relative_to`.
- `SplitLines` undoes writing each line followed by a newline.

Reading a file is replaced by its content: a `content` parameter, or a
function `read` from paths to text for `pack_them`. The module-level
`dir_project_root` of `build_knowledge.py` is imported from a package
outside the repository. `dir_repo` is computed from it in
`build_knowledge.py` as `dir_project_root.parent.parent`. Both are
parameters here; `DocLinkIsGithubUrl` states what that relation gives. The default
arguments of `get_github_url` and the fixed link prefix of
`get_metadata_for_doc_folder` are constants.

## Model

| member | source | states |
|---|---|---|
| `Text.Repeat` | docpack/build_knowledge.py:93 | `"=" * n` has length `n` and every character is `=` |
| `Text.SplitJoin` | docpack/git_file.py:43 | splitting a `"\n".join` on newlines gives back the pieces, provided none of them holds a newline |
| `Text.JoinSplit` | docpack/git_file.py:43 | joining the pieces of a split gives back the text |
| `Text.JoinAppend` | docpack/git_file.py:43 | joining two non-empty lists is joining each and putting one separator between them |
| `Text.JoinLength` | docpack/git_file.py:43 | a joined text is the pieces' lengths plus one separator per piece, less one |
| `Text.SplitLines` | docpack/build_knowledge.py:90 | `splitlines` gives no lines exactly for the empty text, and no line holds a line break |
| `Text.SplitLinesUnlines` | docpack/build_knowledge.py:90 | `splitlines` recovers every line of a text in which each line ends in a newline |
| `Text.SplitLinesUnlinesLast` | docpack/build_knowledge.py:90 | `splitlines` recovers every line of a text whose last line has no terminator, such as `"Title\n====="`: the lines before it, each followed by a newline, then the last line |
| `Text.StripDropsOnlySpace` | docpack/build_knowledge.py:97 | `strip` keeps one slice of the line; everything before and after that slice is white space |
| `Text.StripEnds` | docpack/build_knowledge.py:97 | neither end of a stripped line is white space |
| `Text.StripIdempotent` | docpack/build_knowledge.py:97 | stripping twice is stripping once |
| `Paths.RelativeTo` | docpack/git_file.py:55 | `relative_to` succeeds exactly when the root is the path or one of its ancestors (same anchor, root names a prefix). The error names the path and the root. The result is relative, and appending it to the root gives back the path |
| `Paths.RelativeToUnique` | docpack/git_file.py:55 | the result of `relative_to` is the only relative path that leads from the root back to the path |
| `Paths.RelativeToSelf` | docpack/build_knowledge.py:40 | a path relative to itself is the empty path, printed `.` |
| `Paths.UnderParent` | docpack/build_knowledge.py:56-58 | a path under `dir_repo` is also under `dir_repo.parent`. Relative to that parent, it starts with the repository directory's own name |
| `Paths.StrRoundTrip` | docpack/git_file.py:26 | `str(path)` loses nothing: a valid path is read back from its string |
| `Paths.StrInjective` | docpack/git_file.py:26 | distinct valid paths print differently |
| `GitFile.ToXmlData` | docpack/git_file.py:23-28 | `filename` is the last name of `path`, empty for `/` and `.`. `content` is the content unchanged |
| `GitFile.ToXmlDataFields` | docpack/git_file.py:23-28 | `filename` is the last name of `path` (empty for `/` and `.`). `path` reads back as `relpath` when it is set, else as `path`. `content` is the content unchanged |
| `GitFile.SerializeToXml` | docpack/git_file.py:31-43 | the loop that appends seven lines per record and then joins with newlines returns exactly `Serialization` of its input |
| `GitFile.SerializeEmpty` | docpack/git_file.py:31-43 | no records give the empty text |
| `GitFile.SerializeOne` | docpack/git_file.py:34-42 | one record gives exactly `<document>`, `  <filename>F</filename>`, `  <path>P</path>`, `  <content>`, the content, `  </content>` and `</document>`, joined by newlines |
| `GitFile.SerializeAppend` | docpack/git_file.py:33-43 | for non-empty `a` and `b`, serialising `a + b` is serialising `a`, a newline, then serialising `b`: documents keep input order |
| `GitFile.SerializeBrackets` | docpack/git_file.py:34-43 | a non-empty serialisation starts with `<document>` and ends with `</document>` |
| `GitFile.SerializeLength` | docpack/git_file.py:36-43 | for `n > 0` records, the length is the sum of the field lengths, plus 89 per record, minus 1. Those 89 are 82 fixed characters and seven newlines; the last newline is not written. Fields are inserted verbatim |
| `GitFile.SerializeRoundTrip` | docpack/git_file.py:31-43 | when no field holds a newline, `ParseDocuments` recovers exactly the records, in order |
| `GitFile.SerializeInjective` | docpack/git_file.py:31-43 | distinct newline-free record lists give distinct texts |
| `GitFile.ContentIsNotEscaped` | docpack/git_file.py:39-41 | nothing is escaped: one record whose content spells out a closing tag and a second document gives the same text as two records |
| `GitFile.FileDataList` | docpack/git_file.py:51-57 | the list succeeds exactly when there is no root or every path is under it. It holds one record per input path, in input order. Each record has the path's last name and that path's content. Without a root, the shown path is `str(path)`. With a root, it is the path with the root's names removed. Otherwise the error names the first path that is not under the root |
| `GitFile.FileOf` | docpack/git_file.py:51-55 | without a root the file has no `relpath`. With a root, `relative_to` fails exactly for a path not under it, and the error names both paths. Otherwise `relpath` is relative, and appending it to the root gives back the path |
| `GitFile.ShownPathReadsBack` | docpack/git_file.py:51-55 | in `pack_them`, the shown path of a valid path reads back as the path itself without a root, and as the path's names below the root with one |
| `GitFile.PackThem` | docpack/git_file.py:46-58 | the text written is the serialisation of that record list; a path outside the root fails with that list's error |
| `GitFile.PackedDocumentsRoundTrip` | docpack/git_file.py:51-58 | when no field holds a newline, the packed text reads back as exactly one record per input path, in order |
| `BuildKnowledge.GetGithubUrl` | docpack/build_knowledge.py:18-41 | the link fails exactly for a path outside `dir_repo`, with the `relative_to` error |
| `BuildKnowledge.TrimSlash` | docpack/build_knowledge.py:38-39 | a domain ending in `/` is the result followed by that one `/`. A domain without one is kept as it is |
| `BuildKnowledge.TrimSlashOnce` | docpack/build_knowledge.py:38-39 | a domain followed by `/` loses that slash and only that one. A domain without a trailing `/` is unchanged |
| `BuildKnowledge.GithubUrlShape` | docpack/build_knowledge.py:38-41 | the link is the trimmed domain, then `/org/repo/blob/branch`, then `/` and each name of the path below `dir_repo`, in order |
| `BuildKnowledge.GithubUrlTrailingSlash` | docpack/build_knowledge.py:38-39 | `https://github.com` and `https://github.com/` give the same link |
| `BuildKnowledge.GithubUrlAtRepoRoot` | docpack/build_knowledge.py:40-41 | for `path == dir_repo` the link ends at the branch, without a trailing `/` |
| `BuildKnowledge.GithubUrlDocExample` | docpack/build_knowledge.py:26-37 | the docstring's example: `.../msss-searchstream-spikes/opensearch/osmpoc-project/README.rst` links to `https://github.com/collegeboard-software/msss-searchstream-spikes/blob/development/opensearch/osmpoc-project/README.rst` |
| `BuildKnowledge.GitHubFile.GithubUrl` | docpack/build_knowledge.py:48-50 | the link of the file fails exactly for a file outside `dir_repo`, with the `relative_to` error |
| `BuildKnowledge.GithubUrlOfFile` | docpack/build_knowledge.py:18-24 | with the default arguments, the link is `https://github.com/collegeboard-software/msss-searchstream-spikes/blob/development`, then `/` and each name of the file below `dir_repo` |
| `BuildKnowledge.GitHubFile.Filename` | docpack/build_knowledge.py:52-54 | the last name of the path, empty for `/` and `.` |
| `BuildKnowledge.GitHubFile.Relpath` | docpack/build_knowledge.py:56-58 | fails exactly for a file outside `dir_repo.parent`, with the `relative_to` error. Otherwise it is `str()` of the names below `dir_repo.parent` |
| `BuildKnowledge.RelpathStartsWithRepoName` | docpack/build_knowledge.py:56-58 | `relpath` is the repository directory's name followed by the names below it |
| `BuildKnowledge.GitHubFile.ToXmlTag` | docpack/build_knowledge.py:60-71 | succeeds exactly when `relpath` and `github_url` both do. The `relpath` error is raised first, since its line is built first |
| `BuildKnowledge.ToXmlTagErrors` | docpack/build_knowledge.py:60-71 | `to_xml_tag` fails exactly for a file outside `dir_repo`. The `relpath` error comes first, for a file not under `dir_repo.parent`; otherwise the `github_url` error |
| `BuildKnowledge.ToXmlTagLines` | docpack/build_knowledge.py:60-71 | when no field holds a newline, a document is exactly eight lines, in this order: `<document>`, filename, path, github_url, `<content>`, the content, `</content>`, `</document>` |
| `BuildKnowledge.ToXmlTagText` | docpack/build_knowledge.py:60-71 | for any content, newlines included, a file inside `dir_repo` gives exactly `<document>`, the filename, path and github_url lines, `  <content>`, the content, `  </content>` and `</document>`, joined by newlines |
| `BuildKnowledge.UnderlineIffOnlyEquals` | docpack/build_knowledge.py:93 | `line == "=" * len(line)` holds exactly for lines made only of `=`, the empty line included |
| `BuildKnowledge.FirstUnderline` | docpack/build_knowledge.py:92-94 | the index where the loop breaks: a line that passes the test, with no line before it passing; `len(lines)` when none passes |
| `BuildKnowledge.TitleIndex` | docpack/build_knowledge.py:91-97 | the title index lies inside the file. It is the index just before the one where the loop stops, and that stop index is the first line passing the test or else the last line. When the loop stops at 0, Python's `lines[-1]` gives the last line |
| `BuildKnowledge.GetMetadataForDocFolder` | docpack/build_knowledge.py:85-106 | an empty file raises first, then a path outside `dir_project_root`. Otherwise the title is the stripped line at `TitleIndex`, found by the `for`/`break` loop and Python's negative index. The link is the fixed prefix followed by the path's names below the project root, joined by `/` |
| `BuildKnowledge.TitleAboveUnderline` | docpack/build_knowledge.py:92-97 | the title is the line just above the first line made only of `=` |
| `BuildKnowledge.TitleWrapsToLastLine` | docpack/build_knowledge.py:97 | when the first line already passes, `lines[-1]` is the title: the file's last line |
| `BuildKnowledge.TitleWithoutUnderline` | docpack/build_knowledge.py:91-97 | when no line passes, the loop ends on the last line. The title is the second-to-last line, or the only line of a one-line file |
| `BuildKnowledge.BlankLineEndsTheScan` | docpack/build_knowledge.py:93-97 | a blank line passes the test: in `.. _intro:`, blank, `Introduction`, `====`, the label line is the title |
| `BuildKnowledge.DocLinkIsGithubUrl` | docpack/build_knowledge.py:98-100 | take `dir_repo` as `dir_project_root.parent.parent`, as line 15 sets it, and a project root ending in `opensearch/osmpoc-project`. For a file below that root, the link built from the fixed prefix is the link `get_github_url` gives with its default arguments |

## Left out

- The include/exclude selection engine is not part of this model. That covers reference normalisation (`extract_id`, `process_include_exclude`), the page hierarchy and its cache, and ancestor and glob matching. Its modules `docpack.confluence_fetcher`, `docpack.find_matching_files` and `docpack.github_fetcher` are outside the scope of this model, which covers the packing and knowledge-base building only.
- File I/O: `read_text` is replaced by a content parameter or a `read` function. `pack_them` returns the text instead of writing it to `out_path`.
- The `__main__` block of `build_knowledge.py` (lines 115-156): globbing, sorting, clearing the temporary directory, the time stamp and writing the knowledge base.
- `DocSource.get_new_content` (build_knowledge.py:80-82): unfinished; it builds a list and returns nothing.
- `docpack/model.py` (`Document.to_xml`): it reads an attribute the class does not have and writes mismatched tags.
- Network clients, credentials and the driver scripts under `manual_tests/` and `genai/`: they only configure and run pipelines over external services.
- `pathlib` is modelled for POSIX only: no drive letters, no case folding, no `walk_up` argument to `relative_to`. `ParsePath` treats a leading `//` like `/`. It is only used to show that `str()` of a valid path loses nothing.
- `GitHubFile.relpath` and `github_url` are properties, recomputed on every access. The model computes them as functions and has no caching.
- `GitFile.SerializeRoundTrip` and `GitFile.PackedDocumentsRoundTrip` hold only for fields without newlines. Fields are inserted unescaped, so text with newlines cannot be split back into fields: `GitFile.ContentIsNotEscaped` shows this.
- `BuildKnowledge.ToXmlTagLines` gives the eight lines back by splitting only when no field holds a newline, for the same reason. The document text for content with newlines is stated by `BuildKnowledge.ToXmlTagText`.
- `dir_repo` and `dir_project_root` are independent parameters of the model's functions. The relation `dir_repo == dir_project_root.parent.parent` of `build_knowledge.py:15` is not imposed on them; `BuildKnowledge.DocLinkIsGithubUrl` assumes it and states what it gives.
