/** POSIX `pathlib` paths as the packer uses them: a path is an optional
    root anchor `/` followed by a sequence of names. */
module Paths {
  import opened Wrappers
  import opened Text

  datatype Path = Path(absolute: bool, names: seq<string>)
  {
    /** `p.parts`: the anchor `/` first when there is one, then the names. */
    function Parts(): seq<string>
    {
      (if absolute then ["/"] else []) + names
    }

    /** `p.name`: the final name, or "" for `/` and `.`. */
    function Name(): string
    {
      if names == [] then "" else names[|names| - 1]
    }

    /** `p.parent`: drops the final name; `/` and `.` are their own parents. */
    function Parent(): Path
    {
      Path(absolute, if names == [] then [] else names[..|names| - 1])
    }

    /** `str(p)`: the empty relative path prints as `.`. */
    function Str(): string
    {
      if absolute then "/" + Join(names, "/")
      else if names == [] then "."
      else Join(names, "/")
    }
  }

  /** A name as `pathlib` keeps it after parsing: never empty, never `.`,
      never containing the separator. */
  predicate ValidName(n: string)
  {
    n != [] && n != "." && '/' !in n
  }

  predicate Valid(p: Path)
  {
    forall k :: 0 <= k < |p.names| ==> ValidName(p.names[k])
  }

  /** The `ValueError` raised by `relative_to`. */
  datatype PathError = NotRelative(path: Path, root: Path)

  /** `root` is `p` or one of its ancestors. */
  predicate IsUnder(p: Path, root: Path)
  {
    p.absolute == root.absolute && root.names <= p.names
  }

  /** `root / q`: a relative `q` is appended, an absolute one replaces `root`. */
  function JoinPath(root: Path, q: Path): Path
  {
    if q.absolute then q else Path(root.absolute, root.names + q.names)
  }

  /** `p.relative_to(root)`: the relative path that, appended to `root`,
      gives back `p`; a `NotRelative` error exactly when `root` is not an
      ancestor-or-self of `p`. */
  function RelativeTo(p: Path, root: Path): (r: Result<Path, PathError>)
    ensures r.Ok? <==> IsUnder(p, root)
    ensures r.Err? ==> r.error == NotRelative(p, root)
    ensures r.Ok? ==> !r.value.absolute && JoinPath(root, r.value) == p
  {
    if IsUnder(p, root) then Ok(Path(false, p.names[|root.names|..]))
    else Err(NotRelative(p, root))
  }

  /** The relative path `relative_to` returns is the only one that leads
      from `root` back to `p`. */
  lemma RelativeToUnique(p: Path, root: Path, q: Path)
    requires !q.absolute && JoinPath(root, q) == p
    ensures RelativeTo(p, root) == Ok(q)
  {
    assert p.names[|root.names|..] == q.names;
  }

  /** A path relative to itself is the empty path, printed as `.`. */
  lemma RelativeToSelf(p: Path)
    ensures RelativeTo(p, p) == Ok(Path(false, []))
    ensures RelativeTo(p, p).value.Str() == "."
  {
    assert p.names[|p.names|..] == [];
  }

  /** A path under `root` is also under `root`'s parent, and relative to
      that parent it starts with `root`'s own name. */
  lemma UnderParent(p: Path, root: Path)
    requires IsUnder(p, root)
    ensures IsUnder(p, root.Parent())
    ensures root.names != [] ==>
      RelativeTo(p, root.Parent()).value.names == [root.Name()] + RelativeTo(p, root).value.names
  {
    var n := |root.names|;
    if n > 0 {
      assert root.Parent().names == root.names[..n - 1] == p.names[..n - 1];
      assert p.names[n - 1..] == [p.names[n - 1]] + p.names[n..];
    }
  }

  /** Relative parts of a valid path are valid names. */
  lemma RelativeToValid(p: Path, root: Path)
    requires Valid(p) && IsUnder(p, root)
    ensures Valid(RelativeTo(p, root).value)
  {
    var q := RelativeTo(p, root).value;
    forall k | 0 <= k < |q.names|
      ensures ValidName(q.names[k])
    {
      assert q.names[k] == p.names[|root.names| + k];
    }
  }

  // ---------------------------------------------------------------------
  // Reading a path back from its string form

  /** Drops the empty and `.` names that `pathlib` discards when parsing. */
  function Components(xs: seq<string>): (r: seq<string>)
    ensures forall k :: 0 <= k < |r| ==> r[k] != [] && r[k] != "."
  {
    if xs == [] then []
    else if xs[0] == [] || xs[0] == "." then Components(xs[1..])
    else [xs[0]] + Components(xs[1..])
  }

  /** `PurePosixPath(s)` for a string with at most one leading `/`. */
  function ParsePath(s: string): Path
  {
    if |s| > 0 && s[0] == '/' then Path(true, Components(Split(s[1..], '/')))
    else Path(false, Components(Split(s, '/')))
  }

  lemma {:induction false} ComponentsOfValid(xs: seq<string>)
    requires forall k :: 0 <= k < |xs| ==> ValidName(xs[k])
    ensures Components(xs) == xs
    decreases |xs|
  {
    if xs != [] {
      ComponentsOfValid(xs[1..]);
      assert [xs[0]] + xs[1..] == xs;
    }
  }

  /** `str` loses nothing: a valid path is read back from its string form. */
  lemma StrRoundTrip(p: Path)
    requires Valid(p)
    ensures ParsePath(p.Str()) == p
  {
    var s := p.Str();
    if p.names == [] {
      if p.absolute {
        assert s[1..] == "";
        assert Split("", '/') == [""];
        assert Components([""]) == Components([]);
      } else {
        assert s == ".";
        SplitNoSeparator(s, '/');
      }
    } else {
      var j := Join(p.names, "/");
      SplitJoin(p.names, '/');
      ComponentsOfValid(p.names);
      if p.absolute {
        assert s[1..] == j;
      } else {
        JoinStartsWithFirst(p.names, "/");
        assert s[0] == p.names[0][0];
      }
    }
  }

  /** Distinct valid paths print differently. */
  lemma StrInjective(p: Path, q: Path)
    requires Valid(p) && Valid(q) && p.Str() == q.Str()
    ensures p == q
  {
    StrRoundTrip(p);
    StrRoundTrip(q);
  }
}
