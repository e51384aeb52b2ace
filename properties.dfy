/** What the license check promises, proved about the specification in
    LicensePolicy (which `ValidateLicenseHeader` is proved to compute). */
module LicenseProperties {
  import opened GoText
  import opened LicensePolicy

  function Repeat<T>(x: T, n: nat): (r: seq<T>)
    ensures |r| == n && forall i :: 0 <= i < n ==> r[i] == x
  {
    if n == 0 then [] else [x] + Repeat(x, n - 1)
  }

  /** Whether walking `e` at `path` meets an entry that stops the walk: a
      broken entry that is not below a matched directory. */
  predicate Stops(m: Matcher, path: Path, e: Entry)
    decreases e
  {
    match e
    case Broken(_, _) => true
    case Dir(_, children) => !m.matches(path, true) && StopsAll(m, path, children)
    case File(_, _) => false
    case Special(_) => false
  }

  predicate StopsAll(m: Matcher, parent: Path, children: seq<Entry>)
    decreases children
  {
    children != []
    && (Stops(m, parent + [children[0].name], children[0]) || StopsAll(m, parent, children[1..]))
  }

  /** The paths of the regular files the walk reaches: it does not descend
      into a matched directory, and it reaches nothing after an entry that
      stops it. */
  function CheckedFiles(m: Matcher, path: Path, e: Entry): (s: set<Path>)
    decreases e
    ensures forall q :: q in s ==> |path| <= |q| && q[..|path|] == path
    ensures path in s ==> e.File?
  {
    match e
    case File(_, _) => {path}
    case Dir(_, children) =>
      if m.matches(path, true) then {} else CheckedFilesAll(m, path, children)
    case Special(_) => {}
    case Broken(_, _) => {}
  }

  function CheckedFilesAll(m: Matcher, parent: Path, children: seq<Entry>): (s: set<Path>)
    decreases children
    ensures forall q :: q in s ==> |parent| < |q| && q[..|parent|] == parent
  {
    if children == [] then {}
    else
      var child := parent + [children[0].name];
      var first := CheckedFiles(m, child, children[0]);
      assert forall q :: q in first ==> q[..|parent|] == q[..|child|][..|parent|];
      first + if Stops(m, child, children[0]) then {} else CheckedFilesAll(m, parent, children[1..])
  }

  /** An empty header is reported after the pattern errors, and the result
      does not depend on the tree at all: nothing is visited or read. */
  lemma EmptyHeaderFailsFast(l: License, m: Matcher, root: Entry, other: Entry)
    requires l.header == []
    ensures Validate(l, m, root).errors == PatternErrors(m) + [HeaderNotDefined]
    ensures Validate(l, m, root) == Validate(l, m, other)
    ensures ReportsCount(Validate(l, m, root).Message(), |m.errors| + 1)
  {
  }

  /** Exclude suffixes are tested first: a match silences the file whatever
      its content and whatever include suffixes it also ends with. */
  lemma ExcludeWins(l: License, m: Matcher, path: Path, name: string, content: ReadResult, s: string)
    requires s in l.excludeSuffixes && HasSuffix(name, s)
    ensures WalkSpec(l, m, path, File(name, content)) == Outcome([], None)
  {
  }

  /** Counting matching suffixes agrees with "ends with one of them". */
  lemma {:induction false} MatchCountPositive(suffixes: seq<string>, name: string)
    ensures MatchCount(suffixes, name) > 0 <==> EndsWithAny(name, suffixes)
  {
    if suffixes != [] {
      MatchCountPositive(suffixes[1..], name);
      if EndsWithAny(name, suffixes[1..]) {
        var s :| s in suffixes[1..] && HasSuffix(name, s);
        assert s in suffixes;
      }
      if EndsWithAny(name, suffixes) && !HasSuffix(name, suffixes[0]) {
        var s :| s in suffixes && HasSuffix(name, s);
        assert s in suffixes[1..];
      }
    }
  }

  /** A readable file: no error when it starts with the header, otherwise one
      error for each include suffix its name ends with. */
  lemma {:induction false} IncludeErrorsOnContents(suffixes: seq<string>, header: seq<byte>, path: Path, name: string, bytes: seq<byte>)
    ensures IncludeErrors(suffixes, header, path, name, Contents(bytes))
         == if HasPrefix(bytes, header) then [] else Repeat(MissingHeader(path), MatchCount(suffixes, name))
  {
    if suffixes != [] {
      IncludeErrorsOnContents(suffixes[1..], header, path, name, bytes);
    }
  }

  /** An unreadable file: one "Failed to open" error if any include suffix
      matches (no further suffix is tried), none otherwise. */
  lemma {:induction false} IncludeErrorsOnReadFailure(suffixes: seq<string>, header: seq<byte>, path: Path, name: string)
    ensures IncludeErrors(suffixes, header, path, name, ReadFailed)
         == if EndsWithAny(name, suffixes) then [OpenFailed(path)] else []
  {
    if suffixes != [] {
      IncludeErrorsOnReadFailure(suffixes[1..], header, path, name);
      if EndsWithAny(name, suffixes[1..]) {
        var s :| s in suffixes[1..] && HasSuffix(name, s);
        assert s in suffixes;
      }
      if EndsWithAny(name, suffixes) && !HasSuffix(name, suffixes[0]) {
        var s :| s in suffixes && HasSuffix(name, s);
        assert s in suffixes[1..];
      }
    }
  }

  /** A regular file that is not excluded and can be read: it is compliant
      exactly when its content starts with the header bytes; otherwise,
      shorter than the header or differing from it, it adds one error per
      matching include suffix. The walk goes on after it either way. */
  lemma ReadableFileErrors(l: License, m: Matcher, path: Path, name: string, bytes: seq<byte>)
    requires !EndsWithAny(name, l.excludeSuffixes)
    ensures WalkSpec(l, m, path, File(name, Contents(bytes))).failure == None
    ensures HasPrefix(bytes, l.header) ==> WalkSpec(l, m, path, File(name, Contents(bytes))).errors == []
    ensures !HasPrefix(bytes, l.header) ==>
      WalkSpec(l, m, path, File(name, Contents(bytes))).errors
        == Repeat(MissingHeader(path), MatchCount(l.includeSuffixes, name))
    ensures |bytes| < |l.header| && EndsWithAny(name, l.includeSuffixes) ==>
      |WalkSpec(l, m, path, File(name, Contents(bytes))).errors| >= 1
  {
    IncludeErrorsOnContents(l.includeSuffixes, l.header, path, name, bytes);
    MatchCountPositive(l.includeSuffixes, name);
  }

  /** A regular file that is not excluded and cannot be read adds exactly one
      "Failed to open" error when an include suffix matches, and the walk
      goes on with the next entry. */
  lemma UnreadableFileErrors(l: License, m: Matcher, path: Path, name: string)
    requires !EndsWithAny(name, l.excludeSuffixes)
    ensures WalkSpec(l, m, path, File(name, ReadFailed))
         == Outcome(if EndsWithAny(name, l.includeSuffixes) then [OpenFailed(path)] else [], None)
  {
    IncludeErrorsOnReadFailure(l.includeSuffixes, l.header, path, name);
  }

  /** Skip patterns prune directories only: a matched directory contributes
      nothing from its subtree, while a matched file is checked like any other. */
  lemma SkipPrunesDirectoriesOnly(l: License, m: Matcher, path: Path, name: string, children: seq<Entry>, content: ReadResult)
    requires m.matches(path, true) && m.matches(path, false)
    ensures WalkSpec(l, m, path, Dir(name, children)) == Outcome([], None)
    ensures CheckedFiles(m, path, Dir(name, children)) == {}
    ensures WalkSpec(l, m, path, File(name, content)) == Outcome(FileErrors(l, path, name, content), None)
    ensures CheckedFiles(m, path, File(name, content)) == {path}
  {
  }

  /** The walk stops exactly when it meets a broken entry outside every
      matched directory, and every error it records is a read or header
      error naming a regular file it reaches; directories, special files,
      everything below a matched directory and everything after the stop
      never appear. */
  lemma {:induction false} WalkErrorsNameCheckedFiles(l: License, m: Matcher, path: Path, e: Entry)
    decreases e
    ensures WalkSpec(l, m, path, e).failure.Some? <==> Stops(m, path, e)
    ensures forall err :: err in WalkSpec(l, m, path, e).errors ==>
      (err.OpenFailed? || err.MissingHeader?) && err.path in CheckedFiles(m, path, e)
  {
    match e
    case File(name, content) =>
      if EndsWithAny(name, l.excludeSuffixes) {
      } else {
        match content
        case ReadFailed => IncludeErrorsOnReadFailure(l.includeSuffixes, l.header, path, name);
        case Contents(bytes) => IncludeErrorsOnContents(l.includeSuffixes, l.header, path, name, bytes);
      }
    case Dir(_, children) =>
      if !m.matches(path, true) {
        WalkAllErrorsNameCheckedFiles(l, m, path, children);
      }
    case Special(_) =>
    case Broken(_, _) =>
  }

  lemma {:induction false} WalkAllErrorsNameCheckedFiles(l: License, m: Matcher, parent: Path, children: seq<Entry>)
    decreases children
    ensures WalkAll(l, m, parent, children).failure.Some? <==> StopsAll(m, parent, children)
    ensures forall err :: err in WalkAll(l, m, parent, children).errors ==>
      (err.OpenFailed? || err.MissingHeader?) && err.path in CheckedFilesAll(m, parent, children)
  {
    if children != [] {
      WalkErrorsNameCheckedFiles(l, m, parent + [children[0].name], children[0]);
      WalkAllErrorsNameCheckedFiles(l, m, parent, children[1..]);
    }
  }

  /** The walk of a directory's entries is sequential: entries after one
      that stops the walk add nothing; otherwise the errors of the later
      entries follow those of the earlier ones. */
  lemma {:induction false} WalkAllAppend(l: License, m: Matcher, parent: Path, a: seq<Entry>, b: seq<Entry>)
    ensures WalkAll(l, m, parent, a + b)
         == if WalkAll(l, m, parent, a).failure.Some? then WalkAll(l, m, parent, a)
            else Outcome(WalkAll(l, m, parent, a).errors + WalkAll(l, m, parent, b).errors,
                         WalkAll(l, m, parent, b).failure)
  {
    if a == [] {
      assert a + b == b;
    } else {
      assert (a + b)[0] == a[0];
      assert (a + b)[1..] == a[1..] + b;
      WalkAllAppend(l, m, parent, a[1..], b);
    }
  }

  /** A walk error is reported once, after every error gathered before it:
      it is the last error, no other error is a walk error, and it is there
      exactly when the walk stopped. */
  lemma WalkFailureIsLast(l: License, m: Matcher, root: Entry)
    requires l.header != []
    ensures var errs := Validate(l, m, root).errors;
      (forall i :: 0 <= i < |errs| - 1 ==> !errs[i].WalkFailed?)
      && ((|errs| > 0 && errs[|errs| - 1].WalkFailed?) <==> WalkSpec(l, m, [], root).failure.Some?)
  {
    WalkErrorsNameCheckedFiles(l, m, [], root);
    var o := WalkSpec(l, m, [], root);
    var errs := Validate(l, m, root).errors;
    var front := PatternErrors(m) + o.errors;
    assert forall i :: 0 <= i < |front| ==> !front[i].WalkFailed? by {
      forall i | 0 <= i < |front|
        ensures !front[i].WalkFailed?
      {
        if i >= |PatternErrors(m)| {
          assert front[i] == o.errors[i - |PatternErrors(m)|];
          assert front[i] in o.errors;
        }
      }
    }
  }

  /** The summary names the size of the whole error list, pattern, read and
      walk errors included, and says all is well only for an empty list. */
  lemma MessageCountsAllErrors(l: License, m: Matcher, root: Entry)
    ensures var c := Validate(l, m, root);
      (c.Message() == AllValid <==> c.errors == [])
      && (c.errors != [] ==> ReportsCount(c.Message(), |c.errors|))
      && |c.errors| >= |m.errors|
  {
  }

  // ---------------------------------------------------------------------
  // Worked examples
  // ---------------------------------------------------------------------

  /** "// Copyright\n" as bytes. */
  const Copyright: seq<byte> := [47, 47, 32, 67, 111, 112, 121, 114, 105, 103, 104, 116, 10]

  /** A tree with `README` (no matching suffix), `a.go` (with the header),
      `b.go` (without) and `vendor/c.go` (without, below a skipped
      directory): only `b.go` is reported. */
  lemma VendorExample()
    ensures
      var l := License(["vendor/"], [".go"], [], Copyright);
      var m := Matcher((p: Path, isDir: bool) => p == ["vendor"], []);
      var root := Dir(".", [
        File("README", Contents([])),
        File("a.go", Contents(Copyright + [112])),
        File("b.go", Contents([112, 97])),
        Dir("vendor", [File("c.go", Contents([112]))])]);
      Validate(l, m, root).errors == [MissingHeader(["b.go"])]
  {
    var l := License(["vendor/"], [".go"], [], Copyright);
    var m := Matcher((p: Path, isDir: bool) => p == ["vendor"], []);
    var readme := File("README", Contents([]));
    var a := File("a.go", Contents(Copyright + [112]));
    var b := File("b.go", Contents([112, 97]));
    var vendor := Dir("vendor", [File("c.go", Contents([112]))]);
    assert !HasSuffix("README", ".go");
    assert WalkSpec(l, m, ["README"], readme) == Outcome([], None);
    assert HasSuffix("a.go", ".go");
    assert (Copyright + [112])[..|Copyright|] == Copyright;
    assert HasPrefix(Copyright + [112], Copyright);
    assert IncludeErrors([], Copyright, ["a.go"], "a.go", a.content) == [];
    assert IncludeErrors([".go"], Copyright, ["a.go"], "a.go", a.content) == [];
    assert WalkSpec(l, m, ["a.go"], a) == Outcome([], None);
    assert HasSuffix("b.go", ".go");
    assert WalkSpec(l, m, ["b.go"], b) == Outcome([MissingHeader(["b.go"])], None);
    assert WalkSpec(l, m, ["vendor"], vendor) == Outcome([], None);
    var children := [readme, a, b, vendor];
    assert children[1..] == [a, b, vendor] && children[2..] == [b, vendor] && children[3..] == [vendor];
    assert [] + [b.name] == ["b.go"] && [] + [vendor.name] == ["vendor"];
    assert [] + [a.name] == ["a.go"] && [] + [readme.name] == ["README"];
    assert WalkAll(l, m, [], [vendor]) == Outcome([], None);
    assert WalkAll(l, m, [], [b, vendor]) == Outcome([MissingHeader(["b.go"])], None);
    assert WalkAll(l, m, [], [a, b, vendor]) == Outcome([MissingHeader(["b.go"])], None);
    assert WalkAll(l, m, [], children) == Outcome([MissingHeader(["b.go"])], None);
    assert WalkSpec(l, m, [], Dir(".", children)) == Outcome([MissingHeader(["b.go"])], None);
    assert PatternErrors(m) == [];
  }

  /** `foo_test.go` without a header is excluded by `_test.go`. */
  lemma ExcludedTestFileExample()
    ensures
      var l := License([], [".go"], ["_test.go"], Copyright);
      var m := Matcher((p: Path, isDir: bool) => false, []);
      Validate(l, m, Dir(".", [File("foo_test.go", Contents([]))])).errors == []
  {
    var l := License([], [".go"], ["_test.go"], Copyright);
    assert HasSuffix("foo_test.go", "_test.go");
    assert "_test.go" in l.excludeSuffixes;
  }

  /** A file that ends in two include suffixes and lacks the header is
      reported twice; a file the skip pattern matches is still reported. */
  lemma RepeatedAndUnskippedExample()
    ensures
      var l := License(["x.pb.go"], [".go", ".pb.go"], [], Copyright);
      var m := Matcher((p: Path, isDir: bool) => p == ["x.pb.go"], []);
      Validate(l, m, Dir(".", [File("x.pb.go", Contents([]))])).errors
        == [MissingHeader(["x.pb.go"]), MissingHeader(["x.pb.go"])]
  {
    var l := License(["x.pb.go"], [".go", ".pb.go"], [], Copyright);
    assert HasSuffix("x.pb.go", ".go") && HasSuffix("x.pb.go", ".pb.go");
    assert IncludeErrors([".pb.go"], Copyright, ["x.pb.go"], "x.pb.go", Contents([]))
        == [MissingHeader(["x.pb.go"])];
    assert IncludeErrors(l.includeSuffixes, Copyright, ["x.pb.go"], "x.pb.go", Contents([]))
        == [MissingHeader(["x.pb.go"]), MissingHeader(["x.pb.go"])];
    assert !EndsWithAny("x.pb.go", l.excludeSuffixes);
    var m := Matcher((p: Path, isDir: bool) => p == ["x.pb.go"], []);
    var f := File("x.pb.go", Contents([]));
    assert [] + [f.name] == ["x.pb.go"];
    assert WalkSpec(l, m, ["x.pb.go"], f) == Outcome([MissingHeader(["x.pb.go"]), MissingHeader(["x.pb.go"])], None);
    assert WalkAll(l, m, [], [f]) == Outcome([MissingHeader(["x.pb.go"]), MissingHeader(["x.pb.go"])], None);
  }

  /** A broken entry stops the walk: the file after it is neither reached
      nor reported, and the walk failure is the only error. */
  lemma BrokenStopsExample()
    ensures
      var l := License([], [".go"], [], Copyright);
      var m := Matcher((p: Path, isDir: bool) => false, []);
      var root := Dir(".", [Broken("a", "lstat a: permission denied"), File("b.go", ReadFailed)]);
      && Validate(l, m, root).errors == [WalkFailed(["a"], "lstat a: permission denied")]
      && ["b.go"] !in CheckedFiles(m, [], root)
  {
    var m := Matcher((p: Path, isDir: bool) => false, []);
    var a := Broken("a", "lstat a: permission denied");
    assert [] + [a.name] == ["a"];
    assert Stops(m, ["a"], a);
    assert CheckedFiles(m, ["a"], a) == {};
  }
}
