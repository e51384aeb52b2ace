/** The license policy of internal/policy/license/license.go: a walk over the
    source tree from "." that checks every selected regular file starts with a
    configured header and collects one error per violation.

    The filesystem is an in-memory tree whose children are already in the
    order `filepath.Walk` visits them (lexical). The gitignore matcher built
    from `SkipPaths` is a value: the predicate "Relative(path, isDir) returned
    a match" and the list of errors it reported while compiling the patterns. */
module LicensePolicy {
  import opened GoText

  datatype Option<T> = None | Some(value: T)

  /** A path relative to the walk root, one component per directory level;
      `[]` is the root "." itself. */
  type Path = seq<string>

  /** What `ioutil.ReadFile` gives for a regular file. */
  datatype ReadResult = Contents(bytes: seq<byte>) | ReadFailed

  /** One entry of the tree as `filepath.Walk` reports it. `Broken` is an entry
      for which the walk hands its callback an error: the entry could not be
      stat'ed, or it is a directory whose listing could not be read. */
  datatype Entry =
    | Dir(name: string, children: seq<Entry>)
    | File(name: string, content: ReadResult)
    | Special(name: string)
    | Broken(name: string, cause: string)

  /** The compiled skip patterns: `matches(path, isDir)` holds when the
      matcher returns a match for the path (an ignoring or a negating one),
      and `errors` are the pattern errors reported while compiling. */
  datatype Matcher = Matcher(matches: (Path, bool) -> bool, errors: seq<string>)

  /** The policy's configuration. `skipPaths` is what `Matcher` was compiled
      from; `header` is the configured header as the bytes it is compared by. */
  datatype License = License(
    skipPaths: seq<string>,
    includeSuffixes: seq<string>,
    excludeSuffixes: seq<string>,
    header: seq<byte>)

  function PathText(p: Path): string
  {
    if p == [] then "."
    else if |p| == 1 then p[0]
    else PathText(p[..|p| - 1]) + "/" + p[|p| - 1]
  }

  /** One recorded violation. */
  datatype CheckError =
    | PatternError(message: string)
    | HeaderNotDefined
    | OpenFailed(path: Path)
    | MissingHeader(path: Path)
    | WalkFailed(path: Path, cause: string)
  {
    /** The message the check reports for this violation. */
    function Text(): string
    {
      match this
      case PatternError(msg) => msg
      case HeaderNotDefined => "Header is not defined"
      case OpenFailed(p) => "Failed to open " + PathText(p)
      case MissingHeader(p) => "File " + PathText(p) + " does not contain a license header"
      case WalkFailed(_, cause) => "Failed to walk directory: " + cause
    }
  }

  const AllValid := "All files have a valid license header"
  const FoundPrefix := "Found "
  const FoundSuffix := " files without license header"

  /** `msg` is "Found N files without license header", where N is written
      without a leading zero and reads back as `n`. */
  predicate ReportsCount(msg: string, n: nat)
  {
    |FoundPrefix| + |FoundSuffix| < |msg|
    && msg[..|FoundPrefix|] == FoundPrefix
    && msg[|msg| - |FoundSuffix|..] == FoundSuffix
    && AllDigits(msg[|FoundPrefix|..|msg| - |FoundSuffix|])
    && (msg[|FoundPrefix|] == '0' ==> n == 0)
    && DecimalValue(msg[|FoundPrefix|..|msg| - |FoundSuffix|]) == n
  }

  /** The result of the check: the errors in the order they were found. */
  datatype HeaderCheck = HeaderCheck(errors: seq<CheckError>)
  {
    function Name(): string
    {
      "File Header"
    }

    /** The summary: every error, of whatever kind, is counted as a file. */
    function Message(): (msg: string)
      ensures msg == AllValid <==> |errors| == 0
      ensures |errors| != 0 ==> ReportsCount(msg, |errors|)
    {
      if |errors| != 0 then
        var d := Decimal(|errors|);
        var msg := FoundPrefix + d + FoundSuffix;
        assert msg[0] == 'F';
        assert msg[..|FoundPrefix|] == FoundPrefix;
        assert msg[|msg| - |FoundSuffix|..] == FoundSuffix;
        assert msg[|FoundPrefix|..|msg| - |FoundSuffix|] == d;
        assert msg[|FoundPrefix|] == d[0];
        msg
      else
        AllValid
    }

    function Errors(): seq<CheckError>
    {
      errors
    }
  }

  /** What `Compliance` hands to the policy runner (policy.Report, reduced to
      the checks added to it). */
  datatype Report = Report(checks: seq<HeaderCheck>)

  // ---------------------------------------------------------------------
  // Specification: the errors the check records, as recursive functions
  // ---------------------------------------------------------------------

  predicate EndsWithAny(name: string, suffixes: seq<string>)
  {
    exists s :: s in suffixes && HasSuffix(name, s)
  }

  /** How many entries of `suffixes` `name` ends with (repeats included). */
  function MatchCount(suffixes: seq<string>, name: string): nat
  {
    if suffixes == [] then 0
    else (if HasSuffix(name, suffixes[0]) then 1 else 0) + MatchCount(suffixes[1..], name)
  }

  function PatternErrors(m: Matcher): seq<CheckError>
  {
    seq(|m.errors|, i requires 0 <= i < |m.errors| => PatternError(m.errors[i]))
  }

  /** The include loop for one file: every matching suffix reads the file
      again; a failed read records one error and ends the loop, a read
      without the header records one error and the loop goes on. */
  function IncludeErrors(suffixes: seq<string>, header: seq<byte>, path: Path, name: string, content: ReadResult): seq<CheckError>
  {
    if suffixes == [] then []
    else if !HasSuffix(name, suffixes[0]) then IncludeErrors(suffixes[1..], header, path, name, content)
    else match content
      case ReadFailed => [OpenFailed(path)]
      case Contents(bytes) =>
        (if HasPrefix(bytes, header) then [] else [MissingHeader(path)])
        + IncludeErrors(suffixes[1..], header, path, name, content)
  }

  /** The errors one regular file adds: none when an exclude suffix matches. */
  function FileErrors(l: License, path: Path, name: string, content: ReadResult): seq<CheckError>
  {
    if EndsWithAny(name, l.excludeSuffixes) then []
    else IncludeErrors(l.includeSuffixes, l.header, path, name, content)
  }

  datatype WalkError = WalkError(path: Path, cause: string)

  /** Errors recorded so far, and the error that stopped the walk, if any. */
  datatype Outcome = Outcome(errors: seq<CheckError>, failure: Option<WalkError>)

  /** The walk of the subtree `e` found at `path`. */
  function WalkSpec(l: License, m: Matcher, path: Path, e: Entry): Outcome
    decreases e
  {
    match e
    case Broken(_, cause) => Outcome([], Some(WalkError(path, cause)))
    case Dir(_, children) =>
      if m.matches(path, true) then Outcome([], None)
      else WalkAll(l, m, path, children)
    case File(name, content) => Outcome(FileErrors(l, path, name, content), None)
    case Special(_) => Outcome([], None)
  }

  /** The walk of the entries of the directory at `parent`, in order, up to
      and including the first one that stops the walk. */
  function WalkAll(l: License, m: Matcher, parent: Path, children: seq<Entry>): Outcome
    decreases children
  {
    if children == [] then Outcome([], None)
    else
      var first := WalkSpec(l, m, parent + [children[0].name], children[0]);
      if first.failure.Some? then first
      else
        var rest := WalkAll(l, m, parent, children[1..]);
        Outcome(first.errors + rest.errors, rest.failure)
  }

  /** The whole check: pattern errors first, then either the missing-header
      configuration error or the walk's errors followed by its failure. */
  function Validate(l: License, m: Matcher, root: Entry): HeaderCheck
  {
    if l.header == [] then HeaderCheck(PatternErrors(m) + [HeaderNotDefined])
    else
      var o := WalkSpec(l, m, [], root);
      HeaderCheck(PatternErrors(m) + o.errors
        + match o.failure
          case Some(w) => [WalkFailed(w.path, w.cause)]
          case None => [])
  }

  // ---------------------------------------------------------------------
  // The check as the source runs it
  // ---------------------------------------------------------------------

  /** What the walk callback returns: nil, filepath.SkipDir, or an error. */
  datatype Signal = Continue | SkipDir | Fail(err: WalkError)

  /** The callback's work on a regular file: the exclude loop, then the
      include loop, appending to `errs`. */
  method CheckRegularFile(l: License, path: Path, name: string, content: ReadResult, errs: seq<CheckError>)
    returns (out: seq<CheckError>)
    ensures out == errs + FileErrors(l, path, name, content)
  {
    out := errs;
    var k := 0;
    while k < |l.excludeSuffixes|
      invariant 0 <= k <= |l.excludeSuffixes|
      invariant forall j :: 0 <= j < k ==> !HasSuffix(name, l.excludeSuffixes[j])
    {
      if HasSuffix(name, l.excludeSuffixes[k]) {
        assert EndsWithAny(name, l.excludeSuffixes) by {
          assert l.excludeSuffixes[k] in l.excludeSuffixes;
        }
        return;
      }
      k := k + 1;
    }
    var includes := l.includeSuffixes;
    var i := 0;
    while i < |includes|
      invariant 0 <= i <= |includes|
      invariant out + IncludeErrors(includes[i..], l.header, path, name, content)
             == errs + IncludeErrors(includes, l.header, path, name, content)
    {
      assert includes[i..][1..] == includes[i + 1..];
      if HasSuffix(name, includes[i]) {
        match content {
          case ReadFailed =>
            out := out + [OpenFailed(path)];
            return;
          case Contents(bytes) =>
            if !HasPrefix(bytes, l.header) {
              out := out + [MissingHeader(path)];
            }
        }
      }
      i := i + 1;
    }
  }

  /** The callback passed to `filepath.Walk`, for the entry `e` at `path`. */
  method Visit(l: License, m: Matcher, path: Path, e: Entry, errs: seq<CheckError>)
    returns (out: seq<CheckError>, sig: Signal)
    ensures e.Broken? ==> out == errs && sig == Fail(WalkError(path, e.cause))
    ensures e.Dir? ==> out == errs && sig == (if m.matches(path, true) then SkipDir else Continue)
    ensures e.File? ==> out == errs + FileErrors(l, path, e.name, e.content) && sig == Continue
    ensures e.Special? ==> out == errs && sig == Continue
  {
    out := errs;
    if e.Broken? {
      return out, Fail(WalkError(path, e.cause));
    }
    var isDir := e.Dir?;
    if m.matches(path, isDir) {
      if isDir {
        return out, SkipDir;
      }
    }
    if e.File? {
      out := CheckRegularFile(l, path, e.name, e.content, out);
    }
    sig := Continue;
  }

  /** `filepath.Walk`'s traversal of the subtree `e` at `path`: the callback
      first, then, for a directory it did not skip, every child in order;
      a SkipDir from a child directory moves on to its next sibling, any
      other error ends the traversal. */
  method WalkEntry(l: License, m: Matcher, path: Path, e: Entry, errs: seq<CheckError>)
    returns (out: seq<CheckError>, sig: Signal)
    decreases e
    ensures out == errs + WalkSpec(l, m, path, e).errors
    ensures sig.Fail? <==> WalkSpec(l, m, path, e).failure.Some?
    ensures sig.Fail? ==> WalkSpec(l, m, path, e).failure == Some(sig.err)
    ensures sig.SkipDir? ==> e.Dir?
  {
    out, sig := Visit(l, m, path, e, errs);
    if !e.Dir? || sig != Continue {
      return;
    }
    var children := e.children;
    var i := 0;
    while i < |children|
      invariant 0 <= i <= |children|
      invariant sig == Continue
      invariant out + WalkAll(l, m, path, children[i..]).errors
             == errs + WalkAll(l, m, path, children).errors
      invariant WalkAll(l, m, path, children[i..]).failure == WalkAll(l, m, path, children).failure
    {
      assert children[i..][1..] == children[i + 1..];
      var child := children[i];
      var r;
      out, r := WalkEntry(l, m, path + [child.name], child, out);
      if r != Continue && (!child.Dir? || r != SkipDir) {
        return out, r;
      }
      i := i + 1;
    }
  }

  /** `ValidateLicenseHeader`. */
  method ValidateLicenseHeader(l: License, m: Matcher, root: Entry) returns (check: HeaderCheck)
    ensures check == Validate(l, m, root)
  {
    var errors := PatternErrors(m);
    if l.header == [] {
      errors := errors + [HeaderNotDefined];
      return HeaderCheck(errors);
    }
    var sig;
    errors, sig := WalkEntry(l, m, [], root, errors);
    if sig.Fail? {
      errors := errors + [WalkFailed(sig.err.path, sig.err.cause)];
    }
    check := HeaderCheck(errors);
  }

  /** `Compliance`: one report holding the header check, and never an error. */
  method Compliance(l: License, m: Matcher, root: Entry) returns (report: Report, err: Option<string>)
    ensures err == None
    ensures report.checks == [Validate(l, m, root)]
  {
    var check := ValidateLicenseHeader(l, m, root);
    report := Report([check]);
    err := None;
  }
}
