# License header policy, modelled in Dafny

This project models the license policy of `conform`
(`internal/policy/license/license.go`). The policy walks the source tree from
`.` and prunes directories that match the gitignore-style `SkipPaths`. It
selects regular files by `ExcludeSuffixes` and `IncludeSuffixes`, and checks
that each selected file starts with the configured `Header` bytes. Every
violation becomes one error in a `HeaderCheck`. The check's summary message
reports how many errors there are.

Files:

- `text.dfy`, module `GoText`: the standard-library pieces the policy uses.
  These are `strings.HasSuffix`, `bytes.HasPrefix`, and `%d` formatting of a
  count (`Decimal`, proved to read back as the number through `DecimalValue`).
- `license.dfy`, module `LicensePolicy`: the data model, the specification,
  and the check as the source runs it.
  - Data model: the tree `Entry`, `License`, the compiled `Matcher`, `CheckError`, and `HeaderCheck` with `Name`, `Message` and `Errors`.
  - Specification: recursive functions `FileErrors`, `IncludeErrors`, `WalkSpec`/`WalkAll` and `Validate`.
  - Imperative check: methods `CheckRegularFile`, `Visit` (the walk callback), `WalkEntry` (the traversal `filepath.Walk` performs), `ValidateLicenseHeader` and `Compliance`. Each is proved to compute exactly its specification function. The callback's error list is threaded through these methods as the value they extend.
- `properties.dfy`, module `LicenseProperties`: lemmas about the specification, plus three worked examples.

How the environment is represented:

- The filesystem is an `Entry` tree. Each directory's children are listed in
  the order `filepath.Walk` visits them, which is lexical order.
- `File` is a regular file. It carries either its bytes or `ReadFailed`.
- `Special` is any other non-directory entry: a symlink, device, pipe or
  socket.
- `Broken` is an entry for which `filepath.Walk` passes the callback an error:
  `lstat` failed, or the entry is a directory whose listing could not be read.
  The model follows the walk of Go 1.10 and later. That walk reads a
  directory's listing before it calls the callback, and on a listing failure
  it calls the callback once, with the error. So an unreadable directory stops
  the walk even when a skip pattern matches it. (Earlier walks called the
  callback first, so a matched directory was pruned before its listing was
  read.)
- Paths are sequences of components below the root, so `[]` is `.` and
  `["a", "b.go"]` is `a/b.go`.
- The gitignore matcher is a `Matcher` value. `matches(path, isDir)` holds
  when `Relative` returns a match. The code tests that match only for being
  non-nil, so a negating pattern (`!pat`) that matches a directory also prunes
  it. `errors` are the pattern errors reported while compiling `SkipPaths`.

Where the code and its comments disagree, the model follows the code:

- A file matched by a skip pattern is not skipped. The inner `return nil` at
  line 108 cannot be reached, so the file goes on to the suffix filter and the
  header check.
- A file whose name ends with several include suffixes is read once per
  matching suffix. Without the header, it gets one error per matching suffix,
  not one per file.
- `Message` counts every error as a "file", including pattern errors, the
  missing-header configuration error, read failures and the walk failure.
- Pattern errors are recorded before the empty-header test, so they still
  come first in the result when `Header` is empty.

## Model

| member | source | states |
|---|---|---|
| `GoText.Decimal` | internal/policy/license/license.go:60 | The `%d` rendering of a count is a non-empty run of decimal digits with no leading zero, and it reads back as the count. |
| `LicensePolicy.HeaderCheck.Message` | internal/policy/license/license.go:58-64 | The message is "All files have a valid license header" exactly when the error list is empty. Otherwise it is "Found N files without license header", where N is written in decimal without a leading zero and reads back as the length of the error list. This fixes the exact string `%d` prints. |
| `LicensePolicy.CheckRegularFile` | internal/policy/license/license.go:112-135 | The exclude loop and then the include loop extend the error list by exactly `FileErrors` of the file. |
| `LicensePolicy.Visit` | internal/policy/license/license.go:96-137 | The callback's behaviour per entry kind. A walk error stops the walk with that error. A matched directory answers SkipDir, and an unmatched one continues. A regular file records its `FileErrors` whether or not it is matched. A special entry records nothing. |
| `LicensePolicy.WalkEntry` | internal/policy/license/license.go:96-138 | The depth-first, pre-order traversal extends the errors by exactly `WalkSpec`'s errors. It fails exactly when `WalkSpec` reports a failure, and with that failure. SkipDir can only come from a directory. |
| `LicensePolicy.ValidateLicenseHeader` | internal/policy/license/license.go:74-145 | The error list produced is exactly `Validate`: pattern errors, then the missing-header error or the walk's errors, then at most one walk failure. |
| `LicensePolicy.Compliance` | internal/policy/license/license.go:39-45 | The returned error is always nil. The report holds the single header check that `Validate` describes. |
| `LicenseProperties.CheckedFiles` | internal/policy/license/license.go:96-112 | The regular files the walk reaches from an entry: none below a matched directory, none after an entry that stops the walk. They lie at or below the entry's path, and the entry's own path is among them only when the entry is a regular file. |
| `LicenseProperties.CheckedFilesAll` | internal/policy/license/license.go:96-112 | The files reached from a directory's entries, up to and including the first entry that stops the walk, lie strictly below the directory's path. |
| `LicenseProperties.EmptyHeaderFailsFast` | internal/policy/license/license.go:83-92 | With an empty header, the errors are the pattern errors followed by one "Header is not defined". The result is the same for every tree, so no file is visited or read. The message reports the pattern count plus one. |
| `LicenseProperties.ExcludeWins` | internal/policy/license/license.go:113-118 | A regular file ending in an exclude suffix adds no error and does not stop the walk, whatever its content and include suffixes. |
| `LicenseProperties.MatchCountPositive` | internal/policy/license/license.go:121-122 | A name matches at least one include suffix exactly when it ends with one of them. |
| `LicenseProperties.IncludeErrorsOnContents` | internal/policy/license/license.go:121-134 | For readable content, the include loop records nothing when the content starts with the header. Otherwise it records one "does not contain a license header" error per matching suffix. |
| `LicenseProperties.IncludeErrorsOnReadFailure` | internal/policy/license/license.go:123-127 | For an unreadable file, the include loop records exactly one "Failed to open" error if some suffix matches, and none otherwise. |
| `LicenseProperties.ReadableFileErrors` | internal/policy/license/license.go:121-134 | A readable, non-excluded regular file never stops the walk. It is compliant exactly when its content starts with the header. Otherwise, including when it is shorter than the header, it adds one error per matching include suffix, and at least one when any include suffix matches. |
| `LicenseProperties.UnreadableFileErrors` | internal/policy/license/license.go:124-127 | An unreadable, non-excluded file adds exactly one "Failed to open" error when an include suffix matches, and none otherwise. The walk continues. |
| `LicenseProperties.SkipPrunesDirectoriesOnly` | internal/policy/license/license.go:101-110 | A matched directory contributes no error and reaches no file. A matched regular file is still checked exactly as an unmatched one. |
| `LicenseProperties.WalkErrorsNameCheckedFiles` | internal/policy/license/license.go:96-134 | The walk of a subtree stops exactly when it meets a broken entry outside every matched directory. Every error it records is a read or header error naming a regular file it reaches. Nothing below a matched directory or after the stop is reported, and no directory or special entry is reported. |
| `LicenseProperties.WalkAllErrorsNameCheckedFiles` | internal/policy/license/license.go:96-134 | The same holds for the entries of one directory: the walk stops exactly when one of them stops it. |
| `LicenseProperties.WalkAllAppend` | internal/policy/license/license.go:96-99 | Walking entries `a` then `b` is sequential. If `a` stops the walk, `b` adds nothing. Otherwise `b`'s errors follow `a`'s. |
| `LicenseProperties.WalkFailureIsLast` | internal/policy/license/license.go:140-142 | With a header, the last error is a walk failure exactly when the walk stopped, and no earlier error is one. So a walk failure is reported once, after all errors gathered before it. |
| `LicenseProperties.MessageCountsAllErrors` | internal/policy/license/license.go:58-64 | For any run, the message says all is valid exactly when there are no errors. Otherwise it reports the length of the whole list, which is at least the number of pattern errors. |
| `LicenseProperties.VendorExample` | internal/policy/license/license.go:96-138 | The tree `README`, `a.go` (with header), `b.go` (without) and `vendor/c.go` (without), with `vendor` matched, yields exactly one error, for `b.go`. |
| `LicenseProperties.ExcludedTestFileExample` | internal/policy/license/license.go:113-118 | `foo_test.go` without a header, with include `.go` and exclude `_test.go`, yields no error. |
| `LicenseProperties.RepeatedAndUnskippedExample` | internal/policy/license/license.go:101-134 | `x.pb.go` without a header, matched by a skip pattern, with includes `.go` and `.pb.go`, yields two errors for the same file. |
| `LicenseProperties.BrokenStopsExample` | internal/policy/license/license.go:96-99 | With a broken entry `a` before `b.go`, the only error is the walk failure for `a`, and `b.go` is not reached. |

`HeaderCheck.Name` is the constant "File Header" (lines 53-55). `HeaderCheck.Errors`
returns the error list (lines 67-69). `CheckError.Text` renders each error as the
message the source formats (lines 90, 125, 133 and 141).

Running the check twice on the same tree gives the same report. This follows
because `ValidateLicenseHeader` is proved equal to the function `Validate`.

## Left out

- The gitignore library (`gitignore.New`, `Relative`) and its pattern language. It is foreign code and is not part of this model. The `Matcher` value stands for its answers and its pattern errors.
- Writing `SkipPaths` into a buffer for the matcher (lines 75-79). This only feeds the matcher.
- Real filesystem access. `lstat`, directory listing and `ioutil.ReadFile` are replaced by the `Entry` tree. The tree's order is taken as the lexical order the walk uses. Each file's content or read failure is fixed, so the repeated reads of one file always agree. Changes to the tree during the walk are not modelled.
- `ValidateLicenseHeader`: `Header` is given as its bytes. The UTF-8 encoding of the Go string is not modelled. An empty string and empty bytes coincide, so the empty-header test is unaffected.
- Suffix tests compare characters rather than UTF-8 bytes. For valid UTF-8 names the two agree.
- `policy.Report`, `AddCheck` and `policy.Options` come from a package that is not part of this model. `Report` here is just the list of checks added, and `Compliance` ignores its options.
- Configuration loading (`mapstructure` tags) and the `pkg/errors` wrapping. Errors are structured values with a `Text` rendering. The walk error's text is kept as the cause string the walk reported.
