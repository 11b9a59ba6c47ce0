# lorri build loop: log classification, build steps and event rendering

This project models the logic at the heart of lorri's build watcher:

- **The nix log-line classifier** (`parse_evaluation_line`). One line of
  `nix-build`'s stderr becomes `Source(path)`, `AttrDrv(attr, drv)` or
  `Text(line)`. Four anchored regular expressions are tried in order:
  `evaluating file '…'`, `copied source '…' -> '…'`,
  `trace: lorri read: '…'` and `trace: lorri attribute: '…' -> '/nix/store/…'`.
  Lines are byte strings (an `OsStr` on Unix). A line that is not
  well-formed UTF-8 passes through as `Text`. Each regular expression is
  stated as a shape predicate on bytes, and its greedy `(.*)` captures are
  chosen the way a leftmost-first engine chooses them.
- **The fold in `instrumented_build`**. It splits the classified lines into
  the watched `paths`, the `named_drvs` map (the last attribute line wins)
  and the `log_lines`. It is modelled as a loop over three accumulators.
- **`BuildLoop::once`**. One build step runs the build. It then registers
  a GC root `attr-<name>` for every named attribute and `build-<i>` for
  every produced derivation, and extends the watch list with the reduced
  paths. Finally it reports success, a recoverable failure carrying the
  build's log lines, or an unrecoverable error.
- **The error classes and `From` conversions**. These are `BuildError`
  and `UnrecoverableErrors`.
- **The event trace of `BuildLoop::forever`**. Each iteration sends
  `Started` and then one outcome event. An unrecoverable error panics
  instead of sending an outcome.
- **`print_build_event`** in `lorri shell`. Each event kind prints a fixed
  message. A failure shows the last five log lines, at most.

`builder::run` is an abstract input of each build step, and so are
`reduce_paths`, `Roots::add` and the failure of `Watch::extend`. These are
all fields of `BuildLoop.Env`. The file watcher's waiting becomes a finite
sequence of build steps. The modules follow the source files:

- `ByteStrings` holds bytes and UTF-8.
- `Builder` is `src/builder.rs`.
- `BuilderTests` holds that file's unit tests.
- `BuildLoop` is `src/build_loop.rs`.
- `Shell` is `src/ops/shell.rs`.

## Model

| member | source | states |
|---|---|---|
| Builder.MatchSingle | src/builder.rs:102-103 | A single-capture pattern `^<prefix>(.*)'$` matches with capture x exactly when the line is the prefix, then an LF-free x, then a closing quote. |
| Builder.LastSplit | src/builder.rs:104-105 | Finds the last `' -> '` position at or before k whose remainder starts with the required tail. Every later position is not a split. |
| Builder.MatchPair | src/builder.rs:104-105 | A two-capture pattern matches only when the line has its shape. The first group returned is the longest any match allows, as the greedy `(.*)` takes it. No match means no way to read the line in that shape exists. |
| Builder.PairFromSplit | src/builder.rs:104-105 | Cutting the body of a line at a `' -> '` split gives a match of the pair pattern. |
| Builder.PairShapeSplits | src/builder.rs:104-105 | Every match of a pair pattern cuts the body where its first group ends, and the body is LF-free. |
| Builder.SingleCaptureValid | src/builder.rs:113-125 | The capture of a single-capture pattern on a UTF-8 line is itself UTF-8, so it is a `str` slice. |
| Builder.PairCapturesValid | src/builder.rs:122-130 | Both captures of a two-capture pattern on a UTF-8 line are UTF-8. |
| Builder.ParseEvaluationLine | src/builder.rs:100-136 | Total. A non-UTF-8 line is `Text(line)`. `Text` always carries the line unchanged. A `Source` path is UTF-8 and LF-free. An `AttrDrv` has a UTF-8, LF-free attribute and a derivation under `/nix/store/`. |
| Builder.ShapesStart | src/builder.rs:102-110 | A line matching each pattern starts with that pattern's literal prefix. |
| Builder.PrefixesExclusive | src/builder.rs:102-110 | No line starts with the literal prefixes of two different patterns. |
| Builder.PatternsExclusive | src/builder.rs:118-130 | No line matches two of the four patterns, so the order they are tried in never changes the result. |
| Builder.OnlySplitBeforeQuoteFree | src/builder.rs:104-105 | When the second group has no quote, no `' -> '` split lies after the end of the first group. |
| Builder.PairShapeUnique | src/builder.rs:104-109 | Two matches of a pair pattern whose first groups have the same length are the same match. |
| Builder.MatchPairLongest | src/builder.rs:104-109 | The match with the longest first group is the one the pattern returns. |
| Builder.MatchPairQuoteFree | src/builder.rs:104-109 | When the second group has no quote, the pattern returns the match with exactly the given groups. |
| Builder.WrappedValid | src/builder.rs:113-116 | UTF-8 text wrapped in ASCII literals is UTF-8, so a constructed line reaches the patterns. |
| Builder.PairLineValid | src/builder.rs:113-116 | A two-capture line built from UTF-8 groups is UTF-8. |
| Builder.NoMatchWithoutPrefix | src/builder.rs:102-110 | A line without a pattern's literal prefix matches neither form of that pattern. |
| Builder.ParseByPrefix | src/builder.rs:118-133 | On a UTF-8 line, the line's prefix alone decides which pattern's result it gets: the pattern's capture, or `Text` when that pattern fails. |
| Builder.EvaluatingFileLine | src/builder.rs:120-121 | `evaluating file 'X'` is `Source(X)` for every UTF-8, LF-free X, quotes inside X included. |
| Builder.CopiedSourceLongest | src/builder.rs:122-123 | `copied source 'X' -> 'Y'` is `Source(X)` for the longest first group X the line admits. The destination is dropped. |
| Builder.CopiedSourceLine | src/builder.rs:122-123 | `copied source 'X' -> 'Y'` is `Source(X)` whenever Y has no quote. |
| Builder.LorriReadLine | src/builder.rs:124-125 | `trace: lorri read: 'X'` is `Source(X)` for every UTF-8, LF-free X. |
| Builder.LorriAttributeLine | src/builder.rs:126-130 | `trace: lorri attribute: 'A' -> 'D'` is `AttrDrv(A, D)` when D is a quote-free store path. |
| Builder.QuoteFreeSplit | src/builder.rs:108-109 | With quote-free groups, the only split of the body is between the two groups. |
| Builder.LorriAttributeOutsideStore | src/builder.rs:108-109 | An attribute line `trace: lorri attribute: 'A' -> 'D'` with quote-free, LF-free A and D, whose D does not start with `/nix/store/`, is `Text(line)`. With a quote in A the pattern may split at an earlier arrow instead. |
| Builder.TextExactlyWhenUnmatched | src/builder.rs:113-133 | A line is `Text(line)` if and only if it is not UTF-8 or matches none of the four patterns. |
| Builder.Partition | src/builder.rs:57-73 | The fold's three accumulators are the `Source` paths in order, the `AttrDrv` pairs inserted one by one into a map, and the `Text` lines in order. |
| Builder.PartitionSizes | src/builder.rs:57-73 | Every datum lands in exactly one accumulator: paths plus log lines plus attribute data add up to the input length. |
| Builder.FoldConcat | src/builder.rs:57-73 | Folding a concatenation concatenates the folds, so `paths` and `log_lines` keep input order. |
| Builder.SourcePosition | src/builder.rs:62-63 | The path of the i-th datum sits in `paths` right after the paths of the data before it. |
| Builder.TextPosition | src/builder.rs:68 | The line of the i-th datum sits in `log_lines` right after the lines before it. |
| Builder.NamedDrvsKeys | src/builder.rs:65-66 | An attribute is a key of `named_drvs` exactly when some `AttrDrv` names it. |
| Builder.NamedDrvsLastWins | src/builder.rs:65-66 | The last `AttrDrv` for an attribute overwrites the earlier ones, so its derivation is the one kept. |
| Builder.LastAttr | src/builder.rs:65-66 | Finds the index of an attribute's last `AttrDrv`: it names the attribute, and no later one does. |
| Builder.InstrumentedBuild | src/builder.rs:50-80 | A failed nix-build run passes its error on. Otherwise the result is the exit status, the stdout derivations and the fold of the classified stderr lines. |
| Builder.BuildAccountsForEveryLine | src/builder.rs:52-80 | Every stderr line is accounted for. A non-UTF-8 line is a log line, in its place among the other log lines. Each named derivation comes from an attribute line, and every attribute line's name is a key. |
| BuilderTests.EvaluatingFileTest | src/builder.rs:191-194 | The unit test's `evaluating file` line gives its store path. |
| BuilderTests.CopiedSourceTest | src/builder.rs:196-199 | The unit test's `copied source` line gives its source path. |
| BuilderTests.LorriReadTest | src/builder.rs:201-208 | The unit test's `lorri read` line gives its file. |
| BuilderTests.LorriAttributeTest | src/builder.rs:210-213 | The unit test's `lorri attribute` line gives `AttrDrv("shell", <drv>)`. |
| BuilderTests.DownloadingTest | src/builder.rs:215-222 | The unit test's `downloading` line stays `Text` unchanged. |
| BuilderTests.EvaluatingFileGreedy | src/builder.rs:102-103 | `evaluating file 'a'b'` gives the source `a'b`. |
| BuilderTests.CopiedSourceGreedy | src/builder.rs:104-105 | `copied source 'a' -> 'b' -> 'c'` gives the source `a' -> 'b`. |
| BuildLoop.ConversionsClassify | src/build_loop.rs:167-181 | Each `From` conversion gives an `Unrecoverable` error that keeps its cause, and the three conversions never coincide. |
| BuildLoop.Decimal | src/build_loop.rs:123 | `format!("{}", i)` writes a nonempty string of digits with no leading zero. |
| BuildLoop.DecimalRoundTrip | src/build_loop.rs:123 | Reading back the digits of i gives i. |
| BuildLoop.ParseDecimalRoundTrip | src/build_loop.rs:123 | Every canonical digit string is the decimal form of its value. |
| BuildLoop.DecimalInjective | src/build_loop.rs:123 | Distinct indices give distinct digit strings. |
| BuildLoop.RootNamesDistinct | src/build_loop.rs:117-123 | `attr-<name>` and `build-<i>` roots never share a name, and within each kind the name determines the attribute or index. |
| BuildLoop.FirstRootFailure | src/build_loop.rs:120-124 | Finds the first derivation whose root cannot be added: all roots before it were added and its own fails. |
| BuildLoop.RegisterAttrRoots | src/build_loop.rs:114-118 | Visits the attributes in some order and succeeds exactly when every `attr-<name>` root is added. On success it returns the root of every attribute. On failure it returns the error of an attribute it had not yet added. It returns the attributes added, without repeats. |
| BuildLoop.RegisterBuildRoots | src/build_loop.rs:120-124 | Goes in index order and succeeds exactly when every `build-<i>` root is added, returning the map from each index to its root. On failure it stops at the first failing index and returns its error. |
| BuildLoop.FirstFailureIsHere | src/build_loop.rs:120-124 | A failing root after a run of added ones is the first failure. |
| BuildLoop.SuccessCoversEveryDrv | src/build_loop.rs:114-135 | A successful step came from a successful exit. Its `named_drvs` has exactly the build's attributes, each with the root added under `attr-<name>`. Its `drvs` has exactly the indices below the number of produced derivations, each with the root added under `build-<i>`. |
| BuildLoop.ReportsClassified | src/build_loop.rs:98-136 | Every result `once` reports was decided by the matching stage. A success or a recoverable failure means every root was added. A recoverable failure carries exactly the build's log lines. An unrecoverable error means the step added nothing to the watch list. |
| BuildLoop.OutcomeEvent | src/build_loop.rs:76-84 | A reported outcome is never `Started`. An `Ok` result is sent as `Completed` carrying exactly those results, and a recoverable error as `Failure` carrying exactly its `BuildExitFailure`. |
| BuildLoop.TraceAlternates | src/build_loop.rs:68-88 | The events of n iterations are 2n long, with `Started` at each even position and the k-th outcome's event right after it. |
| BuildLoop.TraceSnoc | src/build_loop.rs:73-84 | One more iteration appends `Started` and its outcome event. |
| BuildLoop.BuildLoop.constructor | src/build_loop.rs:56-61 | A new build loop watches nothing. |
| BuildLoop.BuildLoop.Once | src/build_loop.rs:98-136 | The result is the one described below this table. A builder error registers no roots and leaves the watch unchanged. Every attribute root listed as registered was added. When an attribute root fails, the step ends with `Unrecoverable(AddRoot)` carrying the error of an attribute that was not registered, and only the attribute roots added before it are listed. Otherwise the attribute roots are followed by the derivation roots in index order, up to the first failure. Once every root is added and extend does not fail, the reduced paths are added to the watch, whatever the exit status. Otherwise the watch is unchanged. |
| BuildLoop.BuildLoop.Step | src/build_loop.rs:76 | One iteration's `once`: the result is the one `once` reports and the watch changes as `once` changes it. In particular the result is classified by the stage that decided it, and the watch list never shrinks. |
| BuildLoop.BuildLoop.Forever | src/build_loop.rs:67-91 | The events are `Started` then one outcome per completed iteration. An unrecoverable error panics after its `Started` without an outcome event. A watcher that exits after a completed iteration panics. Every outcome is classified by its step. The final watch is the old watch plus the reduced paths of each iteration that ran, where an iteration adds its paths once every root is added and extend succeeds (`StepPaths`). A panicking iteration adds nothing, since every unrecoverable stage comes at or before `extend`. |
| Shell.SaturatingSub | src/ops/shell.rs:97 | `saturating_sub` is the difference when it does not underflow, and 0 otherwise. |
| Shell.ShownLines | src/ops/shell.rs:94-97 | A failure shows `min(5, n)` lines: the last ones, in order, and all of them when n ≤ 5. |
| Shell.LineEnd | src/ops/shell.rs:97 | The first line feed of a string, or its end; no line feed comes before it. |
| Shell.Split | src/ops/shell.rs:97 | Splitting at line feeds gives at least one piece, and no piece holds a line feed. |
| Shell.SplitJoin | src/ops/shell.rs:97 | `join("\n")` loses nothing: splitting the joined LF-free lines gives them back. |
| Shell.LineEndOfLine | src/ops/shell.rs:97 | A line followed by a line feed, or by nothing, ends at its own end. |
| Shell.PrintBuildEvent | src/ops/shell.rs:88-100 | Every event prints a message ending in a line feed, as `eprintln!` does. |
| Shell.FailureShowsTail | src/ops/shell.rs:95-97 | A failure prints the `Evaluation failed: ` header and a line feed. After that header, exactly the last `min(5, n)` log lines can be read back, in order. |
| Shell.CompletedIgnoresPayload | src/ops/shell.rs:90-92 | Every `Completed` event prints the same reload message, whatever its results. |
| Shell.MessagesDistinguishKinds | src/ops/shell.rs:90-98 | `Started`, `Completed` and `Failure` never print the same bytes. |

The result `once` reports is the `Reports` predicate. It is stated in
stage order:

1. A builder error becomes `Unrecoverable(Build(e))`.
2. A missing attribute root becomes `Unrecoverable(AddRoot)`, carrying
   the error of a failing attribute.
3. Then the first failing derivation root becomes `Unrecoverable(AddRoot)`.
4. Then a watch failure becomes `Unrecoverable(Notify)`.
5. Then a successful exit gives the roots, and a failing exit gives
   `Recoverable` with the build's log lines.

## Left out

- Spawning `nix-build`, its arguments and waiting for its output, and
  splitting stdout and stderr into lines (`::nix::parse_nix_output`). These
  are process I/O and code this model does not include. `InstrumentedBuild`
  receives the outcome and the lines as its input.
- `cas.file_from_string` is not part of this model. Its failure is one
  of the `Io` errors of `Builder.Error`.
- The payloads of `builder::Error`, `roots::AddRootError` and
  `notify::Error` are opaque. `ThreadFailure`'s boxed value is a bare tag.
- `ExitStatus` is a boolean `success`.
- `reduce_paths`, `Roots::add`, `Roots::from_project` and `Watch` are
  filesystem and inotify code that this model does not include. They are
  abstract fields of `Env`. A root's effect on the file system is recorded
  only as the `registered` list of `Once`.
- `Watch::extend` is treated as all-or-nothing: when it fails, the watch
  list is unchanged.
- The `project` field of `BuildLoop` and `Roots::from_project` are left
  out. Neither influences the logic modelled here.
- `BuildLoop.BuildLoop.Once`: `builder::run` is an abstract input
  (`Env.build`), not a call of `InstrumentedBuild`. The build's `Info`
  therefore ranges over every value, not only those `InstrumentedBuild`
  can produce.
- `BuildLoop.BuildLoop.Forever`: the loop is bounded by a finite sequence of
  build steps. Blocking in `wait_for_change` is replaced by moving to the
  next step, and the watcher's exit is a single flag checked after the last
  step.
- `BuildLoop.BuildLoop.Forever`: the contract states `Classified` for each
  outcome, which is weaker than the full `Reports` relation that `Once`
  guarantees. It records the deciding stage and the log lines of a
  recoverable failure, but not the roots of a success.
- Failed channel sends (the `expect`s on `tx.send`) are not modelled. The
  receiver is assumed alive, and the channel is the `events` sequence.
- `BuildLoop.RegisterAttrRoots`: `HashMap` iteration order is
  unspecified. The model chooses the next attribute nondeterministically,
  so which failing attribute's error is reported is left open, as in the
  source.
- `Shell.FailureShowsTail` assumes that no log line contains a line feed,
  as holds for lines split at line feeds. It also assumes there is at
  least one log line. With no log lines the output is the header followed
  by a single line feed.
- `Shell.PrintBuildEvent`: writing to stderr is left out. The function
  returns the bytes `eprintln!` would write.
- `ops/shell.rs` `main` and all of `ops/watch.rs` are thread, process
  and channel plumbing that this model does not include.
- The log lines of `Info` are `OsString` (arbitrary bytes). Those of
  `BuildExitFailure` are `String` in the source, which does not
  type-check against `Info` as written. Both are byte strings here, and
  the lines are passed through unchanged.
- Regular expressions are stated on bytes. This matches the `str`
  semantics of the source because every pattern literal is ASCII, and
  because `.` matches any character but the line feed.
