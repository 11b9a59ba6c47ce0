/** One build step of the build loop (src/build_loop.rs): run the
    instrumented build, register a GC root for every derivation it produced,
    add the files the evaluation read to the watch list, and report the
    outcome; and the trace of events the endless loop emits. */
module BuildLoop {
  import opened ByteStrings
  import opened Builder

  /*
   * Results and errors.
   */

  /** A registered GC root. */
  type RootPath = Path

  /** Why `Roots::add` failed; opaque here. */
  datatype AddRootError = AddRootError(reason: Bytes)

  /** Why the file watcher could not watch more files; opaque here. */
  datatype NotifyError = NotifyError(reason: Bytes)

  /** The results of a successful build: a root per produced derivation,
      by its index, and a root per named attribute. */
  datatype BuildResults = BuildResults(drvs: map<nat, RootPath>, namedDrvs: map<Bytes, RootPath>)

  /** The results of a failing build: its stderr log lines. */
  datatype BuildExitFailure = BuildExitFailure(logLines: seq<Bytes>)

  /** What the loop reports over its channel. */
  datatype Event = Started | Completed(results: BuildResults) | Failure(failure: BuildExitFailure)

  /** Failures of the plumbing rather than of the Nix expression. */
  datatype UnrecoverableErrors = Build(error: Error) | AddRoot(rootError: AddRootError) | Notify(notifyError: NotifyError)

  /** Recoverable errors come from the Nix expression itself; callers retry
      them. Anything else is unrecoverable. */
  datatype BuildError = Recoverable(failure: BuildExitFailure) | Unrecoverable(cause: UnrecoverableErrors)

  /** The three `From` conversions used by `?` in `once`. */
  function FromBuilderError(e: Error): BuildError {
    Unrecoverable(Build(e))
  }

  function FromAddRootError(e: AddRootError): BuildError {
    Unrecoverable(AddRoot(e))
  }

  function FromNotifyError(e: NotifyError): BuildError {
    Unrecoverable(Notify(e))
  }

  /** Every conversion yields an unrecoverable error, keeps its cause, and
      the three never yield the same error. */
  lemma ConversionsClassify(b: Error, a: AddRootError, n: NotifyError)
    ensures FromBuilderError(b).Unrecoverable? && FromBuilderError(b).cause.Build? && FromBuilderError(b).cause.error == b
    ensures FromAddRootError(a).Unrecoverable? && FromAddRootError(a).cause.AddRoot? && FromAddRootError(a).cause.rootError == a
    ensures FromNotifyError(n).Unrecoverable? && FromNotifyError(n).cause.Notify? && FromNotifyError(n).cause.notifyError == n
    ensures FromBuilderError(b) != FromAddRootError(a) && FromAddRootError(a) != FromNotifyError(n)
    ensures FromNotifyError(n) != FromBuilderError(b)
  {
  }

  /*
   * Root names.
   */

  const Zero: byte := 0x30

  predicate IsDigit(b: byte) {
    Zero <= b <= 0x39
  }

  predicate IsDecimal(s: Bytes) {
    |s| > 0 && (forall i | 0 <= i < |s| :: IsDigit(s[i])) && (s[0] == Zero ==> |s| == 1)
  }

  /** `n` in base ten, as `format!("{}", n)` writes a `usize`. */
  function Decimal(n: nat): (r: Bytes)
    ensures IsDecimal(r)
    ensures r[0] == Zero ==> n == 0
  {
    if n < 10 then [(Zero as int + n) as byte]
    else Decimal(n / 10) + [(Zero as int + n % 10) as byte]
  }

  /** The value of a string of decimal digits. */
  function ParseDecimal(s: Bytes): nat
    requires forall i | 0 <= i < |s| :: IsDigit(s[i])
  {
    if s == [] then 0
    else
      var last := s[|s| - 1];
      assert IsDigit(last);
      ParseDecimal(s[..|s| - 1]) * 10 + (last as int - Zero as int)
  }

  /** Reading back the digits of `n` gives `n`. */
  lemma {:induction false} DecimalRoundTrip(n: nat)
    ensures ParseDecimal(Decimal(n)) == n
  {
    var r := Decimal(n);
    if n >= 10 {
      assert r[..|r| - 1] == Decimal(n / 10);
      DecimalRoundTrip(n / 10);
    }
  }

  /** Writing the value of a canonical digit string gives the string back. */
  lemma {:induction false} ParseDecimalRoundTrip(s: Bytes)
    requires IsDecimal(s)
    ensures Decimal(ParseDecimal(s)) == s
  {
    var n := ParseDecimal(s);
    var last := s[|s| - 1];
    if |s| == 1 {
      assert s[..0] == [];
    } else {
      var init := s[..|s| - 1];
      assert init[0] == s[0] != Zero;
      ParseDecimalRoundTrip(init);
      var m := ParseDecimal(init);
      assert m > 0 by {
        assert Decimal(m)[0] != Zero;
      }
      assert n / 10 == m && n % 10 == last as int - Zero as int;
      assert s == init + [last];
    }
  }

  /** Distinct indices give distinct digit strings. */
  lemma DecimalInjective(i: nat, j: nat)
    requires Decimal(i) == Decimal(j)
    ensures i == j
  {
    DecimalRoundTrip(i);
    DecimalRoundTrip(j);
  }

  const AttrRootPrefix: Bytes := Ascii("attr-")
  const BuildRootPrefix: Bytes := Ascii("build-")

  /** The GC root name of a named attribute, `attr-<name>`. */
  function AttrRootName(name: Bytes): Bytes {
    AttrRootPrefix + name
  }

  /** The GC root name of the i-th produced derivation, `build-<i>`. */
  function BuildRootName(i: nat): Bytes {
    BuildRootPrefix + Decimal(i)
  }

  /** The roots of one build never share a name: attribute roots and build
      roots differ in their first byte, and within each kind the name
      determines the attribute or the index. */
  lemma RootNamesDistinct(a: Bytes, b: Bytes, i: nat, j: nat)
    ensures AttrRootName(a) != BuildRootName(i)
    ensures AttrRootName(a) == AttrRootName(b) ==> a == b
    ensures BuildRootName(i) == BuildRootName(j) ==> i == j
  {
    assert AttrRootName(a)[0] != BuildRootName(i)[0];
    if AttrRootName(a) == AttrRootName(b) {
      assert a == AttrRootName(a)[|AttrRootPrefix|..];
    }
    if BuildRootName(i) == BuildRootName(j) {
      assert Decimal(i) == BuildRootName(i)[|BuildRootPrefix|..];
      DecimalInjective(i, j);
    }
  }

  /*
   * Registering the roots of one build.
   */

  /** `Roots::add(name, drv)`: registers a GC root or fails. */
  type AddRootFn = (Bytes, Path) -> Result<RootPath, AddRootError>

  predicate AttrRootsAdded(nd: map<Bytes, Path>, add: AddRootFn) {
    forall k | k in nd :: add(AttrRootName(k), nd[k]).Ok?
  }

  predicate BuildRootsAdded(drvs: seq<Path>, add: AddRootFn, n: nat)
    requires n <= |drvs|
  {
    forall i | 0 <= i < n :: add(BuildRootName(i), drvs[i]).Ok?
  }

  /** The roots of the named attributes, by attribute. */
  function AttrRoots(nd: map<Bytes, Path>, add: AddRootFn): map<Bytes, RootPath>
    requires AttrRootsAdded(nd, add)
  {
    map k | k in nd :: add(AttrRootName(k), nd[k]).value
  }

  /** The roots of the produced derivations, by index. */
  function BuildRoots(drvs: seq<Path>, add: AddRootFn): map<nat, RootPath>
    requires BuildRootsAdded(drvs, add, |drvs|)
  {
    map i: nat | i < |drvs| :: add(BuildRootName(i), drvs[i]).value
  }

  /** The registrations made for the given attributes, in order. */
  function AttrRegistrations(order: seq<Bytes>, nd: map<Bytes, Path>): (regs: seq<(Bytes, Path)>)
    requires forall i | 0 <= i < |order| :: order[i] in nd
  {
    seq(|order|, i requires 0 <= i < |order| => (AttrRootName(order[i]), nd[order[i]]))
  }

  /** The registrations made for the first n produced derivations. */
  function BuildRegistrations(drvs: seq<Path>, n: nat): (regs: seq<(Bytes, Path)>)
    requires n <= |drvs|
  {
    seq(n, i requires 0 <= i < n => (BuildRootName(i), drvs[i]))
  }

  /** The first produced derivation whose root cannot be added. */
  function FirstRootFailure(drvs: seq<Path>, add: AddRootFn, from: nat): (i: nat)
    requires from <= |drvs| && BuildRootsAdded(drvs, add, from)
    requires !BuildRootsAdded(drvs, add, |drvs|)
    ensures from <= i < |drvs|
    ensures BuildRootsAdded(drvs, add, i) && add(BuildRootName(i), drvs[i]).Err?
    decreases |drvs| - from
  {
    if add(BuildRootName(from), drvs[from]).Err? then from
    else FirstRootFailure(drvs, add, from + 1)
  }

  /** The loop over `named_drvs` (src/build_loop.rs:114-118), in the
      unspecified order of a `HashMap`: stops at the first root that cannot
      be added. Returns the roots by attribute, or the error, and the
      attributes whose roots were added, in the order they were added. */
  method RegisterAttrRoots(nd: map<Bytes, Path>, add: AddRootFn)
    returns (r: Result<map<Bytes, RootPath>, AddRootError>, order: seq<Bytes>)
    ensures r.Ok? <==> AttrRootsAdded(nd, add)
    ensures r.Ok? ==> r.value == AttrRoots(nd, add) && (forall k | k in nd :: k in order)
    ensures r.Err? ==> exists k | k in nd :: k !in order && add(AttrRootName(k), nd[k]) == Err(r.error)
    ensures forall i | 0 <= i < |order| :: order[i] in nd && add(AttrRootName(order[i]), nd[order[i]]).Ok?
    ensures forall i, j | 0 <= i < j < |order| :: order[i] != order[j]
  {
    var roots: map<Bytes, RootPath> := map[];
    var remaining := nd.Keys;
    order := [];
    while remaining != {}
      invariant remaining <= nd.Keys
      invariant forall k | k in nd :: (k in order <==> k !in remaining)
      invariant roots.Keys == nd.Keys - remaining
      invariant forall k | k in roots :: add(AttrRootName(k), nd[k]) == Ok(roots[k])
      invariant forall i | 0 <= i < |order| :: order[i] in nd
      invariant forall i, j | 0 <= i < j < |order| :: order[i] != order[j]
      decreases remaining
    {
      var name :| name in remaining;
      var added := add(AttrRootName(name), nd[name]);
      if added.Err? {
        r := Err(added.error);
        return;
      }
      roots := roots[name := added.value];
      order := order + [name];
      remaining := remaining - {name};
    }
    r := Ok(roots);
  }

  /** The loop over `drvs` (src/build_loop.rs:120-124), in index order:
      stops at the first root that cannot be added. Returns the roots by
      index, or the error, and how many roots were added. */
  method RegisterBuildRoots(drvs: seq<Path>, add: AddRootFn)
    returns (r: Result<map<nat, RootPath>, AddRootError>, count: nat)
    ensures count <= |drvs| && BuildRootsAdded(drvs, add, count)
    ensures r.Ok? <==> BuildRootsAdded(drvs, add, |drvs|)
    ensures r.Ok? ==> count == |drvs| && r.value == BuildRoots(drvs, add)
    ensures r.Err? ==>
              count == FirstRootFailure(drvs, add, 0) && add(BuildRootName(count), drvs[count]) == Err(r.error)
  {
    var roots: map<nat, RootPath> := map[];
    count := 0;
    while count < |drvs|
      invariant count <= |drvs| && BuildRootsAdded(drvs, add, count)
      invariant roots == map i: nat | i < count :: add(BuildRootName(i), drvs[i]).value
    {
      var added := add(BuildRootName(count), drvs[count]);
      if added.Err? {
        FirstFailureIsHere(drvs, add, count);
        r := Err(added.error);
        return;
      }
      roots := roots[count := added.value];
      count := count + 1;
    }
    r := Ok(roots);
  }

  /** A failing root after a run of added ones is the first failure. */
  lemma FirstFailureIsHere(drvs: seq<Path>, add: AddRootFn, n: nat)
    requires n < |drvs| && BuildRootsAdded(drvs, add, n)
    requires add(BuildRootName(n), drvs[n]).Err?
    ensures !BuildRootsAdded(drvs, add, |drvs|)
    ensures FirstRootFailure(drvs, add, 0) == n
  {
    var f := FirstRootFailure(drvs, add, 0);
    assert !(f < n) && !(n < f);
  }

  /*
   * One step of the loop.
   */

  /** Everything outside the loop's own logic that one build step consults:
      what `builder::run` returned, `reduce_paths`, `Roots::add`, and
      whether `Watch::extend` fails. */
  datatype Env = Env(
    build: Result<Info, Error>,
    reducePaths: seq<Path> -> seq<Path>,
    addRoot: AddRootFn,
    extendError: Option<NotifyError>)

  /** The result `once` reports for a build step, given what the plumbing
      does: a builder error is passed on as is; otherwise the first root
      that cannot be added aborts the step, the attribute roots before the
      derivation roots; then a watch failure aborts it; and only then does
      the exit status decide between the results and a recoverable error
      carrying the build's log lines. */
  predicate Reports(env: Env, r: Result<BuildResults, BuildError>) {
    match env.build
    case Err(e) => r == Err(FromBuilderError(e))
    case Ok(info) =>
      if !AttrRootsAdded(info.namedDrvs, env.addRoot) then
        r.Err? && r.error.Unrecoverable? && r.error.cause.AddRoot? &&
        exists k | k in info.namedDrvs ::
          env.addRoot(AttrRootName(k), info.namedDrvs[k]) == Err(r.error.cause.rootError)
      else if !BuildRootsAdded(info.drvs, env.addRoot, |info.drvs|) then
        var i := FirstRootFailure(info.drvs, env.addRoot, 0);
        r == Err(FromAddRootError(env.addRoot(BuildRootName(i), info.drvs[i]).error))
      else if env.extendError.Some? then
        r == Err(FromNotifyError(env.extendError.value))
      else if info.success then
        r == Ok(BuildResults(BuildRoots(info.drvs, env.addRoot), AttrRoots(info.namedDrvs, env.addRoot)))
      else
        r == Err(Recoverable(BuildExitFailure(info.logLines)))
  }

  /** The files a build step adds to the watch list: the reduced paths,
      once every root is registered and the watcher accepts them, whatever
      the exit status; nothing otherwise. */
  function StepPaths(env: Env): set<Path> {
    if env.build.Ok? && AttrRootsAdded(env.build.value.namedDrvs, env.addRoot)
       && BuildRootsAdded(env.build.value.drvs, env.addRoot, |env.build.value.drvs|)
       && env.extendError.None?
    then set p | p in env.reducePaths(env.build.value.paths)
    else {}
  }

  /** The watch list after a build step. */
  predicate Watches(env: Env, before: set<Path>, after: set<Path>) {
    after == before + StepPaths(env)
  }

  /** The files a run of build steps adds to the watch list. */
  function AddedPaths(envs: seq<Env>): set<Path> {
    if envs == [] then {}
    else AddedPaths(envs[..|envs| - 1]) + StepPaths(envs[|envs| - 1])
  }

  /** A successful step has a root for every named attribute, under its
      name, and one for every produced derivation, under its index, and
      nothing else. */
  lemma SuccessCoversEveryDrv(env: Env, r: Result<BuildResults, BuildError>)
    requires Reports(env, r) && r.Ok?
    ensures env.build.Ok? && env.build.value.success
    ensures var info := env.build.value;
            r.value.namedDrvs.Keys == info.namedDrvs.Keys &&
            (forall k | k in info.namedDrvs :: env.addRoot(AttrRootName(k), info.namedDrvs[k]) == Ok(r.value.namedDrvs[k]))
    ensures var info := env.build.value;
            (forall i: nat :: i in r.value.drvs <==> i < |info.drvs|) &&
            (forall i | 0 <= i < |info.drvs| :: env.addRoot(BuildRootName(i), info.drvs[i]) == Ok(r.value.drvs[i]))
  {
    var info := env.build.value;
    assert r.value.drvs == BuildRoots(info.drvs, env.addRoot);
  }

  /** What a result says about the step that produced it: which stage
      decided it and, for a recoverable error, which log lines it carries. */
  predicate Classified(env: Env, r: Result<BuildResults, BuildError>) {
    && (r.Ok? ==> env.build.Ok? && env.build.value.success && env.extendError.None?)
    && (r.Err? && r.error.Recoverable? ==>
          env.build.Ok? && !env.build.value.success && env.extendError.None? &&
          r.error.failure.logLines == env.build.value.logLines)
    && (r.Err? && r.error.Unrecoverable? && r.error.cause.Build? ==> env.build == Err(r.error.cause.error))
    && (r.Err? && r.error.Unrecoverable? && r.error.cause.AddRoot? ==> env.build.Ok?)
    && (r.Err? && r.error.Unrecoverable? && r.error.cause.Notify? ==>
          env.build.Ok? && env.extendError == Some(r.error.cause.notifyError))
  }

  /** Every reported result is classified by the stage that decided it; a
      success or a recoverable error means every root was added. */
  lemma ReportsClassified(env: Env, r: Result<BuildResults, BuildError>)
    requires Reports(env, r)
    ensures Classified(env, r)
    ensures r.Err? && r.error.Unrecoverable? ==> StepPaths(env) == {}
    ensures r.Ok? || r.error.Recoverable? ==>
              env.build.Ok? && AttrRootsAdded(env.build.value.namedDrvs, env.addRoot) &&
              BuildRootsAdded(env.build.value.drvs, env.addRoot, |env.build.value.drvs|)
  {
  }

  /** A result `forever` reports on its channel rather than panicking on. */
  type Outcome = r: Result<BuildResults, BuildError> | !(r.Err? && r.error.Unrecoverable?)
    witness Ok(BuildResults(map[], map[]))

  /** How a step's result is reported on the channel. */
  function OutcomeEvent(r: Outcome): (ev: Event)
    ensures ev != Started
    ensures ev.Completed? <==> r.Ok?
    ensures r.Ok? ==> ev == Completed(r.value)
    ensures r.Err? ==> ev == Failure(r.error.failure)
  {
    match r
    case Ok(results) => Completed(results)
    case Err(e) => Failure(e.failure)
  }

  /** The events of completed iterations: `Started`, then the outcome. */
  function Trace(outcomes: seq<Outcome>): seq<Event>
  {
    if outcomes == [] then []
    else Trace(outcomes[..|outcomes| - 1]) + [Started, OutcomeEvent(outcomes[|outcomes| - 1])]
  }

  /** A trace alternates: `Started` at even positions, the k-th outcome
      right after the k-th `Started`. */
  lemma {:induction false} TraceAlternates(outcomes: seq<Outcome>)
    ensures |Trace(outcomes)| == 2 * |outcomes|
    ensures forall k | 0 <= k < |outcomes| ::
              Trace(outcomes)[2 * k] == Started && Trace(outcomes)[2 * k + 1] == OutcomeEvent(outcomes[k])
  {
    if outcomes != [] {
      var init := outcomes[..|outcomes| - 1];
      TraceAlternates(init);
    }
  }

  /** Completing one more iteration appends its two events. */
  lemma TraceSnoc(outcomes: seq<Outcome>, r: Outcome)
    ensures Trace(outcomes + [r]) == Trace(outcomes) + [Started, OutcomeEvent(r)]
  {
    assert (outcomes + [r])[..|outcomes|] == outcomes;
  }

  /** Why `forever` stopped: it unwrapped an unrecoverable error, or the
      file watcher exited. */
  datatype Panic = Unwrapped(cause: UnrecoverableErrors) | WaiterExited

  /** The build loop's state: the files it watches. */
  class BuildLoop {
    var watch: set<Path>

    /** `BuildLoop::new`: nothing watched yet. */
    constructor ()
      ensures watch == {}
    {
      watch := {};
    }

    /** `BuildLoop::once`: one build step. Returns the reported result and
        the GC roots it registered, in order: the attribute roots, in
        `attrOrder`, then the derivation roots by index, up to the first
        that could not be added. */
    method Once(env: Env) returns (r: Result<BuildResults, BuildError>, registered: seq<(Bytes, Path)>, ghost attrOrder: seq<Bytes>)
      modifies this
      ensures Reports(env, r)
      ensures Watches(env, old(watch), watch) && old(watch) <= watch
      ensures env.build.Err? ==> registered == []
      ensures env.build.Ok? ==>
                var info := env.build.value;
                (forall i | 0 <= i < |attrOrder| :: attrOrder[i] in info.namedDrvs) &&
                (forall i, j | 0 <= i < j < |attrOrder| :: attrOrder[i] != attrOrder[j]) &&
                (forall i | 0 <= i < |attrOrder| ::
                   env.addRoot(AttrRootName(attrOrder[i]), info.namedDrvs[attrOrder[i]]).Ok?) &&
                if !AttrRootsAdded(info.namedDrvs, env.addRoot) then
                  registered == AttrRegistrations(attrOrder, info.namedDrvs) &&
                  r.Err? && r.error.Unrecoverable? && r.error.cause.AddRoot? &&
                  exists k | k in info.namedDrvs && k !in attrOrder ::
                    env.addRoot(AttrRootName(k), info.namedDrvs[k]) == Err(r.error.cause.rootError)
                else
                  (forall k | k in info.namedDrvs :: k in attrOrder) &&
                  registered == AttrRegistrations(attrOrder, info.namedDrvs) +
                    BuildRegistrations(info.drvs,
                      if BuildRootsAdded(info.drvs, env.addRoot, |info.drvs|) then |info.drvs|
                      else FirstRootFailure(info.drvs, env.addRoot, 0))
    {
      registered, attrOrder := [], [];
      var build := env.build;
      if build.Err? {
        r := Err(FromBuilderError(build.error));
        return;
      }
      var info := build.value;
      var paths := env.reducePaths(info.paths);

      var attrRoots, order := RegisterAttrRoots(info.namedDrvs, env.addRoot);
      attrOrder := order;
      registered := AttrRegistrations(order, info.namedDrvs);
      if attrRoots.Err? {
        r := Err(FromAddRootError(attrRoots.error));
        return;
      }
      var buildRoots, count := RegisterBuildRoots(info.drvs, env.addRoot);
      registered := registered + BuildRegistrations(info.drvs, count);
      if buildRoots.Err? {
        r := Err(FromAddRootError(buildRoots.error));
        return;
      }

      if env.extendError.Some? {
        r := Err(FromNotifyError(env.extendError.value));
        return;
      }
      watch := watch + set p | p in paths;

      if info.success {
        r := Ok(BuildResults(buildRoots.value, attrRoots.value));
      } else {
        r := Err(Recoverable(BuildExitFailure(info.logLines)));
      }
    }

    /** One iteration's call to `once`, seen from the loop. */
    method Step(env: Env) returns (r: Result<BuildResults, BuildError>)
      modifies this
      ensures Reports(env, r) && Watches(env, old(watch), watch)
      ensures Classified(env, r) && old(watch) <= watch
      ensures r.Err? && r.error.Unrecoverable? ==> StepPaths(env) == {}
    {
      var registered;
      ghost var attrOrder;
      r, registered, attrOrder := Once(env);
      ReportsClassified(env, r);
    }

    /** `BuildLoop::forever`, over the build steps `envs`: the first runs
        at once, each later one after the file watcher reported a change.
        Each iteration sends `Started`, runs `once` and sends the outcome;
        an unrecoverable error panics before any outcome is sent. After the
        last step the loop waits for a change again: if the file watcher
        has exited (`waiterExits`) it panics, otherwise it is still waiting.
        `outcomes` are the results of the completed iterations. */
    method Forever(envs: seq<Env>, waiterExits: bool)
      returns (events: seq<Event>, panic: Option<Panic>, ghost outcomes: seq<Outcome>)
      modifies this
      ensures old(watch) <= watch
      ensures |outcomes| <= |envs|
      ensures watch == old(watch) + AddedPaths(envs[..|outcomes|])
      ensures forall k | 0 <= k < |outcomes| :: Classified(envs[k], outcomes[k])
      ensures panic.None? ==> |outcomes| == |envs| && events == Trace(outcomes) && !(waiterExits && |envs| > 0)
      ensures panic == Some(WaiterExited) ==> |outcomes| == |envs| > 0 && events == Trace(outcomes) && waiterExits
      ensures panic.Some? && panic.value.Unwrapped? ==>
                |outcomes| < |envs| && events == Trace(outcomes) + [Started] &&
                Classified(envs[|outcomes|], Err(Unrecoverable(panic.value.cause)))
    {
      events, panic, outcomes := [], None, [];
      var n := 0;
      while n < |envs|
        invariant n <= |envs| && |outcomes| == n
        invariant old(watch) <= watch
        invariant watch == old(watch) + AddedPaths(envs[..n])
        invariant forall k | 0 <= k < n :: Classified(envs[k], outcomes[k])
        invariant events == Trace(outcomes)
      {
        events := events + [Started];
        var r := Step(envs[n]);
        assert envs[..n + 1][..n] == envs[..n];
        if r.Err? && r.error.Unrecoverable? {
          panic := Some(Unwrapped(r.error.cause));
          return;
        }
        TraceSnoc(outcomes, r);
        assert forall k | 0 <= k < n + 1 :: (outcomes + [r])[k] == if k < n then outcomes[k] else r;
        events := events + [OutcomeEvent(r)];
        outcomes := outcomes + [r];
        n := n + 1;
      }
      if waiterExits && |envs| > 0 {
        panic := Some(WaiterExited);
      }
    }
  }
}
