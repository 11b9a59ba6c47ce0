/** The instrumented `nix-build` wrapper (src/builder.rs): classifying the
    lines nix writes to stderr, and folding the classified lines into the
    build's `Info`. Spawning nix-build and splitting its output into lines
    are not part of this model: the lines arrive as a parameter. */
module Builder {
  import opened ByteStrings

  /** A `PathBuf` on Unix: an arbitrary byte string. */
  type Path = Bytes

  datatype Option<T> = None | Some(value: T)

  datatype Result<T, E> = Ok(value: T) | Err(error: E)

  /** One classified stderr line. */
  datatype LogDatum =
    | Source(path: Path)
    | AttrDrv(attr: Bytes, drv: Path)
    | Text(line: Bytes)

  // The literal parts of the four anchored patterns.
  const EvalFilePrefix: Bytes := Ascii("evaluating file '")
  const CopiedSourcePrefix: Bytes := Ascii("copied source '")
  const LorriReadPrefix: Bytes := Ascii("trace: lorri read: '")
  const LorriAttrPrefix: Bytes := Ascii("trace: lorri attribute: '")
  /** The `' -> '` between the two captures of a two-capture pattern. */
  const Arrow: Bytes := [Quote, 0x20, 0x2D, 0x3E, 0x20, Quote]
  /** The `/nix/store/` every attribute's derivation must start with. */
  const StorePrefix: Bytes := Ascii("/nix/store/")

  /*
   * What each pattern accepts. `(.*)` matches any run of characters but the
   * line feed; on well-formed UTF-8 that is any run of bytes but LF, and
   * because every literal of the patterns is ASCII the cuts fall on
   * character boundaries, so the patterns are stated on bytes.
   */

  /** `^<prefix>(.*)'$` accepts `line` with `capture` as its group. */
  predicate SingleShape(prefix: Bytes, line: Bytes, capture: Bytes) {
    line == prefix + capture + [Quote] && NoNewline(capture)
  }

  /** `^<prefix>(.*)' -> '(<tail>.*)'$` accepts `line` with groups `first`
      and `second`. */
  predicate PairShape(prefix: Bytes, tail: Bytes, line: Bytes, first: Bytes, second: Bytes) {
    && line == prefix + first + Arrow + second + [Quote]
    && NoNewline(first) && NoNewline(second)
    && IsPrefix(tail, second)
  }

  /** `^evaluating file '(?P<source>.*)'$` */
  predicate EvalFileShape(line: Bytes, source: Bytes) {
    SingleShape(EvalFilePrefix, line, source)
  }

  /** `^copied source '(?P<source>.*)' -> '(?:.*)'$` */
  predicate CopiedSourceShape(line: Bytes, source: Bytes, dest: Bytes) {
    PairShape(CopiedSourcePrefix, [], line, source, dest)
  }

  /** `^trace: lorri read: '(?P<source>.*)'$` */
  predicate LorriReadShape(line: Bytes, source: Bytes) {
    SingleShape(LorriReadPrefix, line, source)
  }

  /** `^trace: lorri attribute: '(?P<attribute>.*)' -> '(?P<drv>/nix/store/.*)'$` */
  predicate LorriAttrShape(line: Bytes, attr: Bytes, drv: Bytes) {
    PairShape(LorriAttrPrefix, StorePrefix, line, attr, drv)
  }

  /** The text between `prefix` and a closing quote that ends the line. */
  function Enclosed(prefix: Bytes, line: Bytes): (r: Option<Bytes>)
    ensures r.Some? <==> |line| > |prefix| && IsPrefix(prefix, line) && line[|line| - 1] == Quote
    ensures r.Some? ==> line == prefix + r.value + [Quote]
  {
    if |line| > |prefix| && IsPrefix(prefix, line) && line[|line| - 1] == Quote then
      var body := line[|prefix|..|line| - 1];
      assert line == line[..|prefix|] + body + [line[|line| - 1]];
      Some(body)
    else
      None
  }

  /** Matching `^<prefix>(.*)'$`: the capture, if the line has that form. */
  function MatchSingle(prefix: Bytes, line: Bytes): (r: Option<Bytes>)
    ensures forall x {:trigger SingleShape(prefix, line, x)} :: SingleShape(prefix, line, x) <==> r == Some(x)
  {
    match Enclosed(prefix, line)
    case None => None
    case Some(body) =>
      if NoNewline(body) then Some(body) else None
  }

  /** `body` has `' -> '` at `j`, followed by something starting with `tail`. */
  predicate SplitsAt(body: Bytes, tail: Bytes, j: int) {
    && 0 <= j && j + |Arrow| <= |body|
    && body[j..j + |Arrow|] == Arrow
    && IsPrefix(tail, body[j + |Arrow|..])
  }

  /** The last position at or before `k` where `body` splits. */
  function LastSplit(body: Bytes, tail: Bytes, k: int): (r: Option<nat>)
    ensures r.Some? ==> r.value <= k && SplitsAt(body, tail, r.value)
    ensures forall j | (r.None? || r.value < j) && j <= k :: !SplitsAt(body, tail, j)
    decreases k + 1
  {
    if k < 0 then None
    else if SplitsAt(body, tail, k) then Some(k)
    else LastSplit(body, tail, k - 1)
  }

  /** Matching `^<prefix>(.*)' -> '(<tail>.*)'$` as the regex engine does:
      leftmost-first, so the greedy first group takes the longest capture
      that still lets the rest of the line match. */
  function MatchPair(prefix: Bytes, tail: Bytes, line: Bytes): (r: Option<(Bytes, Bytes)>)
    ensures r.Some? ==> PairShape(prefix, tail, line, r.value.0, r.value.1)
    ensures r.Some? ==> forall x, y {:trigger PairShape(prefix, tail, line, x, y)} ::
                          PairShape(prefix, tail, line, x, y) ==> |x| <= |r.value.0|
    ensures r.None? ==> forall x, y {:trigger PairShape(prefix, tail, line, x, y)} ::
                          !PairShape(prefix, tail, line, x, y)
  {
    match Enclosed(prefix, line)
    case None => None
    case Some(body) =>
      assert forall x, y {:trigger PairShape(prefix, tail, line, x, y)} ::
          PairShape(prefix, tail, line, x, y) ==> NoNewline(body) && SplitsAt(body, tail, |x|) by {
        forall x, y | PairShape(prefix, tail, line, x, y)
          ensures NoNewline(body) && SplitsAt(body, tail, |x|)
        {
          PairShapeSplits(prefix, tail, line, body, x, y);
        }
      }
      if !NoNewline(body) then
        None
      else
        match LastSplit(body, tail, |body| - |Arrow|)
        case None => None
        case Some(j) =>
          PairFromSplit(prefix, tail, line, body, j);
          Some((body[..j], body[j + |Arrow|..]))
  }

  /** A split of a line's body gives the line pair shape. */
  lemma PairFromSplit(prefix: Bytes, tail: Bytes, line: Bytes, body: Bytes, j: nat)
    requires line == prefix + body + [Quote]
    requires NoNewline(body) && SplitsAt(body, tail, j)
    ensures PairShape(prefix, tail, line, body[..j], body[j + |Arrow|..])
  {
    var k := j + |Arrow|;
    var x, y := body[..j], body[k..];
    assert body == x + body[j..k] + y;
    assert line == prefix + x + Arrow + y + [Quote];
    NoNewlineSlice(body, 0, j);
    NoNewlineSlice(body, k, |body|);
    assert body[0..j] == x && body[k..|body|] == y;
  }

  /** A line of pair shape has its body split where its first group ends. */
  lemma PairShapeSplits(prefix: Bytes, tail: Bytes, line: Bytes, body: Bytes, x: Bytes, y: Bytes)
    requires line == prefix + body + [Quote]
    requires PairShape(prefix, tail, line, x, y)
    ensures body == x + Arrow + y
    ensures NoNewline(body) && SplitsAt(body, tail, |x|)
  {
    var m := x + Arrow + y;
    assert line == prefix + m + [Quote];
    assert body == line[|prefix|..|line| - 1] == m;
    assert body[|x|..|x| + |Arrow|] == Arrow;
    assert body[|x| + |Arrow|..] == y;
    assert Arrow == [Quote, 0x20, 0x2D, 0x3E, 0x20, Quote];
    forall i | 0 <= i < |body| ensures body[i] != LF {
      if i < |x| {
        assert body[i] == x[i];
      } else if i < |x| + |Arrow| {
        assert body[i] == Arrow[i - |x|];
      } else {
        assert body[i] == y[i - |x| - |Arrow|];
      }
    }
  }

  /** The group of a single-capture pattern is well-formed UTF-8 when the
      line is. */
  lemma SingleCaptureValid(prefix: Bytes, line: Bytes, x: Bytes)
    requires IsAscii(prefix) && ValidUtf8(line)
    requires line == prefix + x + [Quote]
    ensures ValidUtf8(x)
  {
    assert line == (prefix + x) + [Quote] + [];
    SplitValidUtf8AtAscii(prefix + x, Quote, []);
    DropAsciiPrefix(prefix, x);
  }

  /** The arrow is a quote, four ASCII bytes and a quote. */
  lemma ArrowCut(x: Bytes, y: Bytes)
    ensures x + Arrow + y == x + [Quote] + ([0x20, 0x2D, 0x3E, 0x20] + [Quote] + y)
  {
  }

  /** Both sides of an arrow in well-formed UTF-8 are well-formed. */
  lemma ArrowSplitValid(x: Bytes, y: Bytes)
    requires ValidUtf8(x + Arrow + y)
    ensures ValidUtf8(x) && ValidUtf8(y)
  {
    var inner: Bytes := [0x20, 0x2D, 0x3E, 0x20];
    ArrowCut(x, y);
    SplitValidUtf8AtAscii(x, Quote, inner + [Quote] + y);
    SplitValidUtf8AtAscii(inner, Quote, y);
  }

  /** A two-capture line is a single-capture line around `x' -> 'y`. */
  lemma PairLineAsSingle(prefix: Bytes, line: Bytes, x: Bytes, y: Bytes)
    requires line == prefix + x + Arrow + y + [Quote]
    ensures line == prefix + (x + Arrow + y) + [Quote]
  {
  }

  /** Both groups of a two-capture pattern are well-formed UTF-8 when the
      line is. */
  lemma PairCapturesValid(prefix: Bytes, line: Bytes, x: Bytes, y: Bytes)
    requires IsAscii(prefix) && ValidUtf8(line)
    requires line == prefix + x + Arrow + y + [Quote]
    ensures ValidUtf8(x) && ValidUtf8(y)
  {
    PairLineAsSingle(prefix, line, x, y);
    SingleCaptureValid(prefix, line, x + Arrow + y);
    ArrowSplitValid(x, y);
  }


  /** Examine one line of nix's stderr and extract the structured datum it
      reports, trying the four patterns in order. Total: a line that is not
      UTF-8 or matches nothing comes back unchanged as `Text`. */
  function ParseEvaluationLine(line: Bytes): (d: LogDatum)
    ensures !ValidUtf8(line) ==> d == Text(line)
    ensures d.Text? ==> d.line == line
    ensures d.Source? ==> ValidUtf8(d.path) && NoNewline(d.path)
    ensures d.AttrDrv? ==> ValidUtf8(d.attr) && NoNewline(d.attr) && ValidUtf8(d.drv) && IsPrefix(StorePrefix, d.drv)
  {
    if !ValidUtf8(line) then Text(line)
    else match MatchSingle(EvalFilePrefix, line)
      case Some(source) =>
        SingleCaptureValid(EvalFilePrefix, line, source);
        Source(source)
      case None => match MatchPair(CopiedSourcePrefix, [], line)
        case Some((source, dest)) =>
          PairCapturesValid(CopiedSourcePrefix, line, source, dest);
          Source(source)
        case None => match MatchSingle(LorriReadPrefix, line)
          case Some(source) =>
            SingleCaptureValid(LorriReadPrefix, line, source);
            Source(source)
          case None => match MatchPair(LorriAttrPrefix, StorePrefix, line)
            case Some((attr, drv)) =>
              PairCapturesValid(LorriAttrPrefix, line, attr, drv);
              AttrDrv(attr, drv)
            case None => Text(line)
  }

  lemma SingleShapeStarts(prefix: Bytes, line: Bytes, x: Bytes)
    requires SingleShape(prefix, line, x)
    ensures IsPrefix(prefix, line)
  {
    assert line == prefix + (x + [Quote]);
  }

  lemma PairShapeStarts(prefix: Bytes, tail: Bytes, line: Bytes, x: Bytes, y: Bytes)
    requires PairShape(prefix, tail, line, x, y)
    ensures IsPrefix(prefix, line)
  {
    assert line == prefix + (x + Arrow + y + [Quote]);
  }

  lemma ShapesStart(line: Bytes, a: Bytes, b: Bytes)
    ensures EvalFileShape(line, a) ==> IsPrefix(EvalFilePrefix, line)
    ensures CopiedSourceShape(line, a, b) ==> IsPrefix(CopiedSourcePrefix, line)
    ensures LorriReadShape(line, a) ==> IsPrefix(LorriReadPrefix, line)
    ensures LorriAttrShape(line, a, b) ==> IsPrefix(LorriAttrPrefix, line)
  {
    if EvalFileShape(line, a) {
      SingleShapeStarts(EvalFilePrefix, line, a);
    }
    if CopiedSourceShape(line, a, b) {
      PairShapeStarts(CopiedSourcePrefix, [], line, a, b);
    }
    if LorriReadShape(line, a) {
      SingleShapeStarts(LorriReadPrefix, line, a);
    }
    if LorriAttrShape(line, a, b) {
      PairShapeStarts(LorriAttrPrefix, StorePrefix, line, a, b);
    }
  }

  /** No line starts like two of the patterns: their literal prefixes
      disagree at the first byte, or, for the two `trace: lorri` patterns, at
      the fourteenth. */
  lemma PrefixesExclusive(line: Bytes)
    ensures IsPrefix(EvalFilePrefix, line) ==>
              !IsPrefix(CopiedSourcePrefix, line) && !IsPrefix(LorriReadPrefix, line) && !IsPrefix(LorriAttrPrefix, line)
    ensures IsPrefix(CopiedSourcePrefix, line) ==> !IsPrefix(LorriReadPrefix, line) && !IsPrefix(LorriAttrPrefix, line)
    ensures IsPrefix(LorriReadPrefix, line) ==> !IsPrefix(LorriAttrPrefix, line)
  {
    assert EvalFilePrefix[0] as int == 'e' as int;
    assert CopiedSourcePrefix[0] as int == 'c' as int;
    assert LorriReadPrefix[0] as int == 't' as int && LorriReadPrefix[13] as int == 'r' as int;
    assert LorriAttrPrefix[0] as int == 't' as int && LorriAttrPrefix[13] as int == 'a' as int;
  }

  /** No line matches two of the patterns, so the order in which
      ParseEvaluationLine tries them never changes the outcome. */
  lemma PatternsExclusive(line: Bytes, a: Bytes, b: Bytes, c: Bytes, d: Bytes)
    ensures EvalFileShape(line, a) ==>
              !CopiedSourceShape(line, b, c) && !LorriReadShape(line, b) && !LorriAttrShape(line, b, c)
    ensures CopiedSourceShape(line, a, b) ==> !LorriReadShape(line, c) && !LorriAttrShape(line, c, d)
    ensures LorriReadShape(line, a) ==> !LorriAttrShape(line, b, c)
  {
    PrefixesExclusive(line);
    ShapesStart(line, a, b);
    ShapesStart(line, b, c);
    ShapesStart(line, c, d);
  }

  /** The split is where the first group ends, when the second group has no
      quote: every later `' -> '` would need one. */
  lemma {:induction false} OnlySplitBeforeQuoteFree(x: Bytes, y: Bytes, tail: Bytes, j: int)
    requires Quote !in y
    requires SplitsAt(x + Arrow + y, tail, j) && j >= |x|
    ensures j == |x|
  {
    var body := x + Arrow + y;
    assert body[j] == Arrow[0] && body[j + 5] == Arrow[5];
  }

  /** Two matches of a pair pattern on one line with first groups of the same
      length are the same match. */
  lemma PairShapeUnique(prefix: Bytes, tail: Bytes, line: Bytes, x: Bytes, y: Bytes, x': Bytes, y': Bytes)
    requires PairShape(prefix, tail, line, x, y) && PairShape(prefix, tail, line, x', y')
    requires |x| == |x'|
    ensures x == x' && y == y'
  {
    assert x == line[|prefix|..|prefix| + |x|];
    assert x' == line[|prefix|..|prefix| + |x'|];
    assert y == line[|prefix| + |x| + |Arrow|..|line| - 1];
    assert y' == line[|prefix| + |x'| + |Arrow|..|line| - 1];
  }

  /** The greedy first group of a pair pattern: among all ways the line
      matches, the one with the longest first group is chosen. */
  lemma MatchPairLongest(prefix: Bytes, tail: Bytes, line: Bytes, x: Bytes, y: Bytes)
    requires PairShape(prefix, tail, line, x, y)
    requires forall x', y' {:trigger PairShape(prefix, tail, line, x', y')} ::
               PairShape(prefix, tail, line, x', y') ==> |x'| <= |x|
    ensures MatchPair(prefix, tail, line) == Some((x, y))
  {
    var r := MatchPair(prefix, tail, line);
    PairShapeUnique(prefix, tail, line, x, y, r.value.0, r.value.1);
  }

  /** When the second group has no quote, the split is where it begins. */
  lemma MatchPairQuoteFree(prefix: Bytes, tail: Bytes, line: Bytes, x: Bytes, y: Bytes)
    requires PairShape(prefix, tail, line, x, y) && Quote !in y
    ensures MatchPair(prefix, tail, line) == Some((x, y))
  {
    forall x', y' | PairShape(prefix, tail, line, x', y') ensures |x'| <= |x| {
      var body := Enclosed(prefix, line).value;
      PairShapeSplits(prefix, tail, line, body, x, y);
      PairShapeSplits(prefix, tail, line, body, x', y');
      if |x'| > |x| {
        OnlySplitBeforeQuoteFree(x, y, tail, |x'|);
      }
    }
    MatchPairLongest(prefix, tail, line, x, y);
  }

  /** Wrapping well-formed UTF-8 in ASCII keeps it well-formed. */
  lemma WrappedValid(prefix: Bytes, mid: Bytes, suffix: Bytes)
    requires IsAscii(prefix) && IsAscii(suffix) && ValidUtf8(mid)
    ensures ValidUtf8(prefix + mid + suffix)
  {
    AsciiIsValidUtf8(prefix);
    AsciiIsValidUtf8(suffix);
    ConcatValidUtf8(prefix, mid);
    ConcatValidUtf8(prefix + mid, suffix);
  }

  /** A well-formed line of pair shape. */
  lemma PairLineValid(prefix: Bytes, x: Bytes, y: Bytes)
    requires IsAscii(prefix) && ValidUtf8(x) && ValidUtf8(y)
    ensures ValidUtf8(prefix + x + Arrow + y + [Quote])
  {
    WrappedValid(prefix, x, Arrow);
    WrappedValid([], y, [Quote]);
    assert [] + y + [Quote] == y + [Quote];
    ConcatValidUtf8(prefix + x + Arrow, y + [Quote]);
    assert prefix + x + Arrow + (y + [Quote]) == prefix + x + Arrow + y + [Quote];
  }

  /** A line that does not start like a pattern does not match it. */
  lemma NoMatchWithoutPrefix(prefix: Bytes, tail: Bytes, line: Bytes)
    requires !IsPrefix(prefix, line)
    ensures MatchSingle(prefix, line).None? && MatchPair(prefix, tail, line).None?
  {
  }

  /** Which pattern ParseEvaluationLine ends up using on a well-formed line
      is decided by how the line starts. */
  lemma ParseByPrefix(line: Bytes)
    requires ValidUtf8(line)
    ensures IsPrefix(CopiedSourcePrefix, line) ==>
              ParseEvaluationLine(line) == match MatchPair(CopiedSourcePrefix, [], line)
                                           case Some(m) => Source(m.0)
                                           case None => Text(line)
    ensures IsPrefix(LorriReadPrefix, line) ==>
              ParseEvaluationLine(line) == match MatchSingle(LorriReadPrefix, line)
                                           case Some(x) => Source(x)
                                           case None => Text(line)
    ensures IsPrefix(LorriAttrPrefix, line) ==>
              ParseEvaluationLine(line) == match MatchPair(LorriAttrPrefix, StorePrefix, line)
                                           case Some(m) => AttrDrv(m.0, m.1)
                                           case None => Text(line)
  {
    PrefixesExclusive(line);
    if IsPrefix(CopiedSourcePrefix, line) {
      NoMatchWithoutPrefix(EvalFilePrefix, [], line);
    }
    if IsPrefix(LorriReadPrefix, line) {
      NoMatchWithoutPrefix(EvalFilePrefix, [], line);
      NoMatchWithoutPrefix(CopiedSourcePrefix, [], line);
    }
    if IsPrefix(LorriAttrPrefix, line) {
      NoMatchWithoutPrefix(EvalFilePrefix, [], line);
      NoMatchWithoutPrefix(CopiedSourcePrefix, [], line);
      NoMatchWithoutPrefix(LorriReadPrefix, [], line);
    }
  }

  /** `evaluating file 'X'` is `Source(X)`, with X taken whole up to the
      final quote (quotes inside X included). */
  lemma EvaluatingFileLine(source: Bytes)
    requires ValidUtf8(source) && NoNewline(source)
    ensures ParseEvaluationLine(EvalFilePrefix + source + [Quote]) == Source(source)
  {
    WrappedValid(EvalFilePrefix, source, [Quote]);
    assert SingleShape(EvalFilePrefix, EvalFilePrefix + source + [Quote], source);
  }

  /** `copied source 'X' -> 'Y'` is `Source(X)` where X is the longest first
      group the line allows; the destination is dropped. */
  lemma CopiedSourceLongest(line: Bytes, source: Bytes, dest: Bytes)
    requires ValidUtf8(line) && CopiedSourceShape(line, source, dest)
    requires forall x, y {:trigger CopiedSourceShape(line, x, y)} ::
               CopiedSourceShape(line, x, y) ==> |x| <= |source|
    ensures ParseEvaluationLine(line) == Source(source)
  {
    ShapesStart(line, source, dest);
    ParseByPrefix(line);
    forall x, y | PairShape(CopiedSourcePrefix, [], line, x, y) ensures |x| <= |source| {
      assert CopiedSourceShape(line, x, y);
    }
    MatchPairLongest(CopiedSourcePrefix, [], line, source, dest);
  }

  /** In particular `copied source 'X' -> 'Y'` is `Source(X)` whenever the
      destination Y has no quote, as with store paths. */
  lemma CopiedSourceLine(source: Bytes, dest: Bytes)
    requires ValidUtf8(source) && ValidUtf8(dest) && NoNewline(source) && NoNewline(dest)
    requires Quote !in dest
    ensures ParseEvaluationLine(CopiedSourcePrefix + source + Arrow + dest + [Quote]) == Source(source)
  {
    var line := CopiedSourcePrefix + source + Arrow + dest + [Quote];
    PairLineValid(CopiedSourcePrefix, source, dest);
    assert IsPrefix([], dest);
    MatchPairQuoteFree(CopiedSourcePrefix, [], line, source, dest);
    ShapesStart(line, source, dest);
    ParseByPrefix(line);
  }

  /** `trace: lorri read: 'X'` is `Source(X)`. */
  lemma LorriReadLine(source: Bytes)
    requires ValidUtf8(source) && NoNewline(source)
    ensures ParseEvaluationLine(LorriReadPrefix + source + [Quote]) == Source(source)
  {
    var line := LorriReadPrefix + source + [Quote];
    WrappedValid(LorriReadPrefix, source, [Quote]);
    ShapesStart(line, source, []);
    ParseByPrefix(line);
  }

  /** `trace: lorri attribute: 'A' -> 'D'` is `AttrDrv(A, D)` when D is a
      store path without quotes. */
  lemma LorriAttributeLine(attr: Bytes, drv: Bytes)
    requires ValidUtf8(attr) && ValidUtf8(drv) && NoNewline(attr) && NoNewline(drv)
    requires IsPrefix(StorePrefix, drv) && Quote !in drv
    ensures ParseEvaluationLine(LorriAttrPrefix + attr + Arrow + drv + [Quote]) == AttrDrv(attr, drv)
  {
    var line := LorriAttrPrefix + attr + Arrow + drv + [Quote];
    PairLineValid(LorriAttrPrefix, attr, drv);
    MatchPairQuoteFree(LorriAttrPrefix, StorePrefix, line, attr, drv);
    ShapesStart(line, attr, drv);
    ParseByPrefix(line);
  }

  /** With no quotes in either group, the only `' -> '` is the one between
      them. */
  lemma QuoteFreeSplit(x: Bytes, y: Bytes, tail: Bytes, j: int)
    requires Quote !in x && Quote !in y
    requires SplitsAt(x + Arrow + y, tail, j)
    ensures j == |x| && IsPrefix(tail, y)
  {
    var body := x + Arrow + y;
    assert body[j] == Arrow[0] == Quote;
    var k := if j < |x| then j else 0;
    assert |x| > 0 ==> body[k] == x[k] != Quote;
    OnlySplitBeforeQuoteFree(x, y, tail, j);
    assert body[j + |Arrow|..] == y;
  }

  /** `trace: lorri attribute: 'A' -> 'D'` with quote-free A and D, whose D
      is not under `/nix/store/`, is no attribute: it stays `Text`. (A quote
      in A can let the pattern split at an earlier arrow instead.) */
  lemma LorriAttributeOutsideStore(attr: Bytes, drv: Bytes)
    requires NoNewline(attr) && NoNewline(drv) && Quote !in attr && Quote !in drv
    requires !IsPrefix(StorePrefix, drv)
    ensures var line := LorriAttrPrefix + attr + Arrow + drv + [Quote];
            ParseEvaluationLine(line) == Text(line)
  {
    var line := LorriAttrPrefix + attr + Arrow + drv + [Quote];
    if ValidUtf8(line) {
      assert line == LorriAttrPrefix + (attr + Arrow + drv + [Quote]);
      assert IsPrefix(LorriAttrPrefix, line);
      ParseByPrefix(line);
      var m := MatchPair(LorriAttrPrefix, StorePrefix, line);
      if m.Some? {
        var body := Enclosed(LorriAttrPrefix, line).value;
        assert line == LorriAttrPrefix + (attr + Arrow + drv) + [Quote];
        assert body == attr + Arrow + drv;
        PairShapeSplits(LorriAttrPrefix, StorePrefix, line, body, m.value.0, m.value.1);
        QuoteFreeSplit(attr, drv, StorePrefix, |m.value.0|);
      }
    }
  }

  /** A line stays `Text` exactly when it is not UTF-8 or matches none of the
      four patterns. */
  lemma TextExactlyWhenUnmatched(line: Bytes)
    ensures ParseEvaluationLine(line) == Text(line) <==>
              || !ValidUtf8(line)
              || (&& (forall x {:trigger EvalFileShape(line, x)} :: !EvalFileShape(line, x))
                  && (forall x, y {:trigger CopiedSourceShape(line, x, y)} :: !CopiedSourceShape(line, x, y))
                  && (forall x {:trigger LorriReadShape(line, x)} :: !LorriReadShape(line, x))
                  && (forall x, y {:trigger LorriAttrShape(line, x, y)} :: !LorriAttrShape(line, x, y)))
  {
    if ValidUtf8(line) {
      var e := MatchSingle(EvalFilePrefix, line);
      var c := MatchPair(CopiedSourcePrefix, [], line);
      var r := MatchSingle(LorriReadPrefix, line);
      var a := MatchPair(LorriAttrPrefix, StorePrefix, line);
      if e.Some? {
        assert EvalFileShape(line, e.value);
      } else if c.Some? {
        assert CopiedSourceShape(line, c.value.0, c.value.1);
      } else if r.Some? {
        assert LorriReadShape(line, r.value);
      } else if a.Some? {
        assert LorriAttrShape(line, a.value.0, a.value.1);
      } else {
        assert forall x {:trigger EvalFileShape(line, x)} :: !EvalFileShape(line, x);
        assert forall x {:trigger LorriReadShape(line, x)} :: !LorriReadShape(line, x);
      }
    }
  }

  /*
   * Folding the classified lines into three accumulators.
   */

  /** The paths of the `Source` data, in order. */
  function Sources(ds: seq<LogDatum>): seq<Path> {
    if ds == [] then []
    else
      var init := Sources(ds[..|ds| - 1]);
      if ds[|ds| - 1].Source? then init + [ds[|ds| - 1].path] else init
  }

  /** The lines of the `Text` data, in order. */
  function TextLines(ds: seq<LogDatum>): seq<Bytes> {
    if ds == [] then []
    else
      var init := TextLines(ds[..|ds| - 1]);
      if ds[|ds| - 1].Text? then init + [ds[|ds| - 1].line] else init
  }

  /** The `AttrDrv` data inserted one by one into a map. */
  function NamedDrvs(ds: seq<LogDatum>): map<Bytes, Path> {
    if ds == [] then map[]
    else
      var init := NamedDrvs(ds[..|ds| - 1]);
      if ds[|ds| - 1].AttrDrv? then init[ds[|ds| - 1].attr := ds[|ds| - 1].drv] else init
  }

  /** How many data are `AttrDrv`. */
  function AttrDrvCount(ds: seq<LogDatum>): nat {
    if ds == [] then 0
    else AttrDrvCount(ds[..|ds| - 1]) + if ds[|ds| - 1].AttrDrv? then 1 else 0
  }

  /** The fold of src/builder.rs:57-73: each datum is pushed onto `paths`,
      inserted into `namedDrvs` or pushed onto `logLines`. */
  method Partition(results: seq<LogDatum>) returns (paths: seq<Path>, namedDrvs: map<Bytes, Path>, logLines: seq<Bytes>)
    ensures paths == Sources(results)
    ensures namedDrvs == NamedDrvs(results)
    ensures logLines == TextLines(results)
  {
    paths, namedDrvs, logLines := [], map[], [];
    for i := 0 to |results|
      invariant paths == Sources(results[..i])
      invariant namedDrvs == NamedDrvs(results[..i])
      invariant logLines == TextLines(results[..i])
    {
      assert results[..i + 1][..i] == results[..i];
      match results[i]
      case Source(src) =>
        paths := paths + [src];
      case AttrDrv(name, drv) =>
        namedDrvs := namedDrvs[name := drv];
      case Text(line) =>
        logLines := logLines + [line];
    }
    assert results[..|results|] == results;
  }

  /** Every datum lands in exactly one accumulator: the paths, the lines
      and the attribute data together account for all of them. */
  lemma {:induction false} PartitionSizes(ds: seq<LogDatum>)
    ensures |Sources(ds)| + |TextLines(ds)| + AttrDrvCount(ds) == |ds|
  {
    if ds != [] {
      PartitionSizes(ds[..|ds| - 1]);
    }
  }

  /** Folding a concatenation appends the folds: `paths` and `log_lines`
      keep the order of the input. */
  lemma {:induction false} FoldConcat(a: seq<LogDatum>, b: seq<LogDatum>)
    ensures Sources(a + b) == Sources(a) + Sources(b)
    ensures TextLines(a + b) == TextLines(a) + TextLines(b)
    ensures AttrDrvCount(a + b) == AttrDrvCount(a) + AttrDrvCount(b)
  {
    if b == [] {
      assert a + b == a;
    } else {
      var b' := b[..|b| - 1];
      assert (a + b)[..|a + b| - 1] == a + b';
      FoldConcat(a, b');
    }
  }

  /** The path of the `Source` at index i sits in `paths` right after the
      paths of the data before it. */
  lemma SourcePosition(ds: seq<LogDatum>, i: nat)
    requires i < |ds| && ds[i].Source?
    ensures |Sources(ds[..i])| < |Sources(ds)|
    ensures Sources(ds)[|Sources(ds[..i])|] == ds[i].path
  {
    assert ds == ds[..i] + [ds[i]] + ds[i + 1..];
    FoldConcat(ds[..i] + [ds[i]], ds[i + 1..]);
    FoldConcat(ds[..i], [ds[i]]);
    assert Sources([ds[i]]) == [ds[i].path] by {
      assert [ds[i]][..0] == [];
    }
  }

  /** The line of the `Text` at index i sits in `logLines` right after the
      lines of the data before it. */
  lemma TextPosition(ds: seq<LogDatum>, i: nat)
    requires i < |ds| && ds[i].Text?
    ensures |TextLines(ds[..i])| < |TextLines(ds)|
    ensures TextLines(ds)[|TextLines(ds[..i])|] == ds[i].line
  {
    assert ds == ds[..i] + [ds[i]] + ds[i + 1..];
    FoldConcat(ds[..i] + [ds[i]], ds[i + 1..]);
    FoldConcat(ds[..i], [ds[i]]);
    assert TextLines([ds[i]]) == [ds[i].line] by {
      assert [ds[i]][..0] == [];
    }
  }

  /** An attribute is a key of `named_drvs` exactly when some `AttrDrv`
      names it. */
  lemma {:induction false} NamedDrvsKeys(ds: seq<LogDatum>, a: Bytes)
    ensures a in NamedDrvs(ds) <==> exists i | 0 <= i < |ds| :: ds[i].AttrDrv? && ds[i].attr == a
  {
    if ds != [] {
      var init := ds[..|ds| - 1];
      NamedDrvsKeys(init, a);
      if a in NamedDrvs(init) {
        var i :| 0 <= i < |init| && init[i].AttrDrv? && init[i].attr == a;
        assert ds[i] == init[i];
      }
      if exists i | 0 <= i < |ds| :: ds[i].AttrDrv? && ds[i].attr == a {
        var i :| 0 <= i < |ds| && ds[i].AttrDrv? && ds[i].attr == a;
        if i < |init| {
          assert init[i] == ds[i];
        }
      }
    }
  }

  /** The last `AttrDrv` for an attribute wins: its derivation is the one
      `named_drvs` keeps. */
  lemma {:induction false} NamedDrvsLastWins(ds: seq<LogDatum>, i: nat)
    requires i < |ds| && ds[i].AttrDrv?
    requires forall j | i < j < |ds| :: !(ds[j].AttrDrv? && ds[j].attr == ds[i].attr)
    ensures ds[i].attr in NamedDrvs(ds) && NamedDrvs(ds)[ds[i].attr] == ds[i].drv
  {
    var init := ds[..|ds| - 1];
    if i < |ds| - 1 {
      assert forall j | i < j < |init| :: init[j] == ds[j];
      NamedDrvsLastWins(init, i);
    }
  }

  /** The index of the last `AttrDrv` naming an attribute. */
  function LastAttr(ds: seq<LogDatum>, a: Bytes): (i: nat)
    requires exists i | 0 <= i < |ds| :: ds[i].AttrDrv? && ds[i].attr == a
    ensures i < |ds| && ds[i].AttrDrv? && ds[i].attr == a
    ensures forall j | i < j < |ds| :: !(ds[j].AttrDrv? && ds[j].attr == a)
  {
    var n := |ds| - 1;
    if ds[n].AttrDrv? && ds[n].attr == a then n
    else
      var i :| 0 <= i < |ds| && ds[i].AttrDrv? && ds[i].attr == a;
      assert ds[..n][i] == ds[i];
      LastAttr(ds[..n], a)
  }

  /*
   * The result of one instrumented build.
   */

  /** Why a build could not run: an I/O failure of nix-build or of the
      content-addressed store, or a log-processing thread that died. The
      payloads are opaque here. */
  datatype Error = Io(reason: Bytes) | ThreadFailure

  /** What nix-build reported: whether it exited successfully, and its
      stdout and stderr already split into lines. */
  datatype NixOutput = NixOutput(success: bool, stdoutLines: seq<Path>, stderrLines: seq<Bytes>)

  /** The results of an individual build; even a failed build tells which
      paths to watch. */
  datatype Info = Info(
    success: bool,
    namedDrvs: map<Bytes, Path>,
    drvs: seq<Path>,
    paths: seq<Path>,
    logLines: seq<Bytes>)

  /** Every stderr line classified. */
  function ParseAll(lines: seq<Bytes>): (ds: seq<LogDatum>)
    ensures |ds| == |lines|
    ensures forall i | 0 <= i < |lines| :: ds[i] == ParseEvaluationLine(lines[i])
  {
    seq(|lines|, i requires 0 <= i < |lines| => ParseEvaluationLine(lines[i]))
  }

  /** What a completed nix-build run tells: its exit status, the produced
      derivations from stdout, and the three groups of the classified
      stderr lines. */
  function BuildInfo(out: NixOutput): Info {
    var ds := ParseAll(out.stderrLines);
    Info(out.success, NamedDrvs(ds), out.stdoutLines, Sources(ds), TextLines(ds))
  }

  /** `instrumented_build` after nix-build has run: a run that could not be
      carried out is passed on as its error; otherwise the stderr lines are
      classified one by one and folded into the three accumulators. */
  method InstrumentedBuild(output: Result<NixOutput, Error>) returns (r: Result<Info, Error>)
    ensures output.Err? ==> r == Err(output.error)
    ensures output.Ok? ==> r == Ok(BuildInfo(output.value))
  {
    match output
    case Err(e) =>
      r := Err(e);
    case Ok(out) =>
      var paths, namedDrvs, logLines := Partition(ParseAll(out.stderrLines));
      r := Ok(Info(out.success, namedDrvs, out.stdoutLines, paths, logLines));
  }

  /** Every stderr line of a build ends up in exactly one place: a watched
      path, a named derivation or a log line; a line that is not UTF-8 is
      always a log line, in its place among the other log lines; and the
      named derivations are those of the attribute lines. */
  lemma BuildAccountsForEveryLine(out: NixOutput)
    ensures var ds := ParseAll(out.stderrLines);
            |BuildInfo(out).paths| + |BuildInfo(out).logLines| + AttrDrvCount(ds) == |out.stderrLines|
    ensures forall i | 0 <= i < |out.stderrLines| && !ValidUtf8(out.stderrLines[i]) ::
              var ds := ParseAll(out.stderrLines);
              |TextLines(ds[..i])| < |BuildInfo(out).logLines| &&
              BuildInfo(out).logLines[|TextLines(ds[..i])|] == out.stderrLines[i]
    ensures forall a | a in BuildInfo(out).namedDrvs ::
              exists i | 0 <= i < |out.stderrLines| :: ParseEvaluationLine(out.stderrLines[i]) == AttrDrv(a, BuildInfo(out).namedDrvs[a])
    ensures forall i | 0 <= i < |out.stderrLines| && ParseEvaluationLine(out.stderrLines[i]).AttrDrv? ::
              ParseEvaluationLine(out.stderrLines[i]).attr in BuildInfo(out).namedDrvs
  {
    var ds := ParseAll(out.stderrLines);
    PartitionSizes(ds);
    forall i | 0 <= i < |out.stderrLines| && !ValidUtf8(out.stderrLines[i])
      ensures |TextLines(ds[..i])| < |TextLines(ds)| &&
              TextLines(ds)[|TextLines(ds[..i])|] == out.stderrLines[i]
    {
      TextPosition(ds, i);
    }
    forall a | a in NamedDrvs(ds)
      ensures exists i | 0 <= i < |ds| :: ds[i] == AttrDrv(a, NamedDrvs(ds)[a])
    {
      NamedDrvsKeys(ds, a);
      var last := LastAttr(ds, a);
      NamedDrvsLastWins(ds, last);
      assert ds[last] == AttrDrv(a, NamedDrvs(ds)[a]);
    }
    forall i | 0 <= i < |ds| && ds[i].AttrDrv?
      ensures ds[i].attr in NamedDrvs(ds)
    {
      NamedDrvsKeys(ds, ds[i].attr);
    }
  }
}
