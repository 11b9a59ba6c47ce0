/** The classifier's unit tests (src/builder.rs:189-223) and its greedy
    captures, as lemmas about ParseEvaluationLine. Long test strings are
    spelled as concatenations of shorter literals, and each lemma takes its
    test data as parameters pinned by its requires: both keep the verifier
    from unfolding one long literal into every proof obligation at once. */
module BuilderTests {
  import opened ByteStrings
  import opened Builder

  const ForMetaPath: Bytes :=
    StorePrefix + Ascii("zqxha3ax0w771jf25qdblakka83660gr") + Ascii("-source/lib/systems/for-meta.nix")
  const DefaultBuilderSource: Bytes :=
    StorePrefix + Ascii("zqxha3ax0w771jf25qdblakka83660gr") + Ascii("-source/pkgs/stdenv/generic/")
    + Ascii("default-builder.sh")
  const DefaultBuilderCopy: Bytes :=
    StorePrefix + Ascii("9krlzvny65gdc8s7kpb6lkx8cd02c25b") + Ascii("-default-builder.sh")
  const NixpkgsJson: Bytes :=
    Ascii("/home/grahamc/projects/grahamc/") + Ascii("lorri/nix/nixpkgs.json")
  const LorriDrv: Bytes :=
    StorePrefix + Ascii("q3ngidzvincycjjvlilf1z6vj1w4wnas") + Ascii("-lorri.drv")
  const DownloadingLine: Bytes :=
    Ascii("downloading '") + Ascii("https://static.rust-lang.org/")
    + Ascii("dist/channel-rust-stable.toml") + Ascii("'...")

  /** Appending an ASCII piece without line feeds or quotes. */
  lemma PlainPiece(a: Bytes, b: string)
    requires Plain(a)
    requires forall i | 0 <= i < |b| :: b[i] as int < 0x80 && b[i] != '\n' && b[i] != '\''
    ensures Plain(a + Ascii(b))
  {
    PlainAscii(b);
    PlainConcat(a, Ascii(b));
  }

  /** `evaluating file '<store path of for-meta.nix>'` is that path. */
  lemma EvaluatingFileTest(path: Bytes)
    requires path == ForMetaPath
    ensures ParseEvaluationLine(EvalFilePrefix + path + [Quote]) == Source(path)
  {
    PlainAscii("/nix/store/");
    PlainPiece(StorePrefix, "zqxha3ax0w771jf25qdblakka83660gr");
    PlainPiece(StorePrefix + Ascii("zqxha3ax0w771jf25qdblakka83660gr"), "-source/lib/systems/for-meta.nix");
    PlainIsValidUtf8(path);
    EvaluatingFileLine(path);
  }

  lemma DefaultBuilderSourcePlain(source: Bytes)
    requires source == DefaultBuilderSource
    ensures Plain(source)
  {
    PlainAscii("/nix/store/");
    var hash := StorePrefix + Ascii("zqxha3ax0w771jf25qdblakka83660gr");
    PlainPiece(StorePrefix, "zqxha3ax0w771jf25qdblakka83660gr");
    PlainPiece(hash, "-source/pkgs/stdenv/generic/");
    PlainPiece(hash + Ascii("-source/pkgs/stdenv/generic/"), "default-builder.sh");
  }

  lemma DefaultBuilderCopyPlain(dest: Bytes)
    requires dest == DefaultBuilderCopy
    ensures Plain(dest)
  {
    PlainAscii("/nix/store/");
    PlainPiece(StorePrefix, "9krlzvny65gdc8s7kpb6lkx8cd02c25b");
    PlainPiece(StorePrefix + Ascii("9krlzvny65gdc8s7kpb6lkx8cd02c25b"), "-default-builder.sh");
  }

  /** `copied source '<store file>' -> '<store copy>'` is the first path. */
  lemma CopiedSourceTest(source: Bytes, dest: Bytes)
    requires source == DefaultBuilderSource && dest == DefaultBuilderCopy
    ensures ParseEvaluationLine(CopiedSourcePrefix + source + Arrow + dest + [Quote]) == Source(source)
  {
    DefaultBuilderSourcePlain(source);
    DefaultBuilderCopyPlain(dest);
    PlainIsValidUtf8(source);
    PlainIsValidUtf8(dest);
    CopiedSourceLine(source, dest);
  }

  /** `trace: lorri read: '<file>'` is that file. */
  lemma LorriReadTest(source: Bytes)
    requires source == NixpkgsJson
    ensures ParseEvaluationLine(LorriReadPrefix + source + [Quote]) == Source(source)
  {
    PlainAscii("/home/grahamc/projects/grahamc/");
    PlainPiece(Ascii("/home/grahamc/projects/grahamc/"), "lorri/nix/nixpkgs.json");
    PlainIsValidUtf8(source);
    LorriReadLine(source);
  }

  /** `trace: lorri attribute: 'shell' -> '<drv>'` names the shell's drv. */
  lemma LorriAttributeTest(attr: Bytes, drv: Bytes)
    requires attr == Ascii("shell") && drv == LorriDrv
    ensures ParseEvaluationLine(LorriAttrPrefix + attr + Arrow + drv + [Quote]) == AttrDrv(attr, drv)
  {
    PlainAscii("shell");
    PlainIsValidUtf8(attr);
    LorriDrvPlain(drv);
    PlainIsValidUtf8(drv);
    LorriAttributeLine(attr, drv);
  }

  lemma LorriDrvPlain(drv: Bytes)
    requires drv == LorriDrv
    ensures Plain(drv) && IsPrefix(StorePrefix, drv)
  {
    PlainAscii("/nix/store/");
    PlainPiece(StorePrefix, "q3ngidzvincycjjvlilf1z6vj1w4wnas");
    PlainPiece(StorePrefix + Ascii("q3ngidzvincycjjvlilf1z6vj1w4wnas"), "-lorri.drv");
    assert drv[..|StorePrefix|] == StorePrefix;
  }

  /** A download notice matches no pattern and passes through as text. */
  lemma DownloadingTest(line: Bytes)
    requires line == DownloadingLine
    ensures ParseEvaluationLine(line) == Text(line)
  {
    assert line[0] as int == 'd' as int;
    assert EvalFilePrefix[0] as int == 'e' as int;
    assert CopiedSourcePrefix[0] as int == 'c' as int;
    assert LorriReadPrefix[0] as int == 't' as int;
    assert LorriAttrPrefix[0] as int == 't' as int;
    NoMatchWithoutPrefix(EvalFilePrefix, [], line);
    NoMatchWithoutPrefix(CopiedSourcePrefix, [], line);
    NoMatchWithoutPrefix(LorriReadPrefix, [], line);
    NoMatchWithoutPrefix(LorriAttrPrefix, StorePrefix, line);
  }

  /** The capture of `evaluating file '(.*)'` is greedy: `evaluating file
      'a'b'` is the source `a'b`. */
  lemma EvaluatingFileGreedy(source: Bytes)
    requires source == Ascii("a'b")
    ensures ParseEvaluationLine(EvalFilePrefix + source + [Quote]) == Source(source)
  {
    assert IsAscii(source) && NoNewline(source) by {
      assert source[0] as int == 'a' as int && source[1] as int == '\'' as int && source[2] as int == 'b' as int;
    }
    AsciiIsValidUtf8(source);
    EvaluatingFileLine(source);
  }

  /** `copied source 'a' -> 'b' -> 'c'` is the source `a' -> 'b`: the first
      group runs to the last arrow. */
  lemma CopiedSourceGreedy(source: Bytes, dest: Bytes)
    requires source == Ascii("a") + Arrow + Ascii("b") && dest == Ascii("c")
    ensures ParseEvaluationLine(CopiedSourcePrefix + source + Arrow + dest + [Quote]) == Source(source)
  {
    PlainAscii("a");
    PlainAscii("b");
    PlainAscii("c");
    assert Arrow == [Quote, 0x20, 0x2D, 0x3E, 0x20, Quote];
    assert IsAscii(source) && NoNewline(source) by {
      assert forall i | 0 <= i < |source| ::
        source[i] == if i == 0 then Ascii("a")[0] else if i < 7 then Arrow[i - 1] else Ascii("b")[0];
    }
    AsciiIsValidUtf8(source);
    AsciiIsValidUtf8(dest);
    CopiedSourceLine(source, dest);
  }
}
