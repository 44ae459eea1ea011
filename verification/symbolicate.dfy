/**
 * The symbolication pipeline: find the image the debug-symbol bundle belongs
 * to, list the faulting thread's frame offsets, rewrite the resolver's output
 * into `path:\tsymbol` lines, cut the demangled text into one block per
 * frame, and render every frame that is not crash-handling noise.
 *
 * The two external tools and the demangler are parameters: `uuidProbe` is
 * what `dwarfdump --uuid` printed, `resolve` maps the offset arguments to
 * what `atos` printed, and `demangle` stands for `rustc_demangle`.
 */
module Symbolicate {
  import opened Wrappers
  import opened Text
  import opened Json
  import opened Ips

  // ------------------------------------------------------------ the probed UUID

  const NO_UUID_LINE := "No UUID found in dwarfdump output"
  const NO_UUID_TOKEN := "Failed to extract UUID"

  /**
   * `str::lines().next()`: the text up to the first `\n`, without a `\r`
   * that directly precedes it; `None` only for the empty text.
   */
  function FirstLine(s: string): (r: Option<string>)
    ensures r.None? <==> s == []
    ensures r.Some? ==> '\n' !in r.value && |r.value| <= |s| && r.value == s[..|r.value|]
    ensures r.Some? ==> |r.value| == |s| || s[|r.value|] == '\n'
                        || (s[|r.value|] == '\r' && |r.value| + 1 < |s| && s[|r.value| + 1] == '\n')
    ensures r.Some? && |r.value| < |s| && s[|r.value|] == '\n' ==> r.value == [] || r.value[|r.value| - 1] != '\r'
  {
    if s == [] then None
    else
      ElementOccurs(s, '\n');
      match SplitOnce(s, "\n")
      case None => Some(s)
      case Some((line, _)) =>
        NoElementBeforeFirst(s, '\n', |line|);
        Some(if line != [] && line[|line| - 1] == '\r' then line[..|line| - 1] else line)
  }

  /** The UUID `dwarfdump --uuid` reports: the second whitespace-separated word of its first line. */
  function ProbedUuid(probe: string): (r: Result<string, string>)
    ensures probe == [] <==> r == Failure(NO_UUID_LINE)
    ensures r.Failure? ==> r.error == NO_UUID_LINE || r.error == NO_UUID_TOKEN
    ensures r.Success? ==> IsField(r.value, IsWhitespace)
  {
    match FirstLine(probe)
    case None => Failure(NO_UUID_LINE)
    case Some(line) =>
      var words := Words(line);
      if |words| >= 2 then Success(words[1]) else Failure(NO_UUID_TOKEN)
  }

  /** The first line of a line followed by nothing or by a newline, with a `\r` before that newline dropped. */
  lemma FirstLineOf(line: string, tail: string)
    requires '\n' !in line
    requires line != [] || tail != []
    requires tail == [] || tail[0] == '\n'
    ensures FirstLine(line + tail)
            == Some(if tail != [] && line != [] && line[|line| - 1] == '\r' then line[..|line| - 1] else line)
  {
    var s := line + tail;
    if tail == [] {
      assert s == line;
      ElementOccurs(s, '\n');
      assert "\n" == ['\n'];
    } else {
      assert s == line + ['\n'] + tail[1..];
      FirstOccurrenceOfElement(line, '\n', tail[1..]);
      SplitOnceAt(s, "\n", |line|);
      assert s[..|line|] == line;
    }
  }

  /** A word, whitespace, then a second word followed by nothing or by whitespace: the second word is the second of `Words`. */
  lemma SecondWord(first: string, space: string, second: string, rest: string)
    requires IsField(first, IsWhitespace) && IsField(second, IsWhitespace)
    requires space != [] && forall i | 0 <= i < |space| :: IsWhitespace(space[i])
    requires rest == [] || IsWhitespace(rest[0])
    ensures |Words(first + space + second + rest)| >= 2
    ensures Words(first + space + second + rest)[1] == second
  {
    assert first + space + second + rest == first + (space + (second + rest));
    FieldsStartWithField(first, space + (second + rest), IsWhitespace);
    FieldsSkipSeparators(space, second + rest, IsWhitespace);
    FieldsStartWithField(second, rest, IsWhitespace);
  }

  /** Whitespace within one line. */
  predicate InlineSpace(s: string) {
    forall i | 0 <= i < |s| :: IsWhitespace(s[i]) && s[i] != '\n'
  }

  /**
   * What the UUID probe gives when `line` is the first line: its second
   * word. A `\r` dropped before the newline is whitespace, so it never
   * changes the words.
   */
  lemma ProbedUuidOfLine(line: string, tail: string)
    requires '\n' !in line
    requires line != [] || tail != []
    requires tail == [] || tail[0] == '\n'
    ensures ProbedUuid(line + tail)
            == if |Words(line)| >= 2 then Success(Words(line)[1]) else Failure(NO_UUID_TOKEN)
  {
    FirstLineOf(line, tail);
    if tail != [] && line != [] && line[|line| - 1] == '\r' {
      assert line == line[..|line| - 1] + ['\r'];
      FieldsSnocSeparator(line[..|line| - 1], '\r', IsWhitespace);
    }
  }

  /**
   * A first line made of optional whitespace, a word, whitespace, the UUID
   * and then nothing or whitespace-led text yields that UUID, whatever
   * follows the line.
   */
  lemma ProbedUuidIsSecondWord(lead: string, first: string, space: string, uuid: string, rest: string, tail: string)
    requires InlineSpace(lead)
    requires IsField(first, IsWhitespace) && IsField(uuid, IsWhitespace)
    requires space != [] && InlineSpace(space)
    requires rest == [] || IsWhitespace(rest[0])
    requires '\n' !in rest
    requires tail == [] || tail[0] == '\n'
    ensures ProbedUuid(lead + first + space + uuid + rest + tail) == Success(uuid)
  {
    var line := lead + (first + space + uuid + rest);
    assert '\n' !in line by {
      assert IsWhitespace('\n');
      assert '\n' !in lead && '\n' !in first && '\n' !in space && '\n' !in uuid;
    }
    assert line + tail == lead + first + space + uuid + rest + tail;
    ProbedUuidOfLine(line, tail);
    FieldsSkipSeparators(lead, first + space + uuid + rest, IsWhitespace);
    SecondWord(first, space, uuid, rest);
  }

  /**
   * A first line holding at most one word, with any whitespace around it,
   * fails with "Failed to extract UUID", whatever follows the line.
   */
  lemma ProbedUuidNeedsTwoWords(lead: string, word: string, trail: string, tail: string)
    requires InlineSpace(lead) && InlineSpace(trail)
    requires word == [] || IsField(word, IsWhitespace)
    requires tail == [] || tail[0] == '\n'
    requires lead + word + trail + tail != []
    ensures ProbedUuid(lead + word + trail + tail) == Failure(NO_UUID_TOKEN)
  {
    var line := lead + word + trail;
    assert '\n' !in line by {
      assert IsWhitespace('\n');
      assert '\n' !in lead && '\n' !in word && '\n' !in trail;
    }
    assert line + tail == lead + word + trail + tail;
    ProbedUuidOfLine(line, tail);
    FieldsOfOneRun(lead, word, trail, IsWhitespace);
  }

  // ------------------------------------------------------------ the matching image

  /** The message when no used image carries the bundle's UUID. */
  function NoSymbolsMessage(dsymPath: string): (r: string)
    ensures |r| > |dsymPath| && r[..|dsymPath|] == dsymPath
  {
    dsymPath + " does not contain debug symbols for this crash"
  }

  /** The first used image whose UUID equals `uuid`, ignoring case. */
  function FindImage(images: seq<UsedImage>, uuid: string): (r: Option<nat>)
    ensures r.Some? ==> r.value < |images| && ToLower(images[r.value].uuid) == ToLower(uuid)
    ensures r.Some? ==> forall j | 0 <= j < r.value :: ToLower(images[j].uuid) != ToLower(uuid)
    ensures r.None? <==> forall j | 0 <= j < |images| :: ToLower(images[j].uuid) != ToLower(uuid)
  {
    FirstIndex(images, (image: UsedImage) => ToLower(image.uuid) == ToLower(uuid))
  }

  // ------------------------------------------------------------ the offset arguments

  /** `format!("0x{:x}", offset)` for an `i64`: a negative offset prints as its two's complement. */
  function OffsetArgument(offset: I64): (r: string)
    ensures |r| >= 3 && r[..2] == "0x"
    ensures forall i | 2 <= i < |r| :: IsLowerHexDigit(r[i])
    ensures HexValue(r[2..]) == AsU64(offset)
    ensures r[2] == '0' ==> r == "0x0"
  {
    var digits := LowerHex(AsU64(offset));
    LowerHexRoundTrip(AsU64(offset));
    var r := "0x" + digits;
    assert r[2..] == digits;
    r
  }

  /** One offset argument per frame, in frame order. */
  function OffsetArguments(frames: seq<Frame>): (r: seq<string>)
    ensures |r| == |frames|
    ensures forall i | 0 <= i < |frames| :: r[i] == OffsetArgument(frames[i].imageOffset)
  {
    seq(|frames|, i requires 0 <= i < |frames| => OffsetArgument(frames[i].imageOffset))
  }

  // ------------------------------------------------------------ normalising the resolver output

  predicate IsCloseParen(c: char) {
    c == ')'
  }

  /** `kept` is `full` without its trailing run of `)`. */
  predicate ClosingParensStripped(full: string, kept: string) {
    && |kept| <= |full|
    && kept == full[..|kept|]
    && (forall k | |kept| <= k < |full| :: full[k] == ')')
    && (kept == [] || kept[|kept| - 1] != ')')
  }

  /** `s.splitn(2, pat).nth(1).unwrap_or("")`: the text after the first `pat`, or nothing. */
  function AfterFirst(s: string, pat: string): (r: string)
    ensures Contains(s, pat) ==> exists i :: FirstOccurrence(s, pat, i) && r == s[i + |pat|..]
    ensures !Contains(s, pat) ==> r == []
  {
    match SplitOnce(s, pat)
    case None => []
    case Some((head, after)) =>
      assert after == s[|head| + |pat|..];
      after
  }

  /**
   * The path printed for a resolved frame: inside a crate checkout it starts
   * at `crates/`, otherwise it is the absolute path; the `)` that closed the
   * resolver's parenthesis, and any before it, are dropped.
   */
  function SourcePath(source: string): (r: string)
    ensures Contains(source, "/crates/") ==>
              |r| >= 7 && r[..7] == "crates/" && ClosingParensStripped(AfterFirst(source, "/crates/"), r[7..])
    ensures !Contains(source, "/crates/") ==> |r| >= 1 && r[0] == '/' && ClosingParensStripped(source, r[1..])
  {
    if Contains(source, "/crates/") then
      var cratePath := AfterFirst(source, "/crates/");
      var r := "crates/" + TrimEndMatches(cratePath, IsCloseParen);
      assert r[..7] == "crates/" && r[7..] == TrimEndMatches(cratePath, IsCloseParen);
      r
    else
      var r := "/" + TrimEndMatches(source, IsCloseParen);
      assert r[1..] == TrimEndMatches(source, IsCloseParen);
      r
  }

  /** A path never spans lines. */
  lemma SourcePathOneLine(source: string)
    requires '\n' !in source
    ensures '\n' !in SourcePath(source)
  {
    var r := SourcePath(source);
    if Contains(source, "/crates/") {
      var after := AfterFirst(source, "/crates/");
      var i :| FirstOccurrence(source, "/crates/", i) && after == source[i + 8..];
      SliceOmits(source, i + 8, |source|, '\n');
      SliceOmits(after, 0, |r| - 7, '\n');
      assert r == "crates/" + r[7..];
    } else {
      SliceOmits(source, 0, |r| - 1, '\n');
      assert r == "/" + r[1..];
    }
  }

  /**
   * One line of resolver output: `symbol (in image) (/path/file.rs:line)`
   * becomes `path:\tsymbol`; a line without `(in`, or without `(/` after
   * it, is kept as it is.
   */
  function RewriteLine(line: string): (r: string)
    ensures !Contains(line, "(in") ==> r == line
    ensures '\n' !in line ==> '\n' !in r
  {
    match SplitOnce(line, "(in")
    case None => line
    case Some((symbol, rest)) =>
      match SplitOnce(rest, "(/")
      case None => line
      case Some((middle, source)) =>
        RewrittenOneLine(symbol, "(in" + middle + "(/", source);
        SourcePath(source) + ":\t" + Trim(symbol)
  }

  /** A rewritten line is built from pieces of the original line, so it spans no more lines than the original. */
  lemma RewrittenOneLine(symbol: string, middle: string, source: string)
    ensures '\n' !in symbol + middle + source ==> '\n' !in SourcePath(source) + ":\t" + Trim(symbol)
  {
    var line := symbol + middle + source;
    if '\n' !in line {
      SliceOmits(line, 0, |symbol|, '\n');
      SliceOmits(line, |line| - |source|, |line|, '\n');
      assert line[..|symbol|] == symbol && line[|line| - |source|..] == source;
      SourcePathOneLine(source);
      TrimMatchesOmits(symbol, IsWhitespace, '\n');
    }
  }

  /** A resolved frame is rewritten from the text around the first `(in` and the first `(/` after it. */
  lemma RewritesResolvedFrame(line: string, i: nat, k: nat)
    requires FirstOccurrence(line, "(in", i)
    requires FirstOccurrence(line[i + 3..], "(/", k)
    ensures RewriteLine(line) == SourcePath(line[i + 3 + k + 2..]) + ":\t" + Trim(line[..i])
  {
    SplitOnceAt(line, "(in", i);
    var rest := line[i + 3..];
    SplitOnceAt(rest, "(/", k);
    assert rest[k + 2..] == line[i + 3 + k + 2..];
  }

  /** A line with `(in` but no `(/` after its first `(in` is kept as it is. */
  lemma KeepsLineWithoutSource(line: string, i: nat)
    requires FirstOccurrence(line, "(in", i)
    requires !Contains(line[i + 3..], "(/")
    ensures RewriteLine(line) == line
  {
    SplitOnceAt(line, "(in", i);
  }

  /** What the normalising loop leaves in its buffer for the resolver's lines. */
  function Normalised(lines: seq<string>): string {
    Terminated(Map(lines, RewriteLine), '\n')
  }

  /** Pushing a path onto the buffer piece by piece, as the normalising loop does, pushes `SourcePath`. */
  lemma SourcePathPushed(before: string, source: string)
    ensures Contains(source, "/crates/")
            ==> before + "crates/" + TrimEndMatches(AfterFirst(source, "/crates/"), IsCloseParen) == before + SourcePath(source)
    ensures !Contains(source, "/crates/")
            ==> before + "/" + TrimEndMatches(source, IsCloseParen) == before + SourcePath(source)
  {
  }

  /** How `RewriteLine` reads a line, step by step. */
  lemma RewriteLineSteps(line: string)
    ensures SplitOnce(line, "(in").None? ==> RewriteLine(line) == line
    ensures SplitOnce(line, "(in").Some? && SplitOnce(SplitOnce(line, "(in").value.1, "(/").None?
            ==> RewriteLine(line) == line
    ensures SplitOnce(line, "(in").Some? && SplitOnce(SplitOnce(line, "(in").value.1, "(/").Some?
            ==> RewriteLine(line) == SourcePath(SplitOnce(SplitOnce(line, "(in").value.1, "(/").value.1)
                                     + ":\t" + Trim(SplitOnce(line, "(in").value.0)
  {
  }

  /** The buffer after a path, `:`, a tab, a symbol and a newline were pushed in turn. */
  lemma Reassociate(before: string, path: string, symbol: string)
    ensures before + path + ":" + "\t" + symbol + "\n" == before + (path + ":\t" + symbol) + "\n"
  {
    assert ":" + "\t" == ":\t";
  }

  /** The loop over `atos` output lines, appending each rewritten line and a newline to the buffer. */
  method Normalise(resolved: string) returns (out: string)
    ensures out == Normalised(Split(resolved, "\n"))
  {
    var lines := Split(resolved, "\n");
    out := [];
    for i := 0 to |lines|
      invariant out == Terminated(Map(lines[..i], RewriteLine), '\n')
    {
      var line := lines[i];
      ghost var before := out;
      assert Terminated(Map(lines[..i + 1], RewriteLine), '\n') == before + RewriteLine(line) + "\n" by {
        MapSnoc(lines, i, RewriteLine);
        TerminatedSnoc(Map(lines[..i], RewriteLine), RewriteLine(line), '\n');
      }
      var cut := SplitOnce(line, "(in");
      if cut.None? {
        assert RewriteLine(line) == line by {
          RewriteLineSteps(line);
        }
        out := out + line + "\n";
        continue;
      }
      var symbol := cut.value.0;
      var cut2 := SplitOnce(cut.value.1, "(/");
      if cut2.None? {
        assert RewriteLine(line) == line by {
          RewriteLineSteps(line);
        }
        out := out + line + "\n";
        continue;
      }
      var source := cut2.value.1;
      assert RewriteLine(line) == SourcePath(source) + ":\t" + Trim(symbol) by {
        RewriteLineSteps(line);
      }
      SourcePathPushed(before, source);
      if Contains(source, "/crates/") {
        var cratePath := AfterFirst(source, "/crates/");
        out := out + "crates/";
        out := out + TrimEndMatches(cratePath, IsCloseParen);
      } else {
        out := out + "/";
        out := out + TrimEndMatches(source, IsCloseParen);
      }
      out := out + ":";
      out := out + "\t";
      out := out + Trim(symbol);
      out := out + "\n";
      Reassociate(before, SourcePath(source), Trim(symbol));
    }
    assert lines[..|lines|] == lines;
  }

  /**
   * Each `\n`-separated piece of the resolver output, the empty one after a
   * final newline included, becomes exactly one output line ending in `\n`:
   * its rewrite.
   */
  lemma OneLinePerPiece(resolved: string)
    ensures Split(Normalised(Split(resolved, "\n")), "\n") == Map(Split(resolved, "\n"), RewriteLine) + [""]
  {
    var lines := Split(resolved, "\n");
    SplitPiecesAvoidSeparator(resolved, "\n");
    forall i | 0 <= i < |lines| ensures '\n' !in Map(lines, RewriteLine)[i] {
      ElementOccurs(lines[i], '\n');
    }
    SplitTerminated(Map(lines, RewriteLine), '\n');
  }

  // ------------------------------------------------------------ rendering

  /** Frames from crash handling and unwinding, which are not printed. */
  predicate IsNoise(symbol: Option<string>) {
    symbol.Some? &&
      (|| Contains(symbol.value, "pthread_kill")
       || Contains(symbol.value, "panic")
       || Contains(symbol.value, "backtrace")
       || Contains(symbol.value, "rust_begin_unwind")
       || Contains(symbol.value, "abort"))
  }

  /** `unwrap_or_default` on an optional text. */
  function TextOrEmpty(o: Option<string>): string {
    match o
    case None => []
    case Some(s) => s
  }

  /** Printing this frame cannot index past the used images. */
  predicate InRange(frame: Frame, images: seq<UsedImage>, target: nat) {
    frame.imageIndex == target || AsU64(frame.imageIndex) < |images|
  }

  /** What one frame prints: its block if it is in the bundle's image, else the image name and the symbol. */
  function FrameLine(frame: Frame, block: string, images: seq<UsedImage>, target: nat): string
    requires InRange(frame, images, target)
  {
    if frame.imageIndex == target then block
    else TextOrEmpty(images[AsU64(frame.imageIndex)].name) + "\t" + TextOrEmpty(frame.symbol)
  }

  /** Iterator `zip`: pairs by position, as many as the shorter side has. */
  function Zip<A, B>(a: seq<A>, b: seq<B>): (r: seq<(A, B)>)
    ensures |r| == if |a| <= |b| then |a| else |b|
    ensures forall i | 0 <= i < |r| :: r[i] == (a[i], b[i])
  {
    var n := if |a| <= |b| then |a| else |b|;
    seq(n, i requires 0 <= i < n => (a[i], b[i]))
  }

  /** Every printed frame can be printed without indexing out of bounds. */
  predicate Renderable(pairs: seq<(Frame, string)>, images: seq<UsedImage>, target: nat) {
    forall i | 0 <= i < |pairs| :: !IsNoise(pairs[i].0.symbol) ==> InRange(pairs[i].0, images, target)
  }

  /** The lines the rendering loop prints for `pairs`, in order. */
  function Emitted(pairs: seq<(Frame, string)>, images: seq<UsedImage>, target: nat): seq<string>
    requires Renderable(pairs, images, target)
  {
    if pairs == [] then []
    else
      var last := pairs[|pairs| - 1];
      Emitted(pairs[..|pairs| - 1], images, target)
        + if IsNoise(last.0.symbol) then [] else [FrameLine(last.0, last.1, images, target)]
  }

  /** The loop over frames paired with blocks, skipping noise and printing one line per remaining frame. */
  method Render(frames: seq<Frame>, blocks: seq<string>, images: seq<UsedImage>, target: nat)
    returns (out: seq<string>)
    requires Renderable(Zip(frames, blocks), images, target)
    ensures out == Emitted(Zip(frames, blocks), images, target)
  {
    var pairs := Zip(frames, blocks);
    out := [];
    for i := 0 to |pairs|
      invariant out == Emitted(pairs[..i], images, target)
    {
      assert pairs[..i + 1][..i] == pairs[..i];
      var frame := frames[i];
      if IsNoise(frame.symbol) {
        continue;
      }
      if frame.imageIndex == target {
        out := out + [blocks[i]];
      } else {
        out := out + [TextOrEmpty(images[AsU64(frame.imageIndex)].name) + "\t" + TextOrEmpty(frame.symbol)];
      }
    }
    assert pairs[..|pairs|] == pairs;
  }

  predicate Printed(pair: (Frame, string)) {
    !IsNoise(pair.0.symbol)
  }

  /** Each pair's line. */
  function FrameLines(pairs: seq<(Frame, string)>, images: seq<UsedImage>, target: nat): (r: seq<string>)
    requires forall i | 0 <= i < |pairs| :: InRange(pairs[i].0, images, target)
    ensures |r| == |pairs|
    ensures forall i | 0 <= i < |pairs| :: r[i] == FrameLine(pairs[i].0, pairs[i].1, images, target)
  {
    seq(|pairs|, i requires 0 <= i < |pairs| => FrameLine(pairs[i].0, pairs[i].1, images, target))
  }

  /**
   * Rendering is filtering then printing: the noise frames are dropped and
   * every other pair, in order, prints exactly its own line.
   */
  lemma {:induction false} EmittedIsFilterThenPrint(pairs: seq<(Frame, string)>, images: seq<UsedImage>, target: nat)
    requires Renderable(pairs, images, target)
    ensures var kept := Filter(pairs, Printed);
            (forall i | 0 <= i < |kept| :: InRange(kept[i].0, images, target))
            && Emitted(pairs, images, target) == FrameLines(kept, images, target)
    decreases |pairs|
  {
    var kept := Filter(pairs, Printed);
    FilterMembers(pairs, Printed);
    forall i | 0 <= i < |kept| ensures InRange(kept[i].0, images, target) {
      assert kept[i] in kept;
    }
    if pairs != [] {
      var init := pairs[..|pairs| - 1];
      var last := pairs[|pairs| - 1];
      assert pairs == init + [last];
      EmittedIsFilterThenPrint(init, images, target);
      var front := Filter(init, Printed);
      var tail := if Printed(last) then [last] else [];
      assert kept == front + tail by {
        FilterAppend(init, [last], Printed);
        assert [last][1..] == [];
      }
      FrameLinesAppend(front, tail, images, target);
    }
  }

  /** Printing two runs of pairs one after the other prints the lines of each. */
  lemma FrameLinesAppend(front: seq<(Frame, string)>, tail: seq<(Frame, string)>, images: seq<UsedImage>, target: nat)
    requires forall i | 0 <= i < |front + tail| :: InRange((front + tail)[i].0, images, target)
    ensures forall i | 0 <= i < |front| :: InRange(front[i].0, images, target)
    ensures forall i | 0 <= i < |tail| :: InRange(tail[i].0, images, target)
    ensures FrameLines(front + tail, images, target) == FrameLines(front, images, target) + FrameLines(tail, images, target)
  {
    assert forall i | 0 <= i < |front| :: front[i] == (front + tail)[i];
    assert forall i | 0 <= i < |tail| :: tail[i] == (front + tail)[|front| + i];
  }

  /** Without noise every pair is printed, position by position. */
  lemma NoNoisePrintsEveryPair(pairs: seq<(Frame, string)>, images: seq<UsedImage>, target: nat)
    requires forall i | 0 <= i < |pairs| :: !IsNoise(pairs[i].0.symbol) && InRange(pairs[i].0, images, target)
    ensures |Emitted(pairs, images, target)| == |pairs|
    ensures forall i | 0 <= i < |pairs| ::
              Emitted(pairs, images, target)[i] == FrameLine(pairs[i].0, pairs[i].1, images, target)
  {
    EmittedIsFilterThenPrint(pairs, images, target);
    FilterKeepsAll(pairs, Printed);
  }

  /** Rendering two runs of pairs one after the other renders each run in turn. */
  lemma EmittedAppend(front: seq<(Frame, string)>, back: seq<(Frame, string)>, images: seq<UsedImage>, target: nat)
    requires Renderable(front, images, target) && Renderable(back, images, target)
    ensures Renderable(front + back, images, target)
    ensures Emitted(front + back, images, target) == Emitted(front, images, target) + Emitted(back, images, target)
  {
    var pairs := front + back;
    forall i | 0 <= i < |pairs| && !IsNoise(pairs[i].0.symbol) ensures InRange(pairs[i].0, images, target) {
      if i < |front| {
        assert pairs[i] == front[i];
      } else {
        assert pairs[i] == back[i - |front|];
      }
    }
    EmittedIsFilterThenPrint(pairs, images, target);
    EmittedIsFilterThenPrint(front, images, target);
    EmittedIsFilterThenPrint(back, images, target);
    FilterAppend(front, back, Printed);
    FrameLinesAppend(Filter(front, Printed), Filter(back, Printed), images, target);
  }

  /** The pairs around one pair are renderable when the whole is. */
  lemma RenderableAround(front: seq<(Frame, string)>, pair: (Frame, string), back: seq<(Frame, string)>,
                         images: seq<UsedImage>, target: nat)
    requires Renderable(front + [pair] + back, images, target)
    ensures Renderable(front, images, target) && Renderable(back, images, target)
    ensures !IsNoise(pair.0.symbol) ==> InRange(pair.0, images, target)
  {
    var pairs := front + [pair] + back;
    assert forall i | 0 <= i < |front| :: front[i] == pairs[i];
    assert pairs[|front|] == pair;
    assert forall i | 0 <= i < |back| :: back[i] == pairs[|front| + 1 + i];
  }

  /** A noise frame prints nothing, wherever it stands among the pairs. */
  lemma NoiseIsSkipped(front: seq<(Frame, string)>, pair: (Frame, string), back: seq<(Frame, string)>,
                       images: seq<UsedImage>, target: nat)
    requires IsNoise(pair.0.symbol)
    requires Renderable(front + [pair] + back, images, target)
    ensures Renderable(front + back, images, target)
    ensures Emitted(front + [pair] + back, images, target) == Emitted(front + back, images, target)
  {
    RenderableAround(front, pair, back, images, target);
    assert Emitted([pair], images, target) == [] by {
      assert [pair][..0] == [];
    }
    EmittedAppend(front, [pair], images, target);
    EmittedAppend(front + [pair], back, images, target);
    EmittedAppend(front, back, images, target);
  }

  /**
   * Any other frame, one without a symbol included, prints exactly its own
   * line, between the lines of the pairs before it and those after it.
   */
  lemma OtherFrameIsPrinted(front: seq<(Frame, string)>, pair: (Frame, string), back: seq<(Frame, string)>,
                            images: seq<UsedImage>, target: nat)
    requires !IsNoise(pair.0.symbol)
    requires Renderable(front + [pair] + back, images, target)
    ensures InRange(pair.0, images, target)
    ensures Renderable(front, images, target) && Renderable(back, images, target)
    ensures Emitted(front + [pair] + back, images, target)
            == Emitted(front, images, target) + [FrameLine(pair.0, pair.1, images, target)] + Emitted(back, images, target)
  {
    RenderableAround(front, pair, back, images, target);
    assert Emitted([pair], images, target) == [FrameLine(pair.0, pair.1, images, target)] by {
      assert [pair][..0] == [];
    }
    EmittedAppend(front, [pair], images, target);
    EmittedAppend(front + [pair], back, images, target);
  }

  // ------------------------------------------------------------ the whole run

  datatype RunError =
    | Reported(message: string)
    /** Indexing the used images with an out-of-range frame image index. */
    | IndexPanic

  /** The frame blocks: the demangled text cut at every blank line. */
  function Blocks(demangled: string): (r: seq<string>)
    ensures |r| >= 1
    ensures Join(r, "\n\n") == demangled
    ensures CutAtFirst(r, "\n\n")
    ensures !Contains(r[|r| - 1], "\n\n")
  {
    JoinSplit(demangled, "\n\n");
    SplitCutsAtFirst(demangled, "\n\n");
    SplitLastPiece(demangled, "\n\n");
    Split(demangled, "\n\n")
  }

  /**
   * Three newlines in a row are cut after the first two: the newline left
   * over starts the next block instead of ending the previous one.
   */
  lemma BlocksCutAtFirstBlankLine()
    ensures Blocks("a\n\n\n") == ["a", "\n"]
  {
    var parts := ["a", "\n"];
    assert Join(parts, "\n\n") == "a\n\n\n" by {
      assert parts[1..] == ["\n"];
    }
    var first := "a" + "\n\n";
    assert FirstOccurrence(first, "\n\n", 1) by {
      assert first[0..2][0] == 'a';
      assert !OccursAt(first, "\n\n", 0);
      assert first[1..3] == "\n\n";
    }
    assert !Contains("\n", "\n\n");
    SplitUnique("a\n\n\n", "\n\n", parts);
  }

  /**
   * `main` after argument handling: parse the report, read the bundle's
   * UUID, find its image, and print the faulting thread's frames.
   */
  method Run(report: seq<byte>, parseJson: seq<byte> -> Result<Json, string>, dsymPath: string,
             uuidProbe: string, resolve: seq<string> -> string, demangle: string -> string)
    returns (r: Result<seq<string>, RunError>)
    ensures Parse(report, parseJson).Failure? ==> r == Failure(Reported(Message(Parse(report, parseJson).error)))
    ensures Parse(report, parseJson).Success? && ProbedUuid(uuidProbe).Failure?
            ==> r == Failure(Reported(ProbedUuid(uuidProbe).error))
    ensures Parse(report, parseJson).Success? && ProbedUuid(uuidProbe).Success?
            && FindImage(Parse(report, parseJson).value.body.usedImages, ProbedUuid(uuidProbe).value).None?
            ==> r == Failure(Reported(NoSymbolsMessage(dsymPath)))
    ensures Parse(report, parseJson).Success? && ProbedUuid(uuidProbe).Success?
            && FindImage(Parse(report, parseJson).value.body.usedImages, ProbedUuid(uuidProbe).value).Some?
            ==> var file := Parse(report, parseJson).value;
                var images := file.body.usedImages;
                var target := FindImage(images, ProbedUuid(uuidProbe).value).value;
                match FaultingThread(file)
                case None => r == Success([])
                case Some(thread) =>
                  var blocks := Blocks(demangle(Normalised(Split(resolve(OffsetArguments(thread.frames)), "\n"))));
                  var pairs := Zip(thread.frames, blocks);
                  if Renderable(pairs, images, target) then r == Success(Emitted(pairs, images, target))
                  else r == Failure(IndexPanic)
  {
    var parsed := Parse(report, parseJson);
    if parsed.Failure? {
      return Failure(Reported(Message(parsed.error)));
    }
    var file := parsed.value;
    var uuid := ProbedUuid(uuidProbe);
    if uuid.Failure? {
      return Failure(Reported(uuid.error));
    }
    var target := FindImage(file.body.usedImages, uuid.value);
    if target.None? {
      return Failure(Reported(NoSymbolsMessage(dsymPath)));
    }
    var thread := FaultingThread(file);
    if thread.None? {
      return Success([]);
    }
    var frames := thread.value.frames;
    var resolved := resolve(OffsetArguments(frames));
    var normalised := Normalise(resolved);
    var blocks := Blocks(demangle(normalised));
    if !Renderable(Zip(frames, blocks), file.body.usedImages, target.value) {
      return Failure(IndexPanic);
    }
    var out := Render(frames, blocks, file.body.usedImages, target.value);
    return Success(out);
  }
}
