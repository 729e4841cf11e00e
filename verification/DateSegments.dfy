/** particles/corpus/deposit.py: splitting a file into sections at standalone date lines. */
module DateSegments {
  import opened Options
  import opened Strings

  /** A section's date, as midnight UTC, and its text. */
  datatype Section = Section(date: Option<int>, text: string)

  /** A section while it is still a list of lines. */
  datatype Block = Block(date: Option<int>, lines: seq<string>)

  /** What the segmenter reads from configuration and from Python: the date a line
      states, if any (the line given without its `\r` and `\n`), and the whitespace class. */
  datatype Reading = Reading(dateOf: string -> Option<int>, isSpace: char -> bool)

  // ---- splitlines(keepends=True) ------------------------------------------------

  predicate LineBreak(c: char) {
    c in {'\n', '\r', '\U{0B}', '\U{0C}', '\U{1C}', '\U{1D}', '\U{1E}', '\U{85}', '\U{2028}', '\U{2029}'}
  }

  /** The length of the first line, its terminator (`\r\n` counts as one) included. */
  function FirstLine(text: string): (n: nat)
    requires text != ""
    ensures 1 <= n <= |text|
  {
    if LineBreak(text[0]) then
      if text[0] == '\r' && |text| > 1 && text[1] == '\n' then 2 else 1
    else if |text| == 1 then 1
    else 1 + FirstLine(text[1..])
  }

  function SplitLines(text: string): seq<string> {
    if text == "" then [] else [text[..FirstLine(text)]] + SplitLines(text[FirstLine(text)..])
  }

  /** `"".join(lines)`. */
  function Concat(lines: seq<string>): string {
    if lines == [] then "" else lines[0] + Concat(lines[1..])
  }

  /** `lines` is what splitting their own concatenation gives back. */
  predicate Canonical(lines: seq<string>) {
    SplitLines(Concat(lines)) == lines
  }

  lemma {:induction false} ConcatOfConcat(a: seq<string>, b: seq<string>)
    ensures Concat(a + b) == Concat(a) + Concat(b)
  {
    if a == [] { assert a + b == b; }
    else { assert (a + b)[1..] == a[1..] + b; ConcatOfConcat(a[1..], b); }
  }

  lemma {:induction false} ConcatOfSplitLines(text: string)
    ensures Concat(SplitLines(text)) == text
  {
    if text != "" {
      ConcatOfSplitLines(text[FirstLine(text)..]);
    }
  }

  lemma {:induction false} FirstLineOfPrefix(text: string, m: nat)
    requires text != "" && FirstLine(text) <= m <= |text|
    ensures FirstLine(text[..m]) == FirstLine(text)
  {
    if !LineBreak(text[0]) && |text| > 1 {
      if m > 1 {
        assert text[..m][1..] == text[1..][..m - 1];
        FirstLineOfPrefix(text[1..], m - 1);
      }
    }
  }

  lemma CanonicalHead(lines: seq<string>)
    requires Canonical(lines) && lines != []
    ensures Canonical(lines[1..]) && Concat(lines) != "" && FirstLine(Concat(lines)) == |lines[0]|
  {
    var text := Concat(lines);
    assert lines[0] == text[..FirstLine(text)];
    assert text[FirstLine(text)..] == Concat(lines[1..]);
  }

  /** Cutting a text between two of its lines leaves the lines on either side as they were. */
  lemma {:induction false} CanonicalPart(lines: seq<string>, from: nat, to: nat)
    requires Canonical(lines) && from <= to <= |lines|
    ensures Canonical(lines[from..to])
    decreases |lines|
  {
    if from == to {
    } else if from > 0 {
      CanonicalHead(lines);
      CanonicalPart(lines[1..], from - 1, to - 1);
      assert lines[1..][from - 1..to - 1] == lines[from..to];
    } else {
      CanonicalHead(lines);
      CanonicalPart(lines[1..], 0, to - 1);
      var part := lines[..to];
      assert lines[1..][..to - 1] == part[1..] && lines == part + lines[to..];
      ConcatOfConcat(part, lines[to..]);
      assert Concat(part) == Concat(lines)[..|Concat(part)|];
      FirstLineOfPrefix(Concat(lines), |Concat(part)|);
      assert Concat(part)[|lines[0]|..] == Concat(part[1..]);
    }
  }

  // ---- the reference segmentation -----------------------------------------------

  /** The date a raw line (terminator included) states. */
  function DateOf(raw: string, rd: Reading): Option<int> {
    rd.dateOf(RightStrip(raw, c => c == '\r' || c == '\n'))
  }

  predicate Dateless(lines: seq<string>, rd: Reading) {
    forall i :: 0 <= i < |lines| ==> DateOf(lines[i], rd).None?
  }

  /** How many lines run before the first date line. */
  function Run(lines: seq<string>, rd: Reading): (n: nat)
    ensures n <= |lines| && Dateless(lines[..n], rd)
    ensures n < |lines| ==> DateOf(lines[n], rd).Some?
  {
    if lines == [] || DateOf(lines[0], rd).Some? then 0
    else
      var n := Run(lines[1..], rd);
      assert forall k :: 0 < k < n + 1 ==> lines[k] == lines[1..][k - 1];
      n + 1
  }

  /** A line and everything up to the next date line, again and again. */
  function Blocks(lines: seq<string>, rd: Reading): (bs: seq<Block>)
    decreases |lines|
  {
    if lines == [] then []
    else
      var n := 1 + Run(lines[1..], rd);
      [Block(DateOf(lines[0], rd), lines[..n])] + Blocks(lines[n..], rd)
  }

  function Join(bs: seq<Block>): seq<Section> {
    if bs == [] then [] else [Section(bs[0].date, Concat(bs[0].lines))] + Join(bs[1..])
  }

  predicate Blank(text: string, rd: Reading) {
    Strip(text, rd.isSpace) == ""
  }

  function DropBlankPreamble(joined: seq<Section>, rd: Reading): seq<Section> {
    if joined != [] && joined[0].date.None? && Blank(joined[0].text, rd) then joined[1..] else joined
  }

  function Segment(text: string, rd: Reading): seq<Section> {
    DropBlankPreamble(Join(Blocks(SplitLines(text), rd)), rd)
  }

  // ---- the loop -----------------------------------------------------------------

  lemma BlocksOfOne(current: seq<string>, rd: Reading)
    requires current != [] && Dateless(current[1..], rd)
    ensures Blocks(current, rd) == [Block(DateOf(current[0], rd), current)]
  {
    var n := Run(current[1..], rd);
    assert n == |current| - 1;
    assert current[..|current|] == current && current[|current|..] == [];
  }

  lemma {:induction false} RunThenDate(before: seq<string>, rest: seq<string>, rd: Reading)
    requires Dateless(before, rd) && rest != [] && DateOf(rest[0], rd).Some?
    ensures Run(before + rest, rd) == |before|
  {
    if before == [] {
      assert before + rest == rest;
    } else {
      assert (before + rest)[1..] == before[1..] + rest;
      RunThenDate(before[1..], rest, rd);
    }
  }

  lemma BlocksStep(current: seq<string>, rest: seq<string>, rd: Reading)
    requires current != [] && Dateless(current[1..], rd)
    requires rest != [] && DateOf(rest[0], rd).Some?
    ensures Blocks(current + rest, rd) == [Block(DateOf(current[0], rd), current)] + Blocks(rest, rd)
  {
    var lines := current + rest;
    assert lines[1..] == current[1..] + rest;
    RunThenDate(current[1..], rest, rd);
    assert lines[..|current|] == current && lines[|current|..] == rest;
  }

  /** `done` blocks are closed and `pending` lines are still to be cut. */
  ghost predicate Cut(lines: seq<string>, done: seq<Block>, pending: seq<string>, rd: Reading) {
    Blocks(lines, rd) == done + Blocks(pending, rd)
  }

  lemma CutStep(lines: seq<string>, done: seq<Block>, current: seq<string>, rest: seq<string>, rd: Reading)
    requires Cut(lines, done, current + rest, rd)
    requires current != [] && Dateless(current[1..], rd)
    requires rest != [] ==> DateOf(rest[0], rd).Some?
    ensures Cut(lines, done + [Block(DateOf(current[0], rd), current)], rest, rd)
  {
    if rest == [] {
      assert current + rest == current;
      BlocksOfOne(current, rd);
    } else {
      BlocksStep(current, rest, rd);
    }
  }

  lemma Shift(current: seq<string>, lines: seq<string>, i: nat)
    requires i < |lines|
    ensures current + lines[i..] == (current + [lines[i]]) + lines[i + 1..]
  {
  }

  lemma DatelessGrows(current: seq<string>, raw: string, rd: Reading)
    requires current != [] ==> Dateless(current[1..], rd)
    requires DateOf(raw, rd).None?
    ensures Dateless((current + [raw])[1..], rd)
  {
    assert current != [] ==> (current + [raw])[1..] == current[1..] + [raw];
  }

  lemma CutDone(lines: seq<string>, done: seq<Block>, rd: Reading)
    requires Cut(lines, done, [], rd)
    ensures Blocks(lines, rd) == done
  {
  }

  /** Where the loop stands before line `i`: the open section's lines, its date, and the closed ones. */
  ghost predicate Scanned(lines: seq<string>, i: nat, blocks: seq<Block>, date: Option<int>, current: seq<string>, rd: Reading) {
    && i <= |lines|
    && (current == [] ==> i == 0 && blocks == [] && date == None)
    && (current != [] ==> DateOf(current[0], rd) == date && Dateless(current[1..], rd))
    && Cut(lines, blocks, current + lines[i..], rd)
  }

  lemma ScanStarts(lines: seq<string>, rd: Reading)
    ensures Scanned(lines, 0, [], None, [], rd)
  {
    assert [] + lines[0..] == lines;
  }

  lemma ScanDate(lines: seq<string>, i: nat, blocks: seq<Block>, date: Option<int>, current: seq<string>, rd: Reading)
    requires i < |lines| && Scanned(lines, i, blocks, date, current, rd) && DateOf(lines[i], rd).Some?
    ensures Scanned(lines, i + 1, if current != [] then blocks + [Block(date, current)] else blocks, DateOf(lines[i], rd), [lines[i]], rd)
  {
    if current != [] {
      CutStep(lines, blocks, current, lines[i..], rd);
    } else {
      assert current + lines[i..] == lines[i..];
    }
    assert [lines[i]] + lines[i + 1..] == lines[i..];
  }

  lemma ScanOther(lines: seq<string>, i: nat, blocks: seq<Block>, date: Option<int>, current: seq<string>, rd: Reading)
    requires i < |lines| && Scanned(lines, i, blocks, date, current, rd) && DateOf(lines[i], rd).None?
    ensures Scanned(lines, i + 1, blocks, date, current + [lines[i]], rd)
  {
    Shift(current, lines, i);
    DatelessGrows(current, lines[i], rd);
  }

  lemma ScanEnds(lines: seq<string>, blocks: seq<Block>, date: Option<int>, current: seq<string>, rd: Reading)
    requires Scanned(lines, |lines|, blocks, date, current, rd)
    ensures Blocks(lines, rd) == if current != [] then blocks + [Block(date, current)] else blocks
  {
    assert lines[|lines|..] == [];
    if current != [] {
      CutStep(lines, blocks, current, [], rd);
      CutDone(lines, blocks + [Block(date, current)], rd);
    }
  }

  /** The accumulating loop over the lines computes the reference segmentation. */
  method SegmentByDateLines(text: string, rd: Reading) returns (sections: seq<Section>)
    ensures sections == Segment(text, rd)
  {
    var lines := SplitLines(text);
    var blocks: seq<Block>, currentDate, current: seq<string> := [], None, [];
    ScanStarts(lines, rd);
    for i := 0 to |lines|
      invariant Scanned(lines, i, blocks, currentDate, current, rd)
    {
      var raw := lines[i];
      var parsed := DateOf(raw, rd);
      if parsed.Some? {
        ScanDate(lines, i, blocks, currentDate, current, rd);
        if current != [] { blocks := blocks + [Block(currentDate, current)]; }
        currentDate := parsed;
        current := [raw];
      } else {
        ScanOther(lines, i, blocks, currentDate, current, rd);
        current := current + [raw];
      }
    }
    ScanEnds(lines, blocks, currentDate, current, rd);
    if current != [] { blocks := blocks + [Block(currentDate, current)]; }
    sections := DropBlankPreamble(Join(blocks), rd);
  }

  // ---- what segmentation keeps --------------------------------------------------

  function Texts(sections: seq<Section>): string {
    if sections == [] then "" else sections[0].text + Texts(sections[1..])
  }

  /** The dates of the dated sections, in order. */
  function SectionDates(sections: seq<Section>): seq<int> {
    if sections == [] then []
    else (if sections[0].date.Some? then [sections[0].date.value] else []) + SectionDates(sections[1..])
  }

  /** The dates of the date lines, in order. */
  function LineDates(lines: seq<string>, rd: Reading): seq<int> {
    if lines == [] then []
    else (if DateOf(lines[0], rd).Some? then [DateOf(lines[0], rd).value] else []) + LineDates(lines[1..], rd)
  }

  lemma {:induction false} LineDatesSkip(lines: seq<string>, n: nat, rd: Reading)
    requires n <= |lines| && Dateless(lines[..n], rd)
    ensures LineDates(lines, rd) == LineDates(lines[n..], rd)
  {
    if n > 0 {
      assert lines[..n][0] == lines[0];
      assert lines[1..][..n - 1] == lines[..n][1..] && lines[1..][n - 1..] == lines[n..];
      LineDatesSkip(lines[1..], n - 1, rd);
    }
  }

  /** No text and no date line is lost when lines become blocks. */
  lemma {:induction false} BlocksLoseNothing(lines: seq<string>, rd: Reading)
    ensures Texts(Join(Blocks(lines, rd))) == Concat(lines)
    ensures SectionDates(Join(Blocks(lines, rd))) == LineDates(lines, rd)
    decreases |lines|
  {
    if lines != [] {
      var n := 1 + Run(lines[1..], rd);
      BlocksLoseNothing(lines[n..], rd);
      assert lines == lines[..n] + lines[n..];
      ConcatOfConcat(lines[..n], lines[n..]);
      assert lines[1..][..n - 1] == lines[1..n] && lines[1..][n - 1..] == lines[n..];
      LineDatesSkip(lines[1..], n - 1, rd);
    }
  }

  /** What was dropped before the first section. */
  function Dropped(text: string, rd: Reading): string {
    var joined := Join(Blocks(SplitLines(text), rd));
    if joined != [] && joined[0].date.None? && Blank(joined[0].text, rd) then joined[0].text else ""
  }

  /** Segmentation loses nothing: the text is a whitespace-only preamble followed by the
      sections, and the dated sections are the date lines, one to one and in order. */
  lemma SegmentationLosesNothing(text: string, rd: Reading)
    ensures text == Dropped(text, rd) + Texts(Segment(text, rd))
    ensures forall i :: 0 <= i < |Dropped(text, rd)| ==> rd.isSpace(Dropped(text, rd)[i])
    ensures SectionDates(Segment(text, rd)) == LineDates(SplitLines(text), rd)
  {
    ConcatOfSplitLines(text);
    BlocksLoseNothing(SplitLines(text), rd);
    StripTrims(Dropped(text, rd), rd.isSpace);
  }

  /** A section as emitted: its own lines, opening on its date line if it has one. */
  ghost predicate Wellformed(b: Block, rd: Reading) {
    b.lines != [] && Canonical(b.lines) && DateOf(b.lines[0], rd) == b.date && Dateless(b.lines[1..], rd)
  }

  /** Every block is well formed, and only the first may be dateless. */
  ghost predicate AllWellformed(bs: seq<Block>, rd: Reading) {
    && (forall i :: 0 <= i < |bs| ==> Wellformed(bs[i], rd))
    && (forall i :: 0 < i < |bs| ==> bs[i].date.Some?)
  }

  lemma AllWellformedGrows(b: Block, bs: seq<Block>, rd: Reading)
    requires Wellformed(b, rd) && AllWellformed(bs, rd)
    requires bs != [] ==> bs[0].date.Some?
    ensures AllWellformed([b] + bs, rd)
  {
  }

  lemma FirstBlockWellformed(lines: seq<string>, rd: Reading)
    requires Canonical(lines) && lines != []
    ensures var n := 1 + Run(lines[1..], rd);
      && Wellformed(Block(DateOf(lines[0], rd), lines[..n]), rd)
      && Canonical(lines[n..])
      && (n < |lines| ==> DateOf(lines[n], rd).Some?)
  {
    var n := 1 + Run(lines[1..], rd);
    CanonicalPart(lines, 0, n);
    CanonicalPart(lines, n, |lines|);
    assert lines[0..n] == lines[..n] && lines[n..|lines|] == lines[n..];
    assert lines[..n][1..] == lines[1..][..n - 1];
    if n < |lines| { assert lines[1..][n - 1] == lines[n]; }
  }

  lemma {:induction false} BlocksWellformed(lines: seq<string>, rd: Reading)
    requires Canonical(lines)
    ensures AllWellformed(Blocks(lines, rd), rd)
    ensures lines != [] ==> Blocks(lines, rd) != [] && Blocks(lines, rd)[0].date == DateOf(lines[0], rd)
    decreases |lines|
  {
    if lines != [] {
      FirstBlockWellformed(lines, rd);
      var n := 1 + Run(lines[1..], rd);
      var rest := Blocks(lines[n..], rd);
      BlocksWellformed(lines[n..], rd);
      if n == |lines| { assert rest == []; }
      AllWellformedGrows(Block(DateOf(lines[0], rd), lines[..n]), rest, rd);
    }
  }

  lemma {:induction false} JoinAt(bs: seq<Block>, i: nat)
    requires i < |bs|
    ensures |Join(bs)| == |bs| && Join(bs)[i] == Section(bs[i].date, Concat(bs[i].lines))
  {
    if |bs| > 1 { JoinAt(bs[1..], if i == 0 then 0 else i - 1); }
    else { assert bs[1..] == []; }
  }

  /** Only the first section can be dateless, and re-segmenting any section gives that section back. */
  lemma SectionsAreFixedPoints(text: string, rd: Reading)
    ensures forall i :: 0 < i < |Segment(text, rd)| ==> Segment(text, rd)[i].date.Some?
    ensures forall i :: 0 <= i < |Segment(text, rd)| ==> Segment(Segment(text, rd)[i].text, rd) == [Segment(text, rd)[i]]
  {
    var lines, sections := SplitLines(text), Segment(text, rd);
    var bs := Blocks(lines, rd);
    ConcatOfSplitLines(text);
    BlocksWellformed(lines, rd);
    forall i | 0 <= i < |sections|
      ensures i > 0 ==> sections[i].date.Some?
      ensures Segment(sections[i].text, rd) == [sections[i]]
    {
      if bs != [] { JoinAt(bs, 0); }
      var k := if |sections| < |Join(bs)| then i + 1 else i;
      JoinAt(bs, k);
      BlocksOfOne(bs[k].lines, rd);
      JoinAt([bs[k]], 0);
      assert [bs[k]][1..] == [];
      assert Join([bs[k]]) == [sections[i]];
    }
  }

  // ---- lines ------------------------------------------------------------------------

  /** A line is read without its terminator, whatever run of `\r` and `\n` that is. */
  lemma DateOfTerminatedLine(line: string, terminator: string, rd: Reading)
    requires forall i :: 0 <= i < |terminator| ==> terminator[i] == '\r' || terminator[i] == '\n'
    requires line == "" || (line[|line| - 1] != '\r' && line[|line| - 1] != '\n')
    ensures DateOf(line + terminator, rd) == rd.dateOf(line)
  {
    RightStripOf(line, terminator, c => c == '\r' || c == '\n');
  }

  /** The text is a line: it may break only at its end, where `\r\n` is one break. */
  predicate OneLine(line: string) {
    && line != ""
    && forall i :: 0 <= i < |line| - 1 && LineBreak(line[i]) ==> i == |line| - 2 && line[i] == '\r' && line[i + 1] == '\n'
  }

  lemma {:induction false} FirstLineIsALine(text: string)
    requires text != ""
    ensures OneLine(text[..FirstLine(text)])
    ensures FirstLine(text) < |text| ==> LineBreak(text[FirstLine(text) - 1])
    ensures FirstLine(text) < |text| && text[FirstLine(text) - 1] == '\r' ==> text[FirstLine(text)] != '\n'
  {
    if !LineBreak(text[0]) && |text| > 1 {
      FirstLineIsALine(text[1..]);
      var n := FirstLine(text[1..]);
      assert text[..n + 1] == [text[0]] + text[1..][..n];
      LongerLine(text[0], text[1..][..n]);
    }
  }

  lemma LongerLine(c: char, line: string)
    requires OneLine(line) && !LineBreak(c)
    ensures OneLine([c] + line)
  {
    var longer := [c] + line;
    forall i | 0 <= i < |longer| - 1 && LineBreak(longer[i]) ensures i == |longer| - 2 && longer[i] == '\r' && longer[i + 1] == '\n' {
      assert longer[i] == line[i - 1] && longer[i + 1] == line[i];
    }
  }

  /** Splitting cuts exactly at the breaks: each piece is one line, and every piece but the last ends
      in a break, which a following `\n` does not continue. */
  lemma {:induction false} SplitLinesAreLines(text: string, k: nat)
    requires k < |SplitLines(text)|
    ensures OneLine(SplitLines(text)[k])
    ensures k + 1 < |SplitLines(text)| ==>
      var line, next := SplitLines(text)[k], SplitLines(text)[k + 1];
      next != "" && LineBreak(line[|line| - 1]) && (line[|line| - 1] == '\r' ==> next[0] != '\n')
  {
    FirstLineIsALine(text);
    var rest := text[FirstLine(text)..];
    if k > 0 {
      SplitLinesAreLines(rest, k - 1);
    } else if rest != "" {
      FirstLineIsALine(rest);
    }
  }
}
