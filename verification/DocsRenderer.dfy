/** The block parser of the documentation builder: what it makes of every line, and that it ends. */
module DocsRenderer {

  // ---- strings ------------------------------------------------------------------------

  predicate IsSpace(c: char) {
    c in {' ', '\t', '\n', '\r', '\U{000B}', '\U{000C}'}
  }

  predicate Starts(s: string, prefix: string)
    ensures Starts(s, prefix) ==> |s| >= |prefix|
  {
    prefix <= s
  }

  function LeftStripped(s: string): (r: string)
    ensures |r| <= |s| && (r != [] ==> !IsSpace(r[0]))
  {
    if s != [] && IsSpace(s[0]) then LeftStripped(s[1..]) else s
  }

  function RightStripped(s: string): (r: string)
    ensures |r| <= |s|
  {
    if s != [] && IsSpace(s[|s| - 1]) then RightStripped(s[..|s| - 1]) else s
  }

  function Stripped(s: string): string {
    RightStripped(LeftStripped(s))
  }

  /** lstrip(" ") */
  function WithoutBlanks(s: string): (r: string)
    ensures |r| <= |s|
  {
    if s != [] && s[0] == ' ' then WithoutBlanks(s[1..]) else s
  }

  /** A quoted line loses the blanks behind its mark, those and nothing else. */
  lemma {:induction false} BlanksAreCut(s: string)
    ensures var r := WithoutBlanks(s);
            && s[|s| - |r|..] == r && (r != [] ==> r[0] != ' ')
            && forall k :: 0 <= k < |s| - |r| ==> s[k] == ' '
  {
    if s != [] && s[0] == ' ' {
      BlanksAreCut(s[1..]);
    }
  }

  function TotalChars(lines: seq<string>): nat {
    if lines == [] then 0 else TotalChars(lines[..|lines| - 1]) + |lines[|lines| - 1]|
  }

  // ---- what a line is -----------------------------------------------------------------

  const FENCE := "```"

  predicate Blank(line: string) {
    Stripped(line) == ""
  }

  predicate Separator(line: string) {
    Stripped(line) in {"---", "***", "___"}
  }

  /** A line no paragraph takes, because it looks like the start of another block. */
  predicate Refused(line: string) {
    var s := LeftStripped(line);
    Starts(s, "#") || Starts(s, ">") || Starts(s, "- ") || Starts(s, "|") || Starts(s, FENCE) || Starts(s, "---")
  }

  predicate AlignChar(c: char) {
    IsSpace(c) || c in {':', '|', '-'}
  }

  /** The test the alignment row of a table must pass: nothing but its characters, and a bar after the first. */
  predicate AlignRow(line: string) {
    (forall i :: 0 <= i < |line| ==> AlignChar(line[i])) && exists j :: 1 <= j < |line| && line[j] == '|'
  }

  /** The regular expression `^\|?[\s:|-]+\|[\s:|-]*$`, read as what its parts match: an optional bar of
      `bar` characters, at least one character up to j, a bar at j, and the rest. */
  ghost predicate MatchesAlign(line: string, bar: nat, j: nat) {
    && bar <= 1 && bar < j < |line|
    && (bar == 1 ==> line[0] == '|')
    && (forall i :: bar <= i < j ==> AlignChar(line[i]))
    && line[j] == '|'
    && (forall i :: j < i < |line| ==> AlignChar(line[i]))
  }

  lemma AlignRowIsTheExpression(line: string)
    ensures AlignRow(line) <==> exists bar, j :: MatchesAlign(line, bar, j)
  {
    if AlignRow(line) {
      var j :| 1 <= j < |line| && line[j] == '|';
      assert MatchesAlign(line, 0, j);
    }
  }

  // ---- dedenting ----------------------------------------------------------------------------

  predicate FenceMark(line: string) {
    Starts(LeftStripped(line), FENCE)
  }

  /** Whether an odd number of fence marks stands before line k. */
  predicate InFence(lines: seq<string>, k: nat)
    requires k <= |lines|
  {
    k > 0 && (InFence(lines, k - 1) != FenceMark(lines[k - 1]))
  }

  /** Lines outside a fence lose their indentation. */
  function Dedented(lines: seq<string>): (r: seq<string>)
    ensures |r| == |lines|
  {
    seq(|lines|, k requires 0 <= k < |lines| => if InFence(lines, k) then lines[k] else LeftStripped(lines[k]))
  }

  method Dedent(lines: seq<string>) returns (dedented: seq<string>)
    ensures dedented == Dedented(lines)
  {
    dedented := [];
    var inFence := false;
    for k := 0 to |lines|
      invariant inFence == InFence(lines, k)
      invariant dedented == Dedented(lines)[..k]
    {
      dedented := dedented + [if inFence then lines[k] else LeftStripped(lines[k])];
      if Starts(LeftStripped(lines[k]), FENCE) {
        inFence := !inFence;
      }
    }
  }

  lemma {:induction false} DedentedChars(raw: seq<string>, lines: seq<string>)
    requires |raw| == |lines| && forall k :: 0 <= k < |raw| ==> |lines[k]| <= |raw[k]|
    ensures TotalChars(lines) <= TotalChars(raw)
  {
    if raw != [] {
      DedentedChars(raw[..|raw| - 1], lines[..|lines| - 1]);
    }
  }

  // ---- blocks ---------------------------------------------------------------------------------

  /** A block and the lines it was made of, from `from` up to `to`. */
  datatype Placed = Placed(block: Block, from: nat, to: nat)

  datatype Block =
    | Fence(lang: string, body: seq<string>)
    | Heading(level: nat, text: string)
    | Table(head: string, align: string, rows: seq<string>)
    | Quote(inner: seq<Placed>)
    | Bullets(items: seq<string>)
    | Paragraph(texts: seq<string>)

  function Unquoted(lines: seq<string>): (r: seq<string>)
    requires forall k :: 0 <= k < |lines| ==> Starts(lines[k], ">")
    ensures |r| == |lines|
  {
    seq(|lines|, k requires 0 <= k < |lines| && Starts(lines[k], ">") => WithoutBlanks(lines[k][1..]))
  }

  /** The block says what its lines say, and takes every line it could: `lines` are its own, `next` the one
      after them. */
  ghost predicate Faithful(block: Block, lines: seq<string>, next: seq<string>)
    decreases block, 1
  {
    match block
    case Fence(lang, body) =>
      && lines != [] && Starts(lines[0], FENCE) && lang == Stripped(lines[0][3..])
      && (forall k :: 0 <= k < |body| ==> !Starts(body[k], FENCE))
      && |body| < |lines| && body == lines[1..|body| + 1]
      && (|lines| == |body| + 1 ==> next == [])
      && (|lines| > |body| + 1 ==> |lines| == |body| + 2 && Starts(lines[|body| + 1], FENCE))
    case Heading(level, text) =>
      && |lines| == 1 && 1 <= level <= |lines[0]|
      && (forall k :: 0 <= k < level ==> lines[0][k] == '#')
      && (level < |lines[0]| ==> lines[0][level] != '#')
      && text == Stripped(lines[0][level..])
    case Table(head, align, rows) =>
      && lines == [head, align] + rows && Starts(head, "|") && AlignRow(align)
      && (forall k :: 0 <= k < |rows| ==> Starts(rows[k], "|"))
      && (next != [] ==> !Starts(next[0], "|"))
    case Quote(inner) =>
      && lines != [] && (forall k :: 0 <= k < |lines| ==> Starts(lines[k], ">"))
      && Rendered(block, Dedented(Unquoted(lines)))
      && (next != [] ==> !Starts(next[0], ">"))
    case Bullets(items) =>
      && lines != [] && |items| == |lines|
      && (forall k :: 0 <= k < |lines| ==> Starts(lines[k], "- ") && items[k] == Stripped(lines[k][2..]))
      && (next != [] ==> !Starts(next[0], "- "))
    case Paragraph(texts) =>
      && lines != [] && |texts| == |lines|
      && (forall k :: 0 <= k < |lines| ==> !Blank(lines[k]) && texts[k] == Stripped(lines[k]))
      && if Refused(lines[0]) then
           && |lines| == 1 && !Starts(lines[0], FENCE) && !Starts(lines[0], "#") && !Starts(lines[0], ">")
           && !Starts(lines[0], "- ") && !Separator(lines[0])
         else && (forall k :: 0 <= k < |lines| ==> !Refused(lines[k]))
              && (next != [] ==> Blank(next[0]) || Refused(next[0]))
  }

  /** Line i belongs to one of the blocks. */
  ghost predicate Claimed(placed: seq<Placed>, i: int) {
    exists b :: 0 <= b < |placed| && placed[b].from <= i < placed[b].to
  }

  /** The blocks of a quote, or of the whole document as one, stand in order without overlapping, each faithful
      to its lines; the lines between them are blank or separators. */
  ghost predicate Rendered(document: Block, lines: seq<string>)
    requires document.Quote?
    decreases document, 0
  {
    && (forall b :: 0 <= b < |document.inner| ==>
          && (b > 0 ==> document.inner[b - 1].to <= document.inner[b].from)
          && var p := document.inner[b];
             p.from < p.to <= |lines| && Faithful(p.block, lines[p.from..p.to], After(lines, p.to)))
    && (forall i :: 0 <= i < |lines| && !Claimed(document.inner, i) ==> Blank(lines[i]) || Separator(lines[i]))
  }

  /** The line at `to`, if there is one. */
  function After(lines: seq<string>, to: nat): seq<string>
    requires to <= |lines|
  {
    if to < |lines| then [lines[to]] else []
  }

  // ---- rendering ----------------------------------------------------------------------------------

  method TakeWhile(lines: seq<string>, from: nat, prefix: string) returns (to: nat)
    requires from <= |lines|
    ensures from <= to <= |lines| && (forall k :: from <= k < to ==> Starts(lines[k], prefix))
    ensures to < |lines| ==> !Starts(lines[to], prefix)
    ensures from < |lines| && Starts(lines[from], prefix) ==> from < to
  {
    to := from;
    while to < |lines| && Starts(lines[to], prefix)
      invariant from <= to <= |lines| && forall k :: from <= k < to ==> Starts(lines[k], prefix)
    {
      to := to + 1;
    }
  }

  /** From the mark at `i`: the index is left one past the end when the fence is never closed. */
  method TakeFence(lines: seq<string>, start: nat) returns (block: Block, i: nat)
    requires start < |lines| && Starts(lines[start], FENCE)
    ensures start < i <= |lines| + 1
    ensures var to := if i > |lines| then |lines| else i;
            Faithful(block, lines[start..to], After(lines, to))
  {
    var body := [];
    i := start + 1;
    while i < |lines| && !Starts(lines[i], FENCE)
      invariant start < i <= |lines| && body == lines[start + 1..i]
      invariant forall k :: 0 <= k < |body| ==> !Starts(body[k], FENCE)
    {
      body := body + [lines[i]];
      i := i + 1;
    }
    block := Fence(Stripped(lines[start][3..]), body);
    i := i + 1;
  }

  method TakeHeading(line: string) returns (block: Block)
    requires Starts(line, "#")
    ensures forall next :: Faithful(block, [line], next)
  {
    var level := 0;
    while level < |line| && line[level] == '#'
      invariant level <= |line| && forall k :: 0 <= k < level ==> line[k] == '#'
    {
      level := level + 1;
    }
    block := Heading(level, Stripped(line[level..]));
  }

  method TakeTable(lines: seq<string>, start: nat) returns (block: Block, i: nat)
    requires start + 1 < |lines| && Starts(lines[start], "|") && AlignRow(lines[start + 1])
    ensures start < i <= |lines| && Faithful(block, lines[start..i], After(lines, i))
  {
    hide AlignRow;
    i := TakeWhile(lines, start + 2, "|");
    block := Table(lines[start], lines[start + 1], lines[start + 2..i]);
  }

  method TakeBullets(lines: seq<string>, start: nat) returns (block: Block, i: nat)
    requires start < |lines| && Starts(lines[start], "- ")
    ensures start < i <= |lines| && Faithful(block, lines[start..i], After(lines, i))
  {
    i := TakeWhile(lines, start, "- ");
    block := Bullets(seq(i - start, k requires 0 <= k < i - start => Stripped(lines[start + k][2..])));
  }

  /** A line nothing claims, not even the paragraph, is taken verbatim on its own. */
  method TakeParagraph(lines: seq<string>, start: nat) returns (block: Block, i: nat)
    requires start < |lines| && !Blank(lines[start]) && !Separator(lines[start])
    requires !Starts(lines[start], FENCE) && !Starts(lines[start], "#")
    requires !Starts(lines[start], ">") && !Starts(lines[start], "- ")
    ensures start < i <= |lines| && Faithful(block, lines[start..i], After(lines, i))
  {
    hide Blank, Separator, Refused, Stripped;
    var texts := [];
    i := start;
    while i < |lines| && !Blank(lines[i]) && !Refused(lines[i])
      invariant start <= i <= |lines| && |texts| == i - start
      invariant forall k :: start <= k < i ==>
                  !Blank(lines[k]) && !Refused(lines[k]) && texts[k - start] == Stripped(lines[k])
    {
      texts := texts + [Stripped(lines[i])];
      i := i + 1;
    }
    if texts == [] {
      texts := [Stripped(lines[i])];
      i := i + 1;
    }
    block := Paragraph(texts);
  }

  lemma {:induction false} CharsConcat(a: seq<string>, b: seq<string>)
    ensures TotalChars(a + b) == TotalChars(a) + TotalChars(b)
  {
    if b == [] {
      assert a + b == a;
    } else {
      CharsConcat(a, b[..|b| - 1]);
      assert (a + b)[..|a + b| - 1] == a + b[..|b| - 1];
    }
  }

  lemma SliceChars(lines: seq<string>, from: nat, to: nat)
    requires from <= to <= |lines|
    ensures TotalChars(lines[from..to]) <= TotalChars(lines)
  {
    hide TotalChars;
    assert lines == lines[..from] + lines[from..to] + lines[to..];
    CharsConcat(lines[..from] + lines[from..to], lines[to..]);
    CharsConcat(lines[..from], lines[from..to]);
  }

  lemma {:induction false} UnquotedChars(lines: seq<string>)
    requires forall k :: 0 <= k < |lines| ==> Starts(lines[k], ">")
    ensures TotalChars(Unquoted(lines)) + |lines| <= TotalChars(lines)
  {
    if lines != [] {
      var front := lines[..|lines| - 1];
      UnquotedChars(front);
      assert Unquoted(lines)[..|front|] == Unquoted(front);
      assert Starts(lines[|front|], ">");
    }
  }

  /** What is inside a quote has fewer characters than the document around it. */
  lemma QuoteIsShorter(raw: seq<string>, from: nat, to: nat)
    requires from < to <= |raw| && forall k :: from <= k < to ==> Starts(Dedented(raw)[k], ">")
    ensures forall k :: 0 <= k < to - from ==> Starts(Dedented(raw)[from..to][k], ">")
    ensures TotalChars(Unquoted(Dedented(raw)[from..to])) < TotalChars(raw)
  {
    hide Starts, TotalChars, Unquoted;
    var lines := Dedented(raw);
    DedentedChars(raw, lines);
    SliceChars(lines, from, to);
    UnquotedChars(lines[from..to]);
  }

  /** The blocks found so far account for the lines before i. */
  ghost predicate RenderedUpTo(placed: seq<Placed>, lines: seq<string>, i: nat) {
    && i <= |lines| + 1
    && (forall b :: 0 <= b < |placed| ==>
          && (b > 0 ==> placed[b - 1].to <= placed[b].from)
          && var p := placed[b];
             p.from < p.to <= |lines| && p.to <= i && Faithful(p.block, lines[p.from..p.to], After(lines, p.to)))
    && (forall k :: 0 <= k < |lines| && k < i && !Claimed(placed, k) ==> Blank(lines[k]) || Separator(lines[k]))
  }

  lemma ClaimedStill(placed: seq<Placed>, p: Placed, k: int)
    ensures Claimed(placed, k) ==> Claimed(placed + [p], k)
  {
    if b :| 0 <= b < |placed| && placed[b].from <= k < placed[b].to {
      assert (placed + [p])[b] == placed[b];
    }
  }

  lemma Place(placed: seq<Placed>, lines: seq<string>, i: nat, p: Placed, next: nat)
    requires RenderedUpTo(placed, lines, i) && p.from == i < p.to <= |lines|
    requires next == p.to || next == p.to + 1 == |lines| + 1
    requires Faithful(p.block, lines[p.from..p.to], After(lines, p.to))
    ensures RenderedUpTo(placed + [p], lines, next)
  {
    hide Faithful, Blank, Separator;
    var more := placed + [p];
    forall k | 0 <= k < |lines| && k < next && !Claimed(more, k)
      ensures Blank(lines[k]) || Separator(lines[k])
    {
      assert more[|placed|] == p;
      assert k < i;
      ClaimedStill(placed, p, k);
    }
    forall b | 0 <= b < |more|
      ensures b > 0 ==> more[b - 1].to <= more[b].from
      ensures more[b].from < more[b].to <= |lines| && more[b].to <= next
      ensures Faithful(more[b].block, lines[more[b].from..more[b].to], After(lines, more[b].to))
    {
      if b < |placed| {
        assert more[b] == placed[b];
      }
    }
  }

  lemma Skip(placed: seq<Placed>, lines: seq<string>, i: nat)
    requires RenderedUpTo(placed, lines, i) && i < |lines| && (Blank(lines[i]) || Separator(lines[i]))
    ensures RenderedUpTo(placed, lines, i + 1)
  {
    hide Faithful, Blank, Separator, Claimed;
  }

  lemma NothingYet(lines: seq<string>)
    ensures RenderedUpTo([], lines, 0)
  {}

  lemma AllOfIt(placed: seq<Placed>, lines: seq<string>, i: nat)
    requires RenderedUpTo(placed, lines, i) && i >= |lines|
    ensures Rendered(Quote(placed), lines)
  {
    hide Faithful, Blank, Separator, Claimed;
  }

  method TakeQuote(raw: seq<string>, lines: seq<string>, start: nat) returns (block: Block, i: nat)
    requires lines == Dedented(raw) && start < |lines| && Starts(lines[start], ">")
    ensures start < i <= |lines| && Faithful(block, lines[start..i], After(lines, i))
    decreases TotalChars(raw), 0
  {
    hide Dedented, TotalChars, Rendered, Unquoted;
    i := TakeWhile(lines, start, ">");
    QuoteIsShorter(raw, start, i);
    var inner := RenderBlocks(Unquoted(lines[start..i]));
    block := Quote(inner);
  }

  /** Ends on every input: a quote inside has fewer characters, and each turn of the loop moves on by at least
      one line. Every line is in one block, in order, or is blank or a separator. */
  method RenderBlocks(raw: seq<string>) returns (placed: seq<Placed>)
    ensures Rendered(Quote(placed), Dedented(raw))
    decreases TotalChars(raw), 1
  {
    hide Faithful, RenderedUpTo, Dedented, TotalChars, Rendered, AlignRow;
    var lines := Dedent(raw);
    placed := [];
    var i: nat := 0;
    NothingYet(lines);
    while i < |lines|
      invariant RenderedUpTo(placed, lines, i)
      decreases |lines| + 1 - i
    {
      var line := lines[i];
      if Blank(line) {
        Skip(placed, lines, i);
        i := i + 1;
        continue;
      }
      var block, next;
      if Starts(line, FENCE) {
        block, next := TakeFence(lines, i);
      } else if Starts(line, "#") {
        block := TakeHeading(line);
        next := i + 1;
        assert lines[i..i + 1] == [line];
      } else if Separator(line) {
        Skip(placed, lines, i);
        i := i + 1;
        continue;
      } else if Starts(line, "|") && i + 1 < |lines| && AlignRow(lines[i + 1]) {
        block, next := TakeTable(lines, i);
      } else if Starts(line, ">") {
        block, next := TakeQuote(raw, lines, i);
      } else if Starts(line, "- ") {
        block, next := TakeBullets(lines, i);
      } else {
        block, next := TakeParagraph(lines, i);
      }
      var p := Placed(block, i, if next > |lines| then |lines| else next);
      Place(placed, lines, i, p, next);
      placed := placed + [p];
      i := next;
    }
    AllOfIt(placed, lines, i);
  }

  // ---- what that means for every line -----------------------------------------------------------

  /** No line belongs to two blocks, and a line with anything to say belongs to one. */
  lemma EveryLineOnce(placed: seq<Placed>, lines: seq<string>, i: nat)
    requires Rendered(Quote(placed), lines) && i < |lines|
    ensures forall a, b :: (0 <= a < b < |placed| && placed[a].from <= i < placed[a].to
                            ==> !(placed[b].from <= i < placed[b].to))
    ensures Claimed(placed, i) || Blank(lines[i]) || Separator(lines[i])
  {
    hide Faithful, Blank, Separator;
    forall a, b | 0 <= a < b < |placed|
      ensures placed[a].to <= placed[b].from
    {
      BlocksInOrder(placed, lines, a, b);
    }
  }

  lemma {:induction false} BlocksInOrder(placed: seq<Placed>, lines: seq<string>, a: nat, b: nat)
    requires Rendered(Quote(placed), lines) && a < b < |placed|
    ensures placed[a].to <= placed[b].from
  {
    hide Faithful, Blank, Separator, Claimed;
    if a + 1 < b {
      BlocksInOrder(placed, lines, a, b - 1);
    }
    var document := Quote(placed);
    assert document.inner[b - 1].to <= document.inner[b].from;
    assert document.inner[b - 1].from < document.inner[b - 1].to;
  }

  // ---- the layout of code ------------------------------------------------------------------------

  /** Whether an odd number of the parser's own marks, those at column 0, stands before line k. */
  predicate InCode(lines: seq<string>, k: nat)
    requires k <= |lines|
  {
    k > 0 && (InCode(lines, k - 1) != Starts(lines[k - 1], FENCE))
  }

  lemma {:induction false} KeepsFirst(s: string)
    requires s != [] && !IsSpace(s[0])
    ensures RightStripped(s) != [] && RightStripped(s)[0] == s[0]
  {
    if |s| > 1 && IsSpace(s[|s| - 1]) {
      KeepsFirst(s[..|s| - 1]);
    }
  }

  /** A mark at column 0 is neither skipped nor taken by a paragraph. */
  lemma MarkIsRefused(line: string)
    ensures Starts(line, FENCE) ==> line[0] == '`' && Refused(line) && !Blank(line) && !Separator(line)
  {
    if Starts(line, FENCE) {
      assert line[0] == '`' && LeftStripped(line) == line;
      KeepsFirst(line);
    }
  }

  /** None of a block's lines starts with a fence mark, unless the block is a fence. */
  lemma OnlyFencesStartWithMarks(block: Block, lines: seq<string>, next: seq<string>, k: nat)
    requires Faithful(block, lines, next) && !block.Fence? && k < |lines|
    ensures !Starts(lines[k], FENCE)
  {
    hide Rendered, Stripped, Blank, Separator;
    MarkIsRefused(lines[k]);
  }

  lemma NextInCode(lines: seq<string>, k: nat)
    requires k < |lines|
    ensures !InCode(lines, 0)
    ensures InCode(lines, k + 1) <==> InCode(lines, k) != Starts(lines[k], FENCE)
  {}

  lemma {:induction false} PlainBlock(lines: seq<string>, p: Placed, k: nat)
    requires p.from <= k <= p.to <= |lines| && p.from < p.to && !p.block.Fence?
    requires Faithful(p.block, lines[p.from..p.to], After(lines, p.to)) && !InCode(lines, p.from)
    ensures !InCode(lines, k)
  {
    hide Faithful, InCode;
    if k > p.from {
      PlainBlock(lines, p, k - 1);
      OnlyFencesStartWithMarks(p.block, lines[p.from..p.to], After(lines, p.to), k - 1 - p.from);
      NextInCode(lines, k - 1);
    }
  }

  lemma SliceOfSlice(lines: seq<string>, from: nat, to: nat, a: nat, b: nat)
    requires from <= to <= |lines| && a <= b <= to - from
    ensures lines[from..to][a..b] == lines[from + a..from + b]
  {
    var own := lines[from..to];
    forall k | 0 <= k < b - a
      ensures own[a..b][k] == lines[from + a..from + b][k]
    {
      assert own[a + k] == lines[from + (a + k)];
    }
  }

  /** What Faithful says of a fence, by line number. */
  lemma FenceLines(lines: seq<string>, p: Placed)
    requires p.from < p.to <= |lines| && p.block.Fence?
    requires Faithful(p.block, lines[p.from..p.to], After(lines, p.to))
    ensures var end := p.from + 1 + |p.block.body|;
            && end <= p.to && Starts(lines[p.from], FENCE) && p.block.body == lines[p.from + 1..end]
            && (forall k :: p.from < k < end ==> !Starts(lines[k], FENCE))
            && (p.to == end ==> p.to == |lines|)
            && (p.to > end ==> p.to == end + 1 && Starts(lines[end], FENCE))
  {
    SliceOfSlice(lines, p.from, p.to, 1, |p.block.body| + 1);
    forall k | p.from < k < p.from + 1 + |p.block.body|
      ensures !Starts(lines[k], FENCE)
    {
      assert lines[k] == p.block.body[k - p.from - 1];
    }
  }

  lemma {:induction false} InsideFence(lines: seq<string>, p: Placed, k: nat)
    requires p.from < p.to <= |lines| && p.block.Fence?
    requires Faithful(p.block, lines[p.from..p.to], After(lines, p.to))
    requires !InCode(lines, p.from) && p.from < k <= p.from + 1 + |p.block.body|
    ensures k <= p.to && InCode(lines, k)
  {
    hide Faithful, InCode;
    FenceLines(lines, p);
    NextInCode(lines, k - 1);
    if k - 1 > p.from {
      InsideFence(lines, p, k - 1);
    }
  }

  /** Where the parser is between blocks, an even number of its marks has gone by. */
  lemma {:induction false} OutsideBetweenBlocks(lines: seq<string>, placed: seq<Placed>, i: nat)
    requires Rendered(Quote(placed), lines) && i < |lines|
    requires forall b :: 0 <= b < |placed| ==> !(placed[b].from < i < placed[b].to)
    ensures !InCode(lines, i)
    decreases i, 0
  {
    hide *;
    if i == 0 {
      NextInCode(lines, 0);
    } else if b :| 0 <= b < |placed| && placed[b].from <= i - 1 < placed[b].to {
      StartIsOutside(lines, placed, b);
      BlocksAreNotEmpty(placed, lines, b);
      AfterBlock(lines, placed[b]);
    } else {
      OutsideBetweenBlocks(lines, placed, i - 1);
      AfterSkipped(lines, placed, i - 1);
    }
  }

  lemma {:induction false} StartIsOutside(lines: seq<string>, placed: seq<Placed>, b: nat)
    requires Rendered(Quote(placed), lines) && b < |placed|
    ensures !InCode(lines, placed[b].from)
    decreases placed[b].from, 1
  {
    hide *;
    BlocksAreNotEmpty(placed, lines, b);
    StartIsBetween(lines, placed, b);
    OutsideBetweenBlocks(lines, placed, placed[b].from);
  }

  lemma AfterBlock(lines: seq<string>, p: Placed)
    requires p.from < p.to < |lines| && !InCode(lines, p.from)
    requires Faithful(p.block, lines[p.from..p.to], After(lines, p.to))
    ensures !InCode(lines, p.to)
  {
    hide *;
    if p.block.Fence? {
      FenceLines(lines, p);
      InsideFence(lines, p, p.to - 1);
      NextInCode(lines, p.to - 1);
    } else {
      PlainBlock(lines, p, p.to);
    }
  }

  lemma AfterSkipped(lines: seq<string>, placed: seq<Placed>, i: nat)
    requires Rendered(Quote(placed), lines) && i < |lines| && !InCode(lines, i)
    requires forall b :: 0 <= b < |placed| ==> !(placed[b].from <= i < placed[b].to)
    ensures !InCode(lines, i + 1)
  {
    hide Faithful, InCode, Blank, Separator, Refused;
    assert !Claimed(placed, i);
    NextInCode(lines, i);
    MarkIsRefused(lines[i]);
  }

  lemma StartIsBetween(lines: seq<string>, placed: seq<Placed>, b: nat)
    requires Rendered(Quote(placed), lines) && b < |placed|
    ensures forall a :: 0 <= a < |placed| ==> !(placed[a].from < placed[b].from < placed[a].to)
  {
    hide Faithful, Blank, Separator, Claimed, Rendered;
    forall a | 0 <= a < |placed|
      ensures !(placed[a].from < placed[b].from < placed[a].to)
    {
      if a < b {
        BlocksInOrder(placed, lines, a, b);
      } else if b < a {
        BlocksInOrder(placed, lines, b, a);
        BlocksAreNotEmpty(placed, lines, b);
      }
    }
  }

  lemma BlocksAreNotEmpty(placed: seq<Placed>, lines: seq<string>, b: nat)
    requires Rendered(Quote(placed), lines) && b < |placed|
    ensures placed[b].from < placed[b].to <= |lines|
    ensures Faithful(placed[b].block, lines[placed[b].from..placed[b].to], After(lines, placed[b].to))
  {
    hide Faithful, Blank, Separator, Claimed;
    var document := Quote(placed);
    assert document.inner[b] == placed[b];
  }

  /** Line k is one of the body of fence b. */
  predicate InBody(placed: seq<Placed>, b: nat, k: int)
    requires b < |placed|
  {
    placed[b].block.Fence? && placed[b].from < k < placed[b].from + 1 + |placed[b].block.body|
  }

  /** The lines of the fences' bodies are those inside the parser's own marks that are no marks. */
  lemma BodiesAreInCode(lines: seq<string>, placed: seq<Placed>, k: nat)
    requires Rendered(Quote(placed), lines) && k < |lines|
    ensures (exists b :: 0 <= b < |placed| && InBody(placed, b, k)) <==> InCode(lines, k) && !Starts(lines[k], FENCE)
  {
    hide Rendered, Faithful, InCode, Starts;
    if b :| 0 <= b < |placed| && InBody(placed, b, k) {
      BlocksAreNotEmpty(placed, lines, b);
      StartIsOutside(lines, placed, b);
      FenceLines(lines, placed[b]);
      InsideFence(lines, placed[b], k);
    }
    if InCode(lines, k) && !Starts(lines[k], FENCE) {
      if forall b :: 0 <= b < |placed| ==> !(placed[b].from < k < placed[b].to) {
        OutsideBetweenBlocks(lines, placed, k);
      }
      var b :| 0 <= b < |placed| && placed[b].from < k < placed[b].to;
      BlocksAreNotEmpty(placed, lines, b);
      StartIsOutside(lines, placed, b);
      if placed[b].block.Fence? {
        FenceLines(lines, placed[b]);
      } else {
        PlainBlock(lines, placed[b], k);
      }
      assert InBody(placed, b, k);
    }
  }

  /** Every code sample and diagram keeps its layout: a fence's body is its lines as they were written. */
  ghost predicate Verbatim(raw: seq<string>, placed: seq<Placed>) {
    forall b :: 0 <= b < |placed| && placed[b].block.Fence? ==>
      var end := placed[b].from + 1 + |placed[b].block.body|;
      end <= |raw| && placed[b].block.body == raw[placed[b].from + 1..end]
  }

  /** Every line that is code to the parser is code to the dedenter too, or has no indentation to lose. */
  ghost predicate KeepsLayout(raw: seq<string>) {
    forall k :: 0 <= k < |raw| && InCode(Dedented(raw), k) && !Starts(Dedented(raw)[k], FENCE) ==>
      InFence(raw, k) || LeftStripped(raw[k]) == raw[k]
  }

  lemma BodyLine(raw: seq<string>, placed: seq<Placed>, b: nat, k: nat)
    requires Rendered(Quote(placed), Dedented(raw)) && b < |placed| && InBody(placed, b, k)
    ensures placed[b].from + 1 + |placed[b].block.body| <= |raw|
    ensures placed[b].block.body[k - placed[b].from - 1]
            == if InFence(raw, k) then raw[k] else LeftStripped(raw[k])
  {
    hide Rendered, Faithful, InFence;
    BlocksAreNotEmpty(placed, Dedented(raw), b);
    FenceLines(Dedented(raw), placed[b]);
  }

  /** Code keeps its layout if and only if no line that is code to the parser is taken for text, and
      dedented, by the dedenter. */
  lemma FencesAreVerbatim(raw: seq<string>, placed: seq<Placed>)
    requires Rendered(Quote(placed), Dedented(raw))
    ensures Verbatim(raw, placed) <==> KeepsLayout(raw)
  {
    hide Rendered, Faithful, InFence, InCode, Dedented, Starts;
    if Verbatim(raw, placed) {
      forall k | 0 <= k < |raw| && InCode(Dedented(raw), k) && !Starts(Dedented(raw)[k], FENCE)
        ensures InFence(raw, k) || LeftStripped(raw[k]) == raw[k]
      {
        BodiesAreInCode(Dedented(raw), placed, k);
        var b :| 0 <= b < |placed| && InBody(placed, b, k);
        BodyLine(raw, placed, b, k);
        var from := placed[b].from + 1;
        assert placed[b].block.body[k - from] == raw[from..from + |placed[b].block.body|][k - from];
      }
    }
    if KeepsLayout(raw) {
      forall b | 0 <= b < |placed| && placed[b].block.Fence?
        ensures placed[b].from + 1 + |placed[b].block.body| <= |raw|
        ensures placed[b].block.body == raw[placed[b].from + 1..placed[b].from + 1 + |placed[b].block.body|]
      {
        var p := placed[b];
        BlocksAreNotEmpty(placed, Dedented(raw), b);
        FenceLines(Dedented(raw), p);
        forall i | 0 <= i < |p.block.body|
          ensures p.block.body[i] == raw[p.from + 1 + i]
        {
          assert InBody(placed, b, p.from + 1 + i);
          BodiesAreInCode(Dedented(raw), placed, p.from + 1 + i);
          BodyLine(raw, placed, b, p.from + 1 + i);
        }
      }
    }
  }

  /** The lines that a quote's renderer is given: without their marks, and before they are dedented once more. */
  function QuotedLines(raw: seq<string>, p: Placed): seq<string>
    requires p.from <= p.to <= |raw| && forall k :: p.from <= k < p.to ==> Starts(Dedented(raw)[k], ">")
  {
    Unquoted(Dedented(raw)[p.from..p.to])
  }

  lemma QuoteIsRendered(document: Block, raw: seq<string>, b: nat)
    requires document.Quote? && Rendered(document, Dedented(raw)) && b < |document.inner|
    requires document.inner[b].block.Quote?
    ensures var p := document.inner[b];
            && p.from <= p.to <= |raw| && (forall k :: p.from <= k < p.to ==> Starts(Dedented(raw)[k], ">"))
            && Rendered(p.block, Dedented(QuotedLines(raw, p)))
  {
    hide Dedented, Starts, Rendered, Unquoted;
    var p := document.inner[b];
    QuoteIsFaithful(document, Dedented(raw), b);
    assert forall k :: p.from <= k < p.to ==> Dedented(raw)[p.from..p.to][k - p.from] == Dedented(raw)[k];
  }

  lemma QuoteIsFaithful(document: Block, lines: seq<string>, b: nat)
    requires document.Quote? && Rendered(document, lines) && b < |document.inner| && document.inner[b].block.Quote?
    ensures var p := document.inner[b];
            && p.from <= p.to <= |lines| && (forall k :: 0 <= k < p.to - p.from ==> Starts(lines[p.from..p.to][k], ">"))
            && Rendered(p.block, Dedented(Unquoted(lines[p.from..p.to])))
  {
    hide Starts, Unquoted, Dedented, Blank, Separator;
    var p := document.inner[b];
    assert Faithful(p.block, lines[p.from..p.to], After(lines, p.to));
  }

  /** The fences of the document and of every quote in it, however deep. */
  ghost predicate AllVerbatim(raw: seq<string>, document: Block)
    requires document.Quote? && Rendered(document, Dedented(raw))
    decreases document
  {
    && Verbatim(raw, document.inner)
    && forall b :: 0 <= b < |document.inner| && document.inner[b].block.Quote? ==>
         (QuoteIsRendered(document, raw, b);
          AllVerbatim(QuotedLines(raw, document.inner[b]), document.inner[b].block))
  }

  ghost predicate AllKeepLayout(raw: seq<string>, document: Block)
    requires document.Quote? && Rendered(document, Dedented(raw))
    decreases document
  {
    && KeepsLayout(raw)
    && forall b :: 0 <= b < |document.inner| && document.inner[b].block.Quote? ==>
         (QuoteIsRendered(document, raw, b);
          AllKeepLayout(QuotedLines(raw, document.inner[b]), document.inner[b].block))
  }

  /** The same of every fence, those inside quotes of quotes included: each quote is dedented once more. */
  lemma {:induction false} EveryFenceIsVerbatim(raw: seq<string>, document: Block)
    requires document.Quote? && Rendered(document, Dedented(raw))
    ensures AllVerbatim(raw, document) <==> AllKeepLayout(raw, document)
    decreases document
  {
    assert document == Quote(document.inner);
    FencesAreVerbatim(raw, document.inner);
    forall b | 0 <= b < |document.inner| && document.inner[b].block.Quote?
      ensures (QuoteIsRendered(document, raw, b);
               var lines, inner := QuotedLines(raw, document.inner[b]), document.inner[b].block;
               AllVerbatim(lines, inner) <==> AllKeepLayout(lines, inner))
    {
      QuoteIsRendered(document, raw, b);
      EveryFenceIsVerbatim(QuotedLines(raw, document.inner[b]), document.inner[b].block);
    }
    hide Rendered, Dedented, Verbatim, KeepsLayout, Unquoted, Starts;
  }

  // ---- when the two halves agree -------------------------------------------------------------------

  /** Inside what the dedenter takes for a fence every fence mark stands at column 0. */
  ghost predicate NoIndentedMarks(raw: seq<string>) {
    forall k :: 0 <= k < |raw| && InFence(raw, k) && FenceMark(raw[k]) ==> Starts(raw[k], FENCE)
  }

  lemma MarksAtTheEdge(line: string)
    ensures Starts(line, FENCE) ==> FenceMark(line)
    ensures FenceMark(line) <==> Starts(LeftStripped(line), FENCE)
  {
    if Starts(line, FENCE) {
      assert line[0] == '`' && LeftStripped(line) == line;
    }
  }

  /** The dedenter and the parser agree on whether line k is in a fence. */
  predicate Agree(raw: seq<string>, k: nat)
    requires k <= |raw|
  {
    InFence(raw, k) == InCode(Dedented(raw), k)
  }

  lemma NextAgrees(raw: seq<string>, k: nat)
    requires k < |raw| && Agree(raw, k)
    ensures Agree(raw, k + 1) <==> (InFence(raw, k) && FenceMark(raw[k]) ==> Starts(raw[k], FENCE))
  {
    MarksAtTheEdge(raw[k]);
  }

  /** They agree at every line if and only if no mark inside a fence is indented. */
  lemma HalvesAgree(raw: seq<string>)
    ensures (forall k :: 0 <= k <= |raw| ==> Agree(raw, k)) <==> NoIndentedMarks(raw)
  {
    hide InFence, Agree, FenceMark, Starts;
    if forall k :: 0 <= k <= |raw| ==> Agree(raw, k) {
      forall k | 0 <= k < |raw| && InFence(raw, k) && FenceMark(raw[k])
        ensures Starts(raw[k], FENCE)
      {
        assert Agree(raw, k) && Agree(raw, k + 1);
        NextAgrees(raw, k);
      }
    }
    if NoIndentedMarks(raw) {
      forall k | 0 <= k <= |raw|
        ensures Agree(raw, k)
      {
        AgreeUpTo(raw, k);
      }
    }
  }

  lemma {:induction false} AgreeUpTo(raw: seq<string>, k: nat)
    requires NoIndentedMarks(raw) && k <= |raw|
    ensures Agree(raw, k)
  {
    if k > 0 {
      hide InFence, Agree, FenceMark, Starts;
      AgreeUpTo(raw, k - 1);
      NextAgrees(raw, k - 1);
    }
  }

  /** Then every fence is kept as it was written. */
  lemma AgreeingHalvesKeepLayout(raw: seq<string>)
    requires NoIndentedMarks(raw)
    ensures KeepsLayout(raw)
  {
    forall k | 0 <= k < |raw| && InCode(Dedented(raw), k)
      ensures InFence(raw, k)
    {
      AgreeUpTo(raw, k);
    }
  }

  /** An indented mark inside a fence ends it for the dedenter but not for the parser: the fence that is
      rendered has lost the indentation of the code behind the mark. */
  lemma IndentedMarkLosesLayout(placed: seq<Placed>)
    requires Rendered(Quote(placed), Dedented(["```", " ```", " x"]))
    ensures placed != [] && placed[0].block == Fence("", [" ```", "x"])
    ensures !Verbatim(["```", " ```", " x"], placed)
  {
    var raw := ["```", " ```", " x"];
    WitnessIsDedented();
    var lines := ["```", " ```", "x"];
    hide Rendered, Faithful, Dedented, Stripped, Blank, Separator, Refused;
    MarkIsRefused(lines[0]);
    EveryLineOnce(placed, lines, 0);
    var b :| 0 <= b < |placed| && placed[b].from <= 0 < placed[b].to;
    if b > 0 {
      BlocksInOrder(placed, lines, b - 1, b);
      BlocksAreNotEmpty(placed, lines, b - 1);
    }
    BlocksAreNotEmpty(placed, lines, 0);
    var p := placed[0];
    if !p.block.Fence? {
      OnlyFencesStartWithMarks(p.block, lines[p.from..p.to], After(lines, p.to), 0);
      assert false;
    }
    FenceLines(lines, p);
    FenceHeading(p, lines[p.from..p.to], After(lines, p.to));
    assert lines[1][0] == ' ' && FENCE[0] == '`' && |lines[2]| < |FENCE|;
    assert p.block.body == lines[1..3] == [" ```", "x"];
    assert lines[p.from..p.to][0][3..] == "";
    assert raw[1..3][1] == " x";
  }

  lemma FenceHeading(p: Placed, lines: seq<string>, next: seq<string>)
    requires Faithful(p.block, lines, next) && p.block.Fence?
    ensures lines != [] && |lines[0]| >= 3 && p.block.lang == Stripped(lines[0][3..]) && Stripped("") == ""
  {}

  lemma WitnessIsDedented()
    ensures Dedented(["```", " ```", " x"]) == ["```", " ```", "x"]
  {
    var raw := ["```", " ```", " x"];
    assert LeftStripped("```") == "```" && LeftStripped(" ```") == "```" && LeftStripped(" x") == "x";
    assert FenceMark(raw[0]) && FenceMark(raw[1]);
    assert !InFence(raw, 0) && InFence(raw, 1) && !InFence(raw, 2);
  }
}
