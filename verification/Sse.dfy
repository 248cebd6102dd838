/** The line parser of the event stream: readEvents in internal/core/streaming.go. */
module Sse {
  import opened Common

  datatype Event = Event(kind: string, data: string)

  /** The two accumulators of readEvents, and the events dispatched so far. */
  datatype Parser = Parser(eventType: string, data: string, dispatched: seq<Event>)

  const START := Parser("", "", [])

  /** unicode.IsSpace. */
  predicate IsSpace(c: char) {
    || c == ' ' || '\t' <= c <= '\r' || c as int == 0x85 || c as int == 0xA0
    || c as int == 0x1680 || 0x2000 <= c as int <= 0x200A || c as int == 0x2028 || c as int == 0x2029
    || c as int == 0x202F || c as int == 0x205F || c as int == 0x3000
  }

  /** strings.TrimSpace. */
  function Trim(s: string): string
    decreases |s|
  {
    if s != [] && IsSpace(s[0]) then Trim(s[1..])
    else if s != [] && IsSpace(s[|s| - 1]) then Trim(s[..|s| - 1])
    else s
  }

  function LineStep(p: Parser, raw: string): Parser {
    var line := Trim(raw);
    if line == "" then BlankStep(p)
    else if "event:" <= line then p.(eventType := Trim(line[6..]))
    else if "data:" <= line then p.(data := p.data + Trim(line[5..]))
    else p
  }

  function BlankStep(p: Parser): Parser {
    if p.eventType != "" && |p.data| > 0 then Parser("", "", p.dispatched + [Event(p.eventType, p.data)]) else p
  }

  function ParseLines(p: Parser, lines: seq<string>): Parser {
    if lines == [] then p else LineStep(ParseLines(p, lines[..|lines| - 1]), lines[|lines| - 1])
  }

  /** The position after the first line feed, or 0 when there is none. */
  function LineEnd(text: string): (n: nat)
    ensures n <= |text|
    ensures n > 0 ==> text[n - 1] == '\n' && '\n' !in text[..n - 1]
    ensures n == 0 ==> '\n' !in text
  {
    if text == [] then 0
    else if text[0] == '\n' then 1
    else
      var n := LineEnd(text[1..]);
      if n == 0 then 0
      else
        assert text[..n] == [text[0]] + text[1..][..n - 1];
        n + 1
  }

  /** The complete lines of a text, each with its line feed; text after the last one is never seen. */
  function Split(text: string): seq<string>
    decreases |text|
  {
    var n := LineEnd(text);
    if n == 0 then [] else [text[..n]] + Split(text[n..])
  }

  datatype End = Cancelled | EndOfStream

  /** readEvents: `cancelled(k)` tells whether the context is done before line k is read. */
  method ReadEvents(body: string, cancelled: nat -> bool) returns (dispatched: seq<Event>, end: End, read: nat)
    ensures read <= |Split(body)| && dispatched == ParseLines(START, Split(body)[..read]).dispatched
    ensures forall k :: 0 <= k < read ==> !cancelled(k)
    ensures if end.Cancelled? then cancelled(read) else read == |Split(body)| && !cancelled(read)
  {
    var rest := body;
    dispatched, read := [], 0;
    var eventType, data := "", "";
    ghost var lines := Split(body);
    while !cancelled(read)
      invariant Progress(lines, read, rest, Parser(eventType, data, dispatched))
      invariant forall k :: 0 <= k < read ==> !cancelled(k)
      decreases |rest|
    {
      var n := LineEnd(rest);
      if n == 0 {
        return dispatched, EndOfStream, read;
      }
      Advance(lines, read, rest, Parser(eventType, data, dispatched));
      eventType, data, dispatched := HandleLine(rest[..n], eventType, data, dispatched);
      rest, read := rest[n..], read + 1;
    }
    end := Cancelled;
  }

  /** So many lines are parsed, and the rest of the text holds the others. */
  ghost predicate Progress(lines: seq<string>, read: nat, rest: string, p: Parser) {
    read <= |lines| && Split(rest) == lines[read..] && ParseLines(START, lines[..read]) == p
  }

  /** The body of the reading loop, for one line. */
  method HandleLine(raw: string, eventType: string, data: string, dispatched: seq<Event>)
    returns (eventType': string, data': string, dispatched': seq<Event>)
    ensures Parser(eventType', data', dispatched') == LineStep(Parser(eventType, data, dispatched), raw)
  {
    eventType', data', dispatched' := eventType, data, dispatched;
    var line := Trim(raw);
    if line == "" {
      if eventType != "" && |data| > 0 {
        dispatched' := dispatched + [Event(eventType, data)];
        eventType', data' := "", "";
      }
      return;
    }
    if "event:" <= line {
      eventType' := Trim(line[6..]);
    } else if "data:" <= line {
      data' := data + Trim(line[5..]);
    }
  }

  lemma Advance(lines: seq<string>, read: nat, rest: string, p: Parser)
    requires Progress(lines, read, rest, p) && LineEnd(rest) > 0
    ensures Progress(lines, read + 1, rest[LineEnd(rest)..], LineStep(p, rest[..LineEnd(rest)]))
  {
    var n := LineEnd(rest);
    assert Split(rest) == [rest[..n]] + Split(rest[n..]);
    assert lines[read..][0] == lines[read] && lines[read..][1..] == lines[read + 1..];
    assert lines[..read + 1][..read] == lines[..read];
  }

  // ----- Joining streams -----

  lemma {:induction false} ParseAppend(p: Parser, a: seq<string>, b: seq<string>)
    ensures ParseLines(p, a + b) == ParseLines(ParseLines(p, a), b)
  {
    if b == [] {
      assert a + b == a;
    } else {
      ParseAppend(p, a, b[..|b| - 1]);
      assert (a + b)[..|a + b| - 1] == a + b[..|b| - 1];
    }
  }

  lemma {:induction false} ParseFrame(p: Parser, earlier: seq<Event>, lines: seq<string>)
    ensures ParseLines(p.(dispatched := earlier + p.dispatched), lines) ==
      ParseLines(p, lines).(dispatched := earlier + ParseLines(p, lines).dispatched)
  {
    if lines != [] {
      ParseFrame(p, earlier, lines[..|lines| - 1]);
    }
  }

  lemma {:induction false} LineEndFirst(line: string, rest: string)
    requires line != "" && line[|line| - 1] == '\n' && '\n' !in line[..|line| - 1]
    ensures LineEnd(line + rest) == |line|
  {
    if |line| > 1 {
      assert line[..|line| - 1][0] == line[0];
      assert line[1..][..|line| - 2] == line[..|line| - 1][1..];
      LineEndFirst(line[1..], rest);
      assert (line + rest)[1..] == line[1..] + rest;
    }
  }

  lemma SplitLine(line: string, rest: string)
    requires line != "" && line[|line| - 1] == '\n' && '\n' !in line[..|line| - 1]
    ensures Split(line + rest) == [line] + Split(rest)
  {
    LineEndFirst(line, rest);
    assert (line + rest)[..|line|] == line && (line + rest)[|line|..] == rest;
  }

  lemma {:induction false} SplitAppend(a: string, b: string)
    requires a != "" ==> a[|a| - 1] == '\n'
    ensures Split(a + b) == Split(a) + Split(b)
    decreases |a|
  {
    if a == "" {
      assert a + b == b;
    } else {
      var line, rest := FirstLine(a);
      SplitAppend(rest, b);
      SplitLine(line, rest);
      SplitLine(line, rest + b);
      Regroup(line, rest, b);
    }
  }

  lemma FirstLine(a: string) returns (line: string, rest: string)
    requires a != "" && a[|a| - 1] == '\n'
    ensures a == line + rest && |rest| < |a|
    ensures line != "" && line[|line| - 1] == '\n' && '\n' !in line[..|line| - 1]
    ensures rest != "" ==> rest[|rest| - 1] == '\n'
  {
    var n := LineEnd(a);
    assert a[|a| - 1] in a;
    line, rest := a[..n], a[n..];
    assert line[..|line| - 1] == a[..n - 1];
  }

  lemma Regroup(line: string, rest: string, b: string)
    ensures line + (rest + b) == line + rest + b
    ensures [line] + (Split(rest) + Split(b)) == [line] + Split(rest) + Split(b)
  {
  }

  /** Two streams joined where the first one ends an event parse as each does in turn. */
  lemma JoinedStreams(a: string, b: string)
    requires a != "" ==> a[|a| - 1] == '\n'
    requires ParseLines(START, Split(a)).eventType == ParseLines(START, Split(a)).data == ""
    ensures ParseLines(START, Split(a + b)).dispatched ==
      ParseLines(START, Split(a)).dispatched + ParseLines(START, Split(b)).dispatched
  {
    SplitAppend(a, b);
    ParseAppend(START, Split(a), Split(b));
    var earlier := ParseLines(START, Split(a)).dispatched;
    assert earlier + [] == earlier;
    ParseFrame(START, earlier, Split(b));
  }

  // ----- Blocks: what blank lines separate -----

  /** What a line means to the parser: a type, a chunk of data, a blank line, or nothing. */
  datatype Mark = SetType(kind: string) | AddData(chunk: string) | EndBlock | Skip

  function LineMark(raw: string): Mark {
    var line := Trim(raw);
    if line == "" then EndBlock
    else if "event:" <= line then SetType(Trim(line[6..]))
    else if "data:" <= line then AddData(Trim(line[5..]))
    else Skip
  }

  function Marks(lines: seq<string>): (marks: seq<Mark>)
    ensures |marks| == |lines|
  {
    seq(|lines|, i requires 0 <= i < |lines| => LineMark(lines[i]))
  }

  /** The blocks a blank line ends, and the marks after the last blank line. */
  function Cut(marks: seq<Mark>): (seq<seq<Mark>>, seq<Mark>) {
    if marks == [] then ([], [])
    else
      var last := marks[|marks| - 1];
      var (blocks, open) := Cut(marks[..|marks| - 1]);
      if last.EndBlock? then (blocks + [open], []) else (blocks, open + [last])
  }

  function Blocks(text: string): seq<seq<Mark>> {
    Cut(Marks(Split(text))).0
  }

  /** The type after a block, given the type before it. An empty `event:` line clears the type. */
  function Kind(block: seq<Mark>, before: string): string {
    if block == [] then before
    else
      var last := block[|block| - 1];
      if last.SetType? then last.kind else Kind(block[..|block| - 1], before)
  }

  function Chunks(block: seq<Mark>): seq<string> {
    if block == [] then []
    else
      var last := block[|block| - 1];
      Chunks(block[..|block| - 1]) + if last.AddData? then [last.chunk] else []
  }

  function Data(block: seq<Mark>): string {
    Flatten(Chunks(block))
  }

  function Fill(p: Parser, block: seq<Mark>): Parser {
    Parser(Kind(block, p.eventType), p.data + Data(block), p.dispatched)
  }

  function BlocksRun(blocks: seq<seq<Mark>>): Parser {
    if blocks == [] then START
    else BlankStep(Fill(BlocksRun(blocks[..|blocks| - 1]), blocks[|blocks| - 1]))
  }

  lemma BlockMore(block: seq<Mark>, mark: Mark, before: string)
    ensures Kind(block + [mark], before) == if mark.SetType? then mark.kind else Kind(block, before)
    ensures Data(block + [mark]) == Data(block) + if mark.AddData? then mark.chunk else ""
  {
    var chunks := Chunks(block);
    assert (block + [mark])[..|block|] == block;
    if mark.AddData? {
      assert (chunks + [mark.chunk])[..|chunks|] == chunks;
    } else {
      assert chunks + [] == chunks && Data(block) + "" == Data(block);
    }
  }

  function MarkStep(p: Parser, mark: Mark): Parser {
    match mark
    case SetType(kind) => p.(eventType := kind)
    case AddData(chunk) => p.(data := p.data + chunk)
    case EndBlock => BlankStep(p)
    case Skip => p
  }

  lemma LineMeans(p: Parser, raw: string)
    ensures LineStep(p, raw) == MarkStep(p, LineMark(raw))
  {
  }

  lemma FillMark(p: Parser, block: seq<Mark>, mark: Mark)
    requires !mark.EndBlock?
    ensures MarkStep(Fill(p, block), mark) == Fill(p, block + [mark])
  {
    BlockMore(block, mark, p.eventType);
    assert mark.AddData? ==> p.data + (Data(block) + mark.chunk) == p.data + Data(block) + mark.chunk;
  }

  /** The lines act on the parser as their blocks do. */
  lemma {:induction false} ParseBlocks(lines: seq<string>)
    ensures var (blocks, open) := Cut(Marks(lines)); ParseLines(START, lines) == Fill(BlocksRun(blocks), open)
  {
    if lines != [] {
      var n := |lines| - 1;
      ParseBlocks(lines[..n]);
      assert Marks(lines)[..n] == Marks(lines[..n]) && Marks(lines)[n] == LineMark(lines[n]);
      var (blocks, open) := Cut(Marks(lines[..n]));
      LineMeans(ParseLines(START, lines[..n]), lines[n]);
      if LineMark(lines[n]).EndBlock? {
        assert (blocks + [open])[..|blocks|] == blocks;
      } else {
        FillMark(BlocksRun(blocks), open, LineMark(lines[n]));
      }
    }
  }

  // ----- When messages stay apart -----

  predicate Complete(block: seq<Mark>) {
    Kind(block, "") != "" && Data(block) != ""
  }

  /** What a block dispatches by itself. */
  function Own(block: seq<Mark>): seq<Event> {
    if Complete(block) then [Event(Kind(block, ""), Data(block))] else []
  }

  function Owns(blocks: seq<seq<Mark>>): seq<Event> {
    if blocks == [] then [] else Owns(blocks[..|blocks| - 1]) + Own(blocks[|blocks| - 1])
  }

  /** With these accumulators left over from earlier blocks, the block still dispatches just what it
      does by itself: no data comes in front of its own, and it is not completed by what was left over. */
  predicate Separated(eventType: string, data: string, block: seq<Mark>) {
    if Complete(block) then data == "" else Kind(block, eventType) == "" || data + Data(block) == ""
  }

  /** What incomplete blocks since the last complete one leave over: the last type and all the data. */
  function Residue(blocks: seq<seq<Mark>>): (string, string) {
    if blocks == [] then ("", "")
    else
      var last := blocks[|blocks| - 1];
      var (kind, data) := Residue(blocks[..|blocks| - 1]);
      if Complete(last) then ("", "") else (Kind(last, kind), data + Data(last))
  }

  /** Every block is separated from what the blocks before it leave over. */
  predicate AllSeparated(blocks: seq<seq<Mark>>) {
    blocks != [] ==>
      var before, last := blocks[..|blocks| - 1], blocks[|blocks| - 1];
      AllSeparated(before) && Separated(Residue(before).0, Residue(before).1, last)
  }

  lemma {:induction false} KindBefore(block: seq<Mark>, before: string)
    ensures Kind(block, "") != "" ==> Kind(block, before) == Kind(block, "")
  {
    if block != [] {
      KindBefore(block[..|block| - 1], before);
    }
  }

  /** At any boundary, a block dispatches what it does by itself exactly when it is separated from what is
      left over; a complete block always dispatches and always clears the accumulators. */
  lemma BoundaryIff(p: Parser, block: seq<Mark>)
    ensures var q := BlankStep(Fill(p, block));
      && (q.dispatched == p.dispatched + Own(block) <==> Separated(p.eventType, p.data, block))
      && |q.dispatched| >= |p.dispatched| + |Own(block)|
      && (q.dispatched != p.dispatched ==> q.eventType == q.data == "")
      && (q.dispatched == p.dispatched ==> q == Fill(p, block) && !Complete(block))
  {
    KindBefore(block, p.eventType);
    var q := BlankStep(Fill(p, block));
    assert p.dispatched + [] == p.dispatched;
    if Complete(block) {
      assert q.dispatched[|p.dispatched|] == Event(Kind(block, ""), p.data + Data(block));
      assert (p.dispatched + Own(block))[|p.dispatched|] == Event(Kind(block, ""), Data(block));
      assert p.data == "" ==> p.data + Data(block) == Data(block);
      assert |p.data + Data(block)| == |p.data| + |Data(block)|;
    }
  }

  lemma SameCut<X>(a: seq<X>, b: seq<X>, c: seq<X>, d: seq<X>, s: seq<X>)
    requires s == a + b == c + d && |a| == |c|
    ensures a == c && b == d
  {
    assert a == s[..|a|] == c;
    assert b == s[|a|..] == d;
  }

  lemma {:induction false} SeparatedRun(blocks: seq<seq<Mark>>)
    ensures |BlocksRun(blocks).dispatched| >= |Owns(blocks)|
    ensures BlocksRun(blocks).dispatched == Owns(blocks) <==> AllSeparated(blocks)
    ensures AllSeparated(blocks) ==> (BlocksRun(blocks).eventType, BlocksRun(blocks).data) == Residue(blocks)
  {
    if blocks != [] {
      var n := |blocks| - 1;
      var before, p, q, own := blocks[..n], BlocksRun(blocks[..n]), BlocksRun(blocks), Own(blocks[n]);
      SeparatedRun(before);
      BoundaryIff(p, blocks[n]);
      if q.dispatched == Owns(before) + own {
        SameCut(p.dispatched, q.dispatched[|p.dispatched|..], Owns(before), own, q.dispatched);
      }
    }
  }

  /** For any stream: each block between blank lines is dispatched by itself, and nothing else is, if and
      only if every block is separated from what the blocks before it leave over. */
  lemma SeparatedIff(text: string)
    ensures ParseLines(START, Split(text)).dispatched == Owns(Blocks(text)) <==> AllSeparated(Blocks(text))
  {
    ParseBlocks(Split(text));
    SeparatedRun(Blocks(text));
  }

  /** Data in a block that sets no type of its own, or the empty type. */
  predicate Loose(block: seq<Mark>) {
    !Complete(block) && Data(block) != ""
  }

  predicate NoneLoose(blocks: seq<seq<Mark>>) {
    forall block :: block in blocks ==> !Loose(block)
  }

  lemma NoneLooseStep(blocks: seq<seq<Mark>>)
    requires blocks != []
    ensures var n := |blocks| - 1; NoneLoose(blocks) <==> NoneLoose(blocks[..n]) && !Loose(blocks[n])
  {
    assert blocks == blocks[..|blocks| - 1] + [blocks[|blocks| - 1]];
  }

  lemma {:induction false} LooseResidue(blocks: seq<seq<Mark>>)
    ensures NoneLoose(blocks) <==> AllSeparated(blocks) && Residue(blocks).1 == ""
  {
    if blocks != [] {
      var n := |blocks| - 1;
      var data := Residue(blocks[..n]).1;
      LooseResidue(blocks[..n]);
      NoneLooseStep(blocks);
      assert |data + Data(blocks[n])| == |data| + |Data(blocks[n])|;
    }
  }

  /** Unlike section 9.2.6 of the WHATWG HTML Living Standard, where a blank line clears both buffers: a
      stream whose last block is complete is dispatched block by block if and only if no block has data
      but no type of its own. Otherwise that data ends up in some other block's event. */
  lemma StaleDataLeaks(text: string)
    requires Blocks(text) != [] && Complete(Blocks(text)[|Blocks(text)| - 1])
    ensures ParseLines(START, Split(text)).dispatched == Owns(Blocks(text)) <==> NoneLoose(Blocks(text))
  {
    SeparatedIff(text);
    LooseResidue(Blocks(text));
  }

  // ----- Chunks of data -----

  /** Chunks joined as section 9.2.6 has it, a line feed between two of them. */
  function JoinedLf(chunks: seq<string>): string {
    if |chunks| <= 1 then Flatten(chunks) else JoinedLf(chunks[..|chunks| - 1]) + "\n" + chunks[|chunks| - 1]
  }

  /** The parser leaves the line feeds out, which shows as soon as a message has two chunks. */
  lemma {:induction false} LineFeedsLost(chunks: seq<string>)
    ensures |JoinedLf(chunks)| == |Flatten(chunks)| + if chunks == [] then 0 else |chunks| - 1
    ensures Flatten(chunks) == JoinedLf(chunks) <==> |chunks| <= 1
  {
    if |chunks| > 1 {
      LineFeedsLost(chunks[..|chunks| - 1]);
    }
  }

  // ----- Line ends -----

  lemma {:induction false} TrimRight(s: string, c: char)
    requires IsSpace(c)
    ensures Trim(s + [c]) == Trim(s)
    decreases |s|
  {
    if s == [] {
      assert [] + [c] == [c] && [c][1..] == [];
    } else if IsSpace(s[0]) {
      assert (s + [c])[1..] == s[1..] + [c];
      TrimRight(s[1..], c);
    } else {
      assert (s + [c])[..|s|] == s;
    }
  }

  /** Lines may end with a carriage return too, and with any of the spaces unicode.IsSpace knows. */
  lemma LineEnds(p: Parser, line: string)
    ensures LineStep(p, line + "\r\n") == LineStep(p, line + "\n") == LineStep(p, line)
    ensures LineStep(p, line + " ") == LineStep(p, line + "\t") == LineStep(p, line)
  {
    assert line + "\r\n" == line + ['\r'] + ['\n'];
    TrimRight(line, '\r');
    TrimRight(line + ['\r'], '\n');
    TrimRight(line, '\n');
    TrimRight(line, ' ');
    TrimRight(line, '\t');
  }

  function WithReturns(lines: seq<string>): seq<string> {
    seq(|lines|, i requires 0 <= i < |lines| => lines[i] + "\r\n")
  }

  function WithoutReturns(lines: seq<string>): seq<string> {
    seq(|lines|, i requires 0 <= i < |lines| => lines[i] + "\n")
  }

  /** A stream whose lines end with a carriage return and a line feed is parsed as one with line feeds. */
  lemma {:induction false} CarriageReturns(p: Parser, lines: seq<string>)
    ensures ParseLines(p, WithReturns(lines)) == ParseLines(p, WithoutReturns(lines))
  {
    if lines != [] {
      var n := |lines| - 1;
      CarriageReturns(p, lines[..n]);
      LineEnds(ParseLines(p, WithoutReturns(lines[..n])), lines[n]);
      assert WithReturns(lines)[..n] == WithReturns(lines[..n]);
      assert WithoutReturns(lines)[..n] == WithoutReturns(lines[..n]);
    }
  }

  // ----- Round trip -----

  predicate Spaces(s: string) {
    forall i :: 0 <= i < |s| ==> IsSpace(s[i]) && s[i] != '\n'
  }

  predicate Trimmed(s: string) {
    s != "" && !IsSpace(s[0]) && !IsSpace(s[|s| - 1]) && '\n' !in s
  }

  /** A line of a stream: a field with free white space around it, a line the parser ignores (comments,
      id and retry fields), or a blank line. */
  datatype Item =
    | TypeLine(lead: string, mid: string, text: string, trail: string)
    | DataLine(lead: string, mid: string, text: string, trail: string)
    | Ignored(line: string)
    | Blank(space: string)
  {
    predicate Valid() {
      match this
      case TypeLine(lead, mid, text, trail) => Spaces(lead) && Spaces(mid) && Spaces(trail) && Trimmed(text)
      case DataLine(lead, mid, text, trail) => Spaces(lead) && Spaces(mid) && Spaces(trail) && Trimmed(text)
      case Ignored(line) =>
        '\n' !in line && Trim(line + "\n") != "" && !("event:" <= Trim(line + "\n")) && !("data:" <= Trim(line + "\n"))
      case Blank(space) => Spaces(space)
    }

    function Render(): string {
      match this
      case TypeLine(lead, mid, text, trail) => lead + "event:" + mid + text + trail + "\n"
      case DataLine(lead, mid, text, trail) => lead + "data:" + mid + text + trail + "\n"
      case Ignored(line) => line + "\n"
      case Blank(space) => space + "\n"
    }
  }

  function RenderAll(items: seq<Item>): string {
    if items == [] then "" else items[0].Render() + RenderAll(items[1..])
  }

  function ItemMark(item: Item): Mark {
    match item
    case TypeLine(_, _, text, _) => SetType(text)
    case DataLine(_, _, text, _) => AddData(text)
    case Ignored(_) => Skip
    case Blank(_) => EndBlock
  }

  function ItemMarks(items: seq<Item>): seq<Mark> {
    seq(|items|, i requires 0 <= i < |items| => ItemMark(items[i]))
  }

  lemma {:induction false} TrimPadding(lead: string, core: string, trail: string)
    requires forall i :: 0 <= i < |lead| ==> IsSpace(lead[i])
    requires forall i :: 0 <= i < |trail| ==> IsSpace(trail[i])
    requires core != "" ==> !IsSpace(core[0]) && !IsSpace(core[|core| - 1])
    ensures Trim(lead + core + trail) == core
    decreases |lead| + |trail|
  {
    var s := lead + core + trail;
    if lead != "" {
      TrimPadding(lead[1..], core, trail);
      assert s[0] == lead[0] && s[1..] == lead[1..] + core + trail;
    } else if trail != "" {
      if core == "" {
        TrimPadding(trail[1..], "", "");
        assert s[0] == trail[0] && s[1..] == trail[1..] + "" + "";
      } else {
        TrimPadding("", core, trail[..|trail| - 1]);
        assert s[0] == core[0] && s[|s| - 1] == trail[|trail| - 1];
        assert s[..|s| - 1] == "" + core + trail[..|trail| - 1];
      }
    } else {
      assert s == core;
    }
  }

  lemma FieldStep(lead: string, field: string, mid: string, text: string, trail: string)
    requires Spaces(lead) && Spaces(mid) && Spaces(trail) && Trimmed(text)
    requires field != "" && !IsSpace(field[0])
    ensures var line := Trim(lead + field + mid + text + trail + "\n");
      line == field + (mid + text) && field <= line && Trim(line[|field|..]) == text
  {
    FieldShape(lead, field, mid, text, trail);
    var core := field + (mid + text);
    TrimPadding(lead, core, trail + "\n");
    TrimPadding(mid, text, "");
    assert mid + text + "" == mid + text;
    assert core[|field|..] == mid + text;
  }

  lemma FieldShape(lead: string, field: string, mid: string, text: string, trail: string)
    requires field != "" && text != ""
    ensures lead + field + mid + text + trail + "\n" == lead + (field + (mid + text)) + (trail + "\n")
    ensures (field + (mid + text))[|field + (mid + text)| - 1] == text[|text| - 1]
  {
  }

  /** The parser takes from a rendered line just what the line stands for. */
  lemma RenderedMark(item: Item)
    requires item.Valid()
    ensures LineMark(item.Render()) == ItemMark(item)
  {
    match item {
      case TypeLine(lead, mid, text, trail) =>
        FieldStep(lead, "event:", mid, text, trail);
      case DataLine(lead, mid, text, trail) =>
        FieldStep(lead, "data:", mid, text, trail);
        assert ("data:" + (mid + text))[0] == 'd';
      case Ignored(_) =>
      case Blank(space) =>
        TrimPadding(space + "\n", "", "");
        assert space + "\n" + "" + "" == space + "\n";
    }
  }

  lemma RenderIsLine(item: Item)
    requires item.Valid()
    ensures var line := item.Render();
      line != "" && line[|line| - 1] == '\n' && '\n' !in line[..|line| - 1]
  {
    var line := item.Render();
    match item {
      case TypeLine(lead, mid, text, trail) =>
        assert line[..|line| - 1] == lead + "event:" + mid + text + trail;
      case DataLine(lead, mid, text, trail) =>
        assert line[..|line| - 1] == lead + "data:" + mid + text + trail;
      case Ignored(text) =>
        assert line[..|line| - 1] == text;
      case Blank(space) =>
        assert line[..|line| - 1] == space;
    }
  }

  lemma MarksFirst(line: string, rest: seq<string>)
    ensures Marks([line] + rest) == [LineMark(line)] + Marks(rest)
  {
  }

  lemma ItemMarksFirst(items: seq<Item>)
    requires items != []
    ensures ItemMarks(items) == [ItemMark(items[0])] + ItemMarks(items[1..])
  {
  }

  lemma {:induction false} RenderedMarks(items: seq<Item>)
    requires forall item :: item in items ==> item.Valid()
    ensures Marks(Split(RenderAll(items))) == ItemMarks(items)
  {
    if items != [] {
      var item, rest := items[0], RenderAll(items[1..]);
      assert item in items;
      RenderIsLine(item);
      SplitLine(item.Render(), rest);
      RenderedMark(item);
      RenderedMarks(items[1..]);
      MarksFirst(item.Render(), Split(rest));
      ItemMarksFirst(items);
    }
  }

  datatype Message = Message(kind: string, chunks: seq<string>)

  /** The messages that blocks carry, the type and the data lines in any order; a block of ignored lines
      carries none. */
  function Messages(blocks: seq<seq<Mark>>): seq<Message> {
    if blocks == [] then []
    else
      var last := blocks[|blocks| - 1];
      Messages(blocks[..|blocks| - 1]) +
      if forall mark :: mark in last ==> mark.Skip? then [] else [Message(Kind(last, ""), Chunks(last))]
  }

  function Dispatches(messages: seq<Message>): seq<Event> {
    if messages == [] then []
    else
      var last := messages[|messages| - 1];
      Dispatches(messages[..|messages| - 1]) + [Event(last.kind, Flatten(last.chunks))]
  }

  lemma {:induction false} SkippedBlock(block: seq<Mark>)
    requires forall mark :: mark in block ==> mark.Skip?
    ensures Kind(block, "") == "" && Chunks(block) == []
  {
    if block != [] {
      var last := |block| - 1;
      assert block[last] in block;
      SkippedBlock(block[..last]);
    }
  }

  lemma MessagesStep(blocks: seq<seq<Mark>>)
    requires blocks != []
    ensures var before, last := Messages(blocks[..|blocks| - 1]), blocks[|blocks| - 1];
      Messages(blocks) ==
        if forall mark :: mark in last ==> mark.Skip? then before
        else before + [Message(Kind(last, ""), Chunks(last))]
  {
    var before := Messages(blocks[..|blocks| - 1]);
    assert before + [] == before;
  }

  lemma DispatchMore(messages: seq<Message>, m: Message)
    ensures Dispatches(messages + [m]) == Dispatches(messages) + [Event(m.kind, Flatten(m.chunks))]
  {
    assert (messages + [m])[..|messages|] == messages;
  }

  lemma {:induction false} MessagesOwn(blocks: seq<seq<Mark>>)
    requires forall m :: m in Messages(blocks) ==> m.kind != "" && Flatten(m.chunks) != ""
    ensures Owns(blocks) == Dispatches(Messages(blocks)) && NoneLoose(blocks)
  {
    if blocks != [] {
      var n := |blocks| - 1;
      var before, last := Messages(blocks[..n]), blocks[n];
      MessagesStep(blocks);
      MessagesOwn(blocks[..n]);
      NoneLooseStep(blocks);
      if forall mark :: mark in last ==> mark.Skip? {
        SkippedBlock(last);
      } else {
        var m := Message(Kind(last, ""), Chunks(last));
        assert m in before + [m];
        DispatchMore(before, m);
      }
    }
  }

  /** Any rendering of a list of messages is dispatched as that list, each message's chunks joined: with
      white space around the fields, the type before, after or between the chunks, ignored lines anywhere,
      extra blank lines, and an unfinished message at the end. */
  lemma RoundTrip(messages: seq<Message>, items: seq<Item>)
    requires forall item :: item in items ==> item.Valid()
    requires forall m :: m in messages ==> m.kind != "" && Flatten(m.chunks) != ""
    requires Messages(Cut(ItemMarks(items)).0) == messages
    ensures ParseLines(START, Split(RenderAll(items))).dispatched == Dispatches(messages)
  {
    RenderedMarks(items);
    MessagesOwn(Blocks(RenderAll(items)));
    LooseResidue(Blocks(RenderAll(items)));
    SeparatedIff(RenderAll(items));
  }

  lemma CutAfter(marks: seq<Mark>, block: seq<Mark>)
    requires EndBlock !in block
    ensures Cut(marks + block + [EndBlock]) == (Cut(marks).0 + [Cut(marks).1 + block], [])
  {
    CutOpen(marks, block);
    assert (marks + block + [EndBlock])[..|marks + block|] == marks + block;
  }

  lemma {:induction false} CutOpen(marks: seq<Mark>, block: seq<Mark>)
    requires EndBlock !in block
    ensures Cut(marks + block) == (Cut(marks).0, Cut(marks).1 + block)
  {
    var n := |block| - 1;
    if block == [] {
      assert marks + block == marks && Cut(marks).1 + block == Cut(marks).1;
    } else {
      CutOpen(marks, block[..n]);
      assert block[n] in block;
      assert (marks + block)[..|marks| + n] == marks + block[..n];
      assert Cut(marks).1 + block[..n] + [block[n]] == Cut(marks).1 + block;
    }
  }

  lemma TwoBlocks(items: seq<Item>, first: seq<Mark>, second: seq<Mark>)
    requires forall item :: item in items ==> item.Valid()
    requires ItemMarks(items) == first + [EndBlock] + (second + [EndBlock])
    requires EndBlock !in first && EndBlock !in second
    ensures Blocks(RenderAll(items)) == [first, second]
    ensures ParseLines(START, Split(RenderAll(items))).dispatched ==
      BlankStep(Fill(BlankStep(Fill(START, first)), second)).dispatched
  {
    RenderedMarks(items);
    CutAfter([], first);
    assert [] + first == first;
    CutAfter(first + [EndBlock], second);
    assert [] + second == second && [] + [first] + [second] == [first, second];
    assert first + [EndBlock] + (second + [EndBlock]) == first + [EndBlock] + second + [EndBlock];
    ParseBlocks(Split(RenderAll(items)));
    BlocksRunTwo(first, second);
  }

  lemma BlocksRunTwo(first: seq<Mark>, second: seq<Mark>)
    ensures BlocksRun([first, second]) == BlankStep(Fill(BlankStep(Fill(START, first)), second))
    ensures Owns([first, second]) == Own(first) + Own(second)
  {
    var blocks := [first, second];
    assert blocks[..1] == [first] && [first][..0] == [];
    assert Owns([first]) == [] + Own(first) == Own(first);
    assert BlocksRun([first]) == BlankStep(Fill(START, first));
  }

  lemma FieldMarks(kind: string, data: string, before: string)
    ensures Data([SetType(kind)]) == "" && Data([AddData(data)]) == Data([SetType(kind), AddData(data)]) == data
    ensures Kind([AddData(data)], before) == before
    ensures Kind([SetType(kind)], before) == Kind([SetType(kind), AddData(data)], before) == kind
  {
    assert [] + [SetType(kind)] == [SetType(kind)] && [] + [AddData(data)] == [AddData(data)];
    assert [SetType(kind)] + [AddData(data)] == [SetType(kind), AddData(data)];
    BlockMore([], SetType(kind), before);
    BlockMore([], AddData(data), before);
    BlockMore([SetType(kind)], AddData(data), before);
    assert "" + "" == "" && "" + data == data;
  }

  lemma FieldsValid(text: string)
    requires Trimmed(text)
    ensures DataLine("", " ", text, "").Valid() && TypeLine("", " ", text, "").Valid()
  {
  }

  /** Left-over data goes in front of the next message's data. */
  lemma StaleDataExample(stale: string, kind: string, data: string)
    requires Trimmed(stale) && Trimmed(kind) && Trimmed(data)
    ensures var text := RenderAll([DataLine("", " ", stale, ""), Blank(""),
                                   TypeLine("", " ", kind, ""), DataLine("", " ", data, ""), Blank("")]);
      && ParseLines(START, Split(text)).dispatched == [Event(kind, stale + data)]
      && Owns(Blocks(text)) == [Event(kind, data)]
  {
    FieldsValid(stale);
    FieldsValid(kind);
    FieldsValid(data);
    TwoBlocks([DataLine("", " ", stale, ""), Blank(""),
               TypeLine("", " ", kind, ""), DataLine("", " ", data, ""), Blank("")],
              [AddData(stale)], [SetType(kind), AddData(data)]);
    BlocksRunTwo([AddData(stale)], [SetType(kind), AddData(data)]);
    FieldMarks(kind, stale, "");
    FieldMarks(kind, data, "");
    assert "" + stale == stale;
  }

  /** A left-over type completes data that has none. */
  lemma StaleTypeExample(kind: string, data: string)
    requires Trimmed(kind) && Trimmed(data)
    ensures var text := RenderAll([TypeLine("", " ", kind, ""), Blank(""), DataLine("", " ", data, ""), Blank("")]);
      ParseLines(START, Split(text)).dispatched == [Event(kind, data)] && Owns(Blocks(text)) == []
  {
    FieldsValid(kind);
    FieldsValid(data);
    TwoBlocks([TypeLine("", " ", kind, ""), Blank(""), DataLine("", " ", data, ""), Blank("")],
              [SetType(kind)], [AddData(data)]);
    BlocksRunTwo([SetType(kind)], [AddData(data)]);
    FieldMarks(kind, data, "");
    FieldMarks(kind, data, kind);
    assert "" + "" + data == data;
  }
}
