/** The reader of nist2h.py: two nested readers that pop lines off a shared list,
    each proved against a function on the lines that are left. */
module NistParser {
  import opened Text

  /** What the reader raises: its own exceptions, and those of tuple unpacking,
      int() and list indexing. */
  datatype ParseError =
    | InvalidHeaderLine(line: string)
    | UnexpectedLine(line: string)
    | HeaderNotFound(line: string)
    | UnpackError(line: string)
    | BadInteger(text: string)
    | NoMode

  datatype Result<+T> = Ok(value: T) | Err(error: ParseError) {
    predicate IsFailure() { Err? }
    function PropagateFailure<U>(): Result<U>
      requires Err?
    {
      Err(error)
    }
    function Extract(): T
      requires Ok?
    {
      value
    }
  }

  type Header = map<string, int>
  type Block = map<string, string>
  datatype Section = Section(header: Option<Header>, blocks: seq<Block>)

  // ----- the reader as functions of the remaining lines

  predicate IsHeaderLine(line: string) {
    StartsWith(line, '[')
  }

  /** Lines at which the block reader gives way to the section reader. */
  predicate EndsBlocks(line: string) {
    IsHeaderLine(line) || StartsWith(line, '#')
  }

  predicate IsNoise(line: string) {
    line == "" || StartsWith(line, '#')
  }

  function HeaderEntry(line: string): Result<(string, int)> {
    match CutOnce(Trim(line, IsBracket), '=')
    case None => Err(UnpackError(line))
    case Some((key, value)) =>
      match ParseInt(Strip(value))
      case None => Err(BadInteger(Strip(value)))
      case Some(n) => Ok((Strip(key), n))
  }

  function BlockEntry(line: string): Result<(string, string)> {
    if '=' !in line then Err(UnexpectedLine(line))
    else
      match CutOnce(line, '=')
      case None => Err(UnpackError(line))
      case Some((key, value)) => Ok((Strip(key), Strip(value)))
  }

  function Opened(header: Option<Header>): Header {
    if header.None? then map[] else header.value
  }

  function ReadHeader(lines: seq<string>, header: Option<Header>): (r: Result<(Option<Header>, seq<string>)>)
    ensures r.Ok? ==> |r.value.1| <= |lines|
    ensures r.Ok? && lines != [] ==> |r.value.1| < |lines|
    ensures r.Ok? && (header.Some? || (lines != [] && IsHeaderLine(lines[0]))) ==> r.value.0.Some?
  {
    if lines == [] then Ok((header, []))
    else if lines[0] == "" then Ok((header, lines[1..]))
    else if IsHeaderLine(lines[0]) then
      var (key, n) :- HeaderEntry(lines[0]);
      ReadHeader(lines[1..], Some(Opened(header)[key := n]))
    else Err(InvalidHeaderLine(lines[0]))
  }

  function ReadBlock(lines: seq<string>, block: Block): (r: Result<(Block, seq<string>)>)
    ensures r.Ok? ==> |r.value.1| <= |lines|
    ensures r.Ok? && lines != [] ==> |r.value.1| < |lines|
  {
    if lines == [] then Ok((block, []))
    else if lines[0] == "" then Ok((block, lines[1..]))
    else
      var (key, value) :- BlockEntry(lines[0]);
      ReadBlock(lines[1..], block[key := value])
  }

  function ReadBlocks(lines: seq<string>): (r: Result<(seq<Block>, seq<string>)>)
    ensures r.Ok? ==> |r.value.1| <= |lines|
    ensures r.Ok? ==> r.value.1 == [] || EndsBlocks(r.value.1[0])
    decreases |lines|
  {
    if lines == [] then Ok(([], []))
    else if lines[0] == "" then ReadBlocks(lines[1..])
    else if EndsBlocks(lines[0]) then Ok(([], lines))
    else
      var (block, rest) :- ReadBlock(lines, map[]);
      var (blocks, tail) :- ReadBlocks(rest);
      Ok(([block] + blocks, tail))
  }

  function ReadSections(lines: seq<string>): Result<seq<Section>>
    decreases |lines|
  {
    if lines == [] then Ok([])
    else if IsNoise(lines[0]) then ReadSections(lines[1..])
    else if !IsHeaderLine(lines[0]) then Err(HeaderNotFound(lines[0]))
    else
      var (header, afterHeader) :- ReadHeader(lines, None);
      var (blocks, rest) :- ReadBlocks(afterHeader);
      var sections :- ReadSections(rest);
      Ok([Section(header, blocks)] + sections)
  }

  /** readlines(): every line keeps its line feed. */
  function ReadLines(text: string): seq<string>
    decreases |text|
  {
    if text == "" then []
    else
      match CutFirst(text, '\n')
      case None => [text]
      case Some((line, rest)) => [line + "\n"] + ReadLines(rest)
  }

  function StripAll(lines: seq<string>): (r: seq<string>)
    ensures |r| == |lines| && forall i :: 0 <= i < |r| ==> r[i] == Strip(lines[i])
  {
    if lines == [] then [] else [Strip(lines[0])] + StripAll(lines[1..])
  }

  /** lines[1].split(' ')[1], with its two ways of indexing past the end. */
  function ModeOf(lines: seq<string>): Result<string> {
    if |lines| < 2 then Err(NoMode)
    else
      match CutFirst(lines[1], ' ')
      case None => Err(NoMode)
      case Some((_, rest)) =>
        match CutFirst(rest, ' ')
        case None => Ok(rest)
        case Some((word, _)) => Ok(word)
  }

  function Load(text: string): Result<(string, seq<Section>)> {
    var lines := StripAll(ReadLines(text));
    var mode :- ModeOf(lines);
    var sections :- ReadSections(lines);
    Ok((mode, sections))
  }

  // ----- the reader as the program runs it

  /** The list the readers share; pop(0) takes its first line. */
  class LineList {
    var items: seq<string>

    constructor (items: seq<string>)
      ensures this.items == items
    {
      this.items := items;
    }

    method Pop() returns (line: string)
      requires items != []
      modifies this
      ensures line == old(items)[0] && items == old(items)[1..]
    {
      line := items[0];
      items := items[1..];
    }
  }

  /** A reader's answer together with the lines it leaves. */
  function Left<T>(r: Result<T>, rest: seq<string>): Result<(T, seq<string>)> {
    if r.Ok? then Ok((r.value, rest)) else Err(r.error)
  }

  method ReadNistHeader(lines: LineList) returns (r: Result<Option<Header>>)
    modifies lines
    ensures Left(r, lines.items) == ReadHeader(old(lines.items), None)
  {
    var header: Option<Header> := None;
    while lines.items != []
      invariant ReadHeader(lines.items, header) == ReadHeader(old(lines.items), None)
      decreases |lines.items|
    {
      var line := lines.Pop();
      if line == "" {
        return Ok(header);
      }
      if !IsHeaderLine(line) {
        return Err(InvalidHeaderLine(line));
      }
      var entry := HeaderEntry(line);
      if entry.Err? {
        return Err(entry.error);
      }
      header := Some(Opened(header)[entry.value.0 := entry.value.1]);
    }
    return Ok(header);
  }

  method ReadNistBlock(lines: LineList) returns (r: Result<Block>)
    modifies lines
    ensures Left(r, lines.items) == ReadBlock(old(lines.items), map[])
  {
    var block: Block := map[];
    while lines.items != []
      invariant ReadBlock(lines.items, block) == ReadBlock(old(lines.items), map[])
      decreases |lines.items|
    {
      var line := lines.Pop();
      if line == "" {
        break;
      }
      var entry := BlockEntry(line);
      if entry.Err? {
        return Err(entry.error);
      }
      block := block[entry.value.0 := entry.value.1];
    }
    return Ok(block);
  }

  /** blocks read so far, put in front of what the rest of the lines give. */
  function Before<T>(done: seq<T>, r: Result<(seq<T>, seq<string>)>): Result<(seq<T>, seq<string>)> {
    if r.Ok? then Ok((done + r.value.0, r.value.1)) else r
  }

  lemma BeforeNothing<T>(r: Result<(seq<T>, seq<string>)>)
    ensures Before([], r) == r
  {
    if r.Ok? {
      assert [] + r.value.0 == r.value.0;
    }
  }

  lemma BlocksStep(done: seq<Block>, lines: seq<string>)
    requires lines != [] && lines[0] != "" && !EndsBlocks(lines[0])
    ensures match ReadBlock(lines, map[])
            case Err(e) => Before(done, ReadBlocks(lines)) == Err(e)
            case Ok((block, rest)) => Before(done, ReadBlocks(lines)) == Before(done + [block], ReadBlocks(rest))
  {
    var r := ReadBlock(lines, map[]);
    if r.Ok? && ReadBlocks(r.value.1).Ok? {
      var blocks := ReadBlocks(r.value.1).value.0;
      assert done + ([r.value.0] + blocks) == done + [r.value.0] + blocks;
    }
  }

  method ReadNistBlocks(lines: LineList) returns (r: Result<seq<Block>>)
    modifies lines
    ensures Left(r, lines.items) == ReadBlocks(old(lines.items))
  {
    var blocks: seq<Block> := [];
    BeforeNothing(ReadBlocks(lines.items));
    while lines.items != []
      invariant Before(blocks, ReadBlocks(lines.items)) == ReadBlocks(old(lines.items))
      decreases |lines.items|
    {
      var line := lines.items[0];
      if line == "" {
        var _ := lines.Pop();
        continue;
      }
      if EndsBlocks(line) {
        break;
      }
      BlocksStep(blocks, lines.items);
      var block := ReadNistBlock(lines);
      if block.Err? {
        return Err(block.error);
      }
      blocks := blocks + [block.value];
    }
    assert blocks + [] == blocks;
    return Ok(blocks);
  }

  function Following(done: seq<Section>, r: Result<seq<Section>>): Result<seq<Section>> {
    if r.Ok? then Ok(done + r.value) else r
  }

  lemma SectionsStep(done: seq<Section>, lines: seq<string>)
    requires lines != [] && !IsNoise(lines[0]) && IsHeaderLine(lines[0])
    ensures match ReadHeader(lines, None)
            case Err(e) => Following(done, ReadSections(lines)) == Err(e)
            case Ok((header, body)) =>
              match ReadBlocks(body)
              case Err(e) => Following(done, ReadSections(lines)) == Err(e)
              case Ok((blocks, rest)) =>
                Following(done, ReadSections(lines)) == Following(done + [Section(header, blocks)], ReadSections(rest))
  {
    var h := ReadHeader(lines, None);
    if h.Ok? && ReadBlocks(h.value.1).Ok? {
      var (blocks, rest) := ReadBlocks(h.value.1).value;
      var section := Section(h.value.0, blocks);
      if ReadSections(rest).Ok? {
        assert done + ([section] + ReadSections(rest).value) == done + [section] + ReadSections(rest).value;
      }
    }
  }

  lemma FollowingTwice(a: seq<Section>, b: seq<Section>, r: Result<seq<Section>>)
    ensures Following(a, Following(b, r)) == Following(a + b, r)
  {
    if r.Ok? {
      assert a + (b + r.value) == a + b + r.value;
    }
  }

  lemma FollowingNothing(r: Result<seq<Section>>)
    ensures Following([], r) == r
  {
    if r.Ok? {
      assert [] + r.value == r.value;
    }
  }

  /** Every pass takes at least one line off the list, whatever the lines are. */
  method LoadNist(text: string) returns (r: Result<(string, seq<Section>)>)
    ensures r == Load(text)
  {
    var all := StripAll(ReadLines(text));
    var mode := ModeOf(all);
    if mode.Err? {
      return Err(mode.error);
    }
    var lines := new LineList(all);
    var data: seq<Section> := [];
    FollowingNothing(ReadSections(all));
    while lines.items != []
      invariant Following(data, ReadSections(lines.items)) == ReadSections(all)
      decreases |lines.items|
    {
      var line := lines.items[0];
      if IsNoise(line) {
        var _ := lines.Pop();
        continue;
      }
      if !IsHeaderLine(line) {
        return Err(HeaderNotFound(line));
      }
      SectionsStep(data, lines.items);
      var header := ReadNistHeader(lines);
      if header.Err? {
        return Err(header.error);
      }
      var blocks := ReadNistBlocks(lines);
      if blocks.Err? {
        return Err(blocks.error);
      }
      data := data + [Section(header.value, blocks.value)];
    }
    assert data + [] == data;
    return Ok((mode.value, data));
  }
}
