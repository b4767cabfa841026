/** The nested readers against a reader that goes through the file once, line by line: what
    is read, which files load, and what an exception says about the file. */
module NistErrors {
  import opened Text
  import opened NistParser

  // ----- reading in one pass

  /** Where a line can stand. */
  datatype Place = Outside | InHeader | BetweenBlocks | InBlock

  /** Where the reader is, the sections so far, the last of which is the one being read,
      and the entries of the block being read. */
  datatype Reader = Reader(place: Place, sections: seq<Section>, block: Block)

  const START: Reader := Reader(Outside, [], map[])

  function AddBlock(sections: seq<Section>, block: Block): seq<Section> {
    if sections == [] then sections
    else
      var last := sections[|sections| - 1];
      sections[|sections| - 1 := last.(blocks := last.blocks + [block])]
  }

  function AddHeaderEntry(sections: seq<Section>, key: string, n: int): seq<Section> {
    if sections == [] then sections
    else
      var last := sections[|sections| - 1];
      sections[|sections| - 1 := last.(header := Some(Opened(last.header)[key := n]))]
  }

  function AtBlank(r: Reader): Reader {
    match r.place
    case Outside => Reader(Outside, r.sections, map[])
    case InHeader => Reader(BetweenBlocks, r.sections, map[])
    case BetweenBlocks => Reader(BetweenBlocks, r.sections, map[])
    case InBlock => Reader(BetweenBlocks, AddBlock(r.sections, r.block), map[])
  }

  function AtHeaderLine(r: Reader, key: string, n: int): Reader {
    var sections := if r.place == InHeader then r.sections else r.sections + [Section(None, [])];
    Reader(InHeader, AddHeaderEntry(sections, key, n), map[])
  }

  /** The reader behind a line, or the exception the line raises where it stands. */
  function Next(r: Reader, line: string): Result<Reader> {
    if line == "" then Ok(AtBlank(r))
    else if r.place == InBlock || (r.place == BetweenBlocks && !EndsBlocks(line)) then
      var (key, value) :- BlockEntry(line);
      Ok(Reader(InBlock, r.sections, r.block[key := value]))
    else if IsHeaderLine(line) then
      var (key, n) :- HeaderEntry(line);
      Ok(AtHeaderLine(r, key, n))
    else if r.place == InHeader then Err(InvalidHeaderLine(line))
    else if IsNoise(line) then Ok(Reader(Outside, r.sections, map[]))
    else Err(HeaderNotFound(line))
  }

  function Walk(r: Reader, lines: seq<string>): Result<Reader>
    decreases |lines|
  {
    if lines == [] then Ok(r)
    else
      var next :- Next(r, lines[0]);
      Walk(next, lines[1..])
  }

  /** The end of the lines ends a block as a blank line does. */
  function Outcome(r: Reader, lines: seq<string>): Result<seq<Section>> {
    var last :- Walk(r, lines);
    Ok(AtBlank(last).sections)
  }

  // ----- the nested readers give the same

  lemma {:induction false} HeaderOutcome(done: seq<Section>, header: Header, lines: seq<string>)
    ensures Outcome(Reader(InHeader, done + [Section(Some(header), [])], map[]), lines)
         == match ReadHeader(lines, Some(header))
            case Err(e) => Err(e)
            case Ok((h, rest)) => Outcome(Reader(BetweenBlocks, done + [Section(h, [])], map[]), rest)
    decreases |lines|
  {
    if lines != [] && lines[0] != "" && IsHeaderLine(lines[0]) && HeaderEntry(lines[0]).Ok? {
      var (key, n) := HeaderEntry(lines[0]).value;
      var sections := done + [Section(Some(header), [])];
      assert AddHeaderEntry(sections, key, n) == done + [Section(Some(header[key := n]), [])];
      HeaderOutcome(done, header[key := n], lines[1..]);
    }
  }

  lemma {:induction false} BlockOutcome(sections: seq<Section>, block: Block, lines: seq<string>)
    ensures Outcome(Reader(InBlock, sections, block), lines)
         == match ReadBlock(lines, block)
            case Err(e) => Err(e)
            case Ok((b, rest)) => Outcome(Reader(BetweenBlocks, AddBlock(sections, b), map[]), rest)
    decreases |lines|
  {
    if lines != [] && lines[0] != "" && BlockEntry(lines[0]).Ok? {
      var (key, value) := BlockEntry(lines[0]).value;
      BlockOutcome(sections, block[key := value], lines[1..]);
    }
  }

  /** A line that starts a block, a header or a comment is read where blocks are expected
      as in the place it leads to. */
  lemma SameStart(sections: seq<Section>, line: string)
    requires line != ""
    ensures Next(Reader(BetweenBlocks, sections, map[]), line)
         == Next(Reader(if EndsBlocks(line) then Outside else InBlock, sections, map[]), line)
  {
  }

  lemma OutcomeSameStart(sections: seq<Section>, lines: seq<string>)
    requires lines != [] ==> lines[0] != ""
    ensures lines == [] || EndsBlocks(lines[0]) ==>
              Outcome(Reader(BetweenBlocks, sections, map[]), lines) == Outcome(Reader(Outside, sections, map[]), lines)
    ensures lines != [] && !EndsBlocks(lines[0]) ==>
              Outcome(Reader(BetweenBlocks, sections, map[]), lines) == Outcome(Reader(InBlock, sections, map[]), lines)
  {
    if lines != [] {
      SameStart(sections, lines[0]);
    }
  }

  lemma {:induction false} BlocksOutcome(done: seq<Section>, section: Section, lines: seq<string>)
    ensures Outcome(Reader(BetweenBlocks, done + [section], map[]), lines)
         == match ReadBlocks(lines)
            case Err(e) => Err(e)
            case Ok((blocks, rest)) =>
              Outcome(Reader(Outside, done + [section.(blocks := section.blocks + blocks)], map[]), rest)
    decreases |lines|
  {
    assert section.blocks + [] == section.blocks;
    if lines != [] && lines[0] == "" {
      BlocksOutcome(done, section, lines[1..]);
    } else {
      OutcomeSameStart(done + [section], lines);
      if lines != [] && !EndsBlocks(lines[0]) {
        BlockOutcome(done + [section], map[], lines);
        if ReadBlock(lines, map[]).Ok? {
          var (block, rest) := ReadBlock(lines, map[]).value;
          var longer := section.(blocks := section.blocks + [block]);
          assert AddBlock(done + [section], block) == done + [longer];
          BlocksOutcome(done, longer, rest);
          BlocksJoin(section.blocks, block, ReadBlocks(rest));
        }
      }
    }
  }

  lemma BlocksJoin(blocks: seq<Block>, block: Block, r: Result<(seq<Block>, seq<string>)>)
    ensures r.Ok? ==> blocks + [block] + r.value.0 == blocks + ([block] + r.value.0)
  {
  }

  /** From outside a section the walk gives what the nested readers give, after what is
      done already. */
  lemma {:induction false} SectionsOutcome(done: seq<Section>, lines: seq<string>)
    ensures Outcome(Reader(Outside, done, map[]), lines) == Following(done, ReadSections(lines))
    decreases |lines|
  {
    if lines == [] {
      assert done + [] == done;
    } else if IsNoise(lines[0]) {
      SectionsOutcome(done, lines[1..]);
    } else if IsHeaderLine(lines[0]) && HeaderEntry(lines[0]).Ok? {
      SectionsOutcomeAtHeader(done, lines);
    }
  }

  lemma {:induction false} SectionsOutcomeAtHeader(done: seq<Section>, lines: seq<string>)
    requires lines != [] && !IsNoise(lines[0]) && IsHeaderLine(lines[0]) && HeaderEntry(lines[0]).Ok?
    ensures Outcome(Reader(Outside, done, map[]), lines) == Following(done, ReadSections(lines))
    decreases |lines|, 0
  {
    var (key, n) := HeaderEntry(lines[0]).value;
    assert AddHeaderEntry(done + [Section(None, [])], key, n) == done + [Section(Some(map[key := n]), [])];
    HeaderOutcome(done, map[key := n], lines[1..]);
    assert ReadHeader(lines, None) == ReadHeader(lines[1..], Some(map[key := n]));
    SectionsStep(done, lines);
    if ReadHeader(lines, None).Ok? {
      var (header, body) := ReadHeader(lines, None).value;
      BlocksOutcome(done, Section(header, []), body);
      if ReadBlocks(body).Ok? {
        var (blocks, rest) := ReadBlocks(body).value;
        assert [] + blocks == blocks;
        SectionsOutcome(done + [Section(header, blocks)], rest);
      }
    }
  }

  /** Reading any lines gives the sections, or the exception, of the one pass. */
  lemma OnePass(lines: seq<string>)
    ensures ReadSections(lines) == Outcome(START, lines)
  {
    SectionsOutcome([], lines);
    FollowingNothing(ReadSections(lines));
  }

  // ----- the line at fault

  /** Line i is the first that cannot be read where it stands, and raises e there. */
  predicate FailsAt(r: Reader, lines: seq<string>, i: nat, e: ParseError) {
    && i < |lines|
    && Walk(r, lines[..i]).Ok?
    && Next(Walk(r, lines[..i]).value, lines[i]) == Err(e)
  }

  /** A walk can be cut anywhere. */
  lemma {:induction false} WalkOn(r: Reader, a: seq<string>, b: seq<string>)
    ensures Walk(r, a + b) == if Walk(r, a).Ok? then Walk(Walk(r, a).value, b) else Walk(r, a)
    decreases |a|
  {
    if a == [] {
      assert a + b == b;
    } else {
      assert (a + b)[0] == a[0] && (a + b)[1..] == a[1..] + b;
      if Next(r, a[0]).Ok? {
        WalkOn(Next(r, a[0]).value, a[1..], b);
      }
    }
  }

  lemma WalkTo(r: Reader, lines: seq<string>, i: nat)
    requires i < |lines| && Walk(r, lines[..i]).Ok?
    ensures Walk(r, lines)
         == match Next(Walk(r, lines[..i]).value, lines[i])
            case Ok(next) => Walk(next, lines[i + 1..])
            case Err(e) => Err(e)
  {
    assert lines == lines[..i] + lines[i..] && lines[i..][1..] == lines[i + 1..];
    WalkOn(r, lines[..i], lines[i..]);
  }

  lemma {:induction false} FirstFault(r: Reader, lines: seq<string>) returns (i: nat)
    requires Walk(r, lines).Err?
    ensures FailsAt(r, lines, i, Walk(r, lines).error)
    decreases |lines|
  {
    match Next(r, lines[0])
    case Err(e) =>
      i := 0;
    case Ok(next) =>
      i := FirstFault(next, lines[1..]);
      assert lines[..i + 1][0] == lines[0] && lines[..i + 1][1..] == lines[1..][..i];
      i := i + 1;
  }

  /** The walk meets an exception exactly if some line raises it where it stands. */
  lemma FaultIsALine(r: Reader, lines: seq<string>, e: ParseError)
    ensures Walk(r, lines) == Err(e) <==> exists i :: FailsAt(r, lines, i, e)
  {
    if Walk(r, lines) == Err(e) {
      var i := FirstFault(r, lines);
    }
    if i :| FailsAt(r, lines, i, e) {
      WalkTo(r, lines, i);
    }
  }

  /** The lines give sections exactly if every one of them can be read where it stands. */
  lemma SectionsFailAt(lines: seq<string>, e: ParseError)
    ensures ReadSections(lines).Ok? <==> Walk(START, lines).Ok?
    ensures ReadSections(lines) == Err(e) <==> exists i :: FailsAt(START, lines, i, e)
  {
    OnePass(lines);
    FaultIsALine(START, lines, e);
  }

  /** A file loads exactly if it has a mode and every line can be read where it stands;
      an exception is a missing mode, looked for first, or exactly the one that the first
      unreadable line raises in its place. */
  lemma LoadVerdict(text: string, e: ParseError)
    ensures var lines := StripAll(ReadLines(text));
            && (Load(text).Ok? <==> ModeOf(lines).Ok? && Walk(START, lines).Ok?)
            && (Load(text) == Err(e) <==>
                  if ModeOf(lines).Err? then e == NoMode else exists i :: FailsAt(START, lines, i, e))
  {
    SectionsFailAt(StripAll(ReadLines(text)), e);
  }

  // ----- lines that are never read

  /** Neither blank nor a comment nor an assignment. */
  predicate IsBareWord(line: string) {
    line != "" && line[0] != '#' && '=' !in line
  }

  lemma BareWordFails(r: Reader, line: string)
    requires IsBareWord(line)
    ensures Next(r, line).Err?
  {
    NoCutWithout(Trim(line, IsBracket), line);
  }

  lemma BareWordStops(r: Reader, lines: seq<string>, i: nat)
    requires i < |lines| && IsBareWord(lines[i])
    ensures Walk(r, lines).Err?
  {
    assert lines == lines[..i] + lines[i..];
    WalkOn(r, lines[..i], lines[i..]);
    if Walk(r, lines[..i]).Ok? {
      BareWordFails(Walk(r, lines[..i]).value, lines[i]);
      WalkTo(r, lines, i);
    }
  }

  /** A bare word on a line of its own, as the decryption vectors have for cases that must
      fail, cannot be read in any place, so a file with one is not compiled at all. */
  lemma BareWordIsRefused(text: string, i: nat)
    requires i < |StripAll(ReadLines(text))| && IsBareWord(StripAll(ReadLines(text))[i])
    ensures Load(text).Err?
  {
    BareWordStops(START, StripAll(ReadLines(text)), i);
    LoadVerdict(text, NoMode);
  }

  lemma {:induction false} WalkNoise(sections: seq<Section>, lines: seq<string>)
    requires forall i :: 0 <= i < |lines| ==> IsNoise(lines[i])
    ensures Walk(Reader(Outside, sections, map[]), lines) == Ok(Reader(Outside, sections, map[]))
    decreases |lines|
  {
    if lines != [] {
      WalkNoise(sections, lines[1..]);
    }
  }

  lemma NoiseThenEntry(sections: seq<Section>, noise: seq<string>, entry: string, after: seq<string>)
    requires forall i :: 0 <= i < |noise| ==> IsNoise(noise[i])
    requires !IsNoise(entry) && !IsHeaderLine(entry)
    ensures Walk(Reader(Outside, sections, map[]), noise + ([entry] + after)) == Err(HeaderNotFound(entry))
  {
    WalkNoise(sections, noise);
    WalkOn(Reader(Outside, sections, map[]), noise, [entry] + after);
  }

  lemma CommentLeaves(r: Reader, comment: string, lines: seq<string>)
    requires r.place == BetweenBlocks && StartsWith(comment, '#')
    ensures Walk(r, [comment] + lines) == Walk(Reader(Outside, r.sections, map[]), lines)
  {
    assert ([comment] + lines)[1..] == lines;
  }

  lemma RaisedBehind(before: seq<string>, lines: seq<string>)
    requires Walk(START, before).Ok? && Walk(Walk(START, before).value, lines).Err?
    ensures ReadSections(before + lines) == Err(Walk(Walk(START, before).value, lines).error)
  {
    WalkOn(START, before, lines);
    OnePass(before + lines);
  }

  /** A comment between two blocks ends the section: any entry that follows it, without a
      header in between, is refused. */
  lemma CommentEndsSection(before: seq<string>, comment: string, noise: seq<string>, entry: string,
                           after: seq<string>)
    requires Walk(START, before).Ok? && Walk(START, before).value.place == BetweenBlocks
    requires StartsWith(comment, '#') && forall i :: 0 <= i < |noise| ==> IsNoise(noise[i])
    requires !IsNoise(entry) && !IsHeaderLine(entry)
    ensures ReadSections(before + ([comment] + (noise + ([entry] + after)))) == Err(HeaderNotFound(entry))
  {
    var r := Walk(START, before).value;
    NoiseThenEntry(r.sections, noise, entry, after);
    CommentLeaves(r, comment, noise + ([entry] + after));
    RaisedBehind(before, [comment] + (noise + ([entry] + after)));
  }

  // ----- single lines

  lemma NoCutWithout(part: string, line: string)
    requires '=' !in line && part == Trim(line, IsBracket)
    ensures CutOnce(part, '=').None?
  {
    TrimKeepsCount(line, IsBracket, '=');
    CutOnceExactly(part, '=');
  }

  lemma {:induction false} TrimLeftKeepsCount(s: string, drop: char -> bool, c: char)
    requires !drop(c)
    ensures multiset(TrimLeft(s, drop))[c] == multiset(s)[c]
    decreases |s|
  {
    if s != "" && drop(s[0]) {
      TrimLeftKeepsCount(s[1..], drop, c);
      assert s == [s[0]] + s[1..];
    }
  }

  lemma {:induction false} TrimRightKeepsCount(s: string, drop: char -> bool, c: char)
    requires !drop(c)
    ensures multiset(TrimRight(s, drop))[c] == multiset(s)[c]
    decreases |s|
  {
    if s != "" && drop(s[|s| - 1]) {
      TrimRightKeepsCount(s[..|s| - 1], drop, c);
      assert s == s[..|s| - 1] + [s[|s| - 1]];
    }
  }

  lemma TrimKeepsCount(s: string, drop: char -> bool, c: char)
    requires !drop(c)
    ensures multiset(Trim(s, drop))[c] == multiset(s)[c]
  {
    TrimLeftKeepsCount(s, drop, c);
    TrimRightKeepsCount(TrimLeft(s, drop), drop, c);
  }

  /** A block line needs exactly one '='; without one it is unexpected, with more it does
      not unpack. What is around it is the entry, blanks at the ends aside. */
  lemma BlockEntryExactly(line: string, key: string, value: string)
    ensures multiset(line)['='] == 0 <==> BlockEntry(line) == Err(UnexpectedLine(line))
    ensures multiset(line)['='] > 1 <==> BlockEntry(line) == Err(UnpackError(line))
    ensures line == key + "=" + value && '=' !in key && '=' !in value ==>
              BlockEntry(line) == Ok((Strip(key), Strip(value)))
  {
    CutOnceExactly(line, '=');
    if line == key + "=" + value && '=' !in key && '=' !in value {
      CutFirstAt(key, '=', value);
      assert line == key + ['='] + value && line[|key|] == '=';
    }
  }

  /** A header line needs exactly one '=' and a decimal integer behind it; any brackets at
      the ends are dropped, whether they match or not. */
  lemma HeaderEntryExactly(open: string, key: string, value: string, close: string)
    requires AllOf(open, IsBracket) && AllOf(close, IsBracket)
    requires Bare(key + "=" + value, IsBracket)
    ensures var line := open + (key + "=" + value) + close;
            if '=' in key || '=' in value then HeaderEntry(line) == Err(UnpackError(line))
            else match ParseInt(Strip(value))
                 case None => HeaderEntry(line) == Err(BadInteger(Strip(value)))
                 case Some(n) => HeaderEntry(line) == Ok((Strip(key), n))
  {
    var core := key + "=" + value;
    TrimPadded(open, core, close, IsBracket);
    assert core == key + ['='] + value;
    if '=' in key || '=' in value {
      assert multiset(core) == multiset(key) + multiset{'='} + multiset(value);
      CutOnceExactly(core, '=');
    } else {
      CutFirstAt(key, '=', value);
    }
  }

  // ----- lines of a text

  function Joined(lines: seq<string>): string {
    if lines == [] then "" else lines[0] + Joined(lines[1..])
  }

  /** The lines put together are the text, each has a line feed at its end only, and only
      the last one may lack it. */
  lemma {:induction false} LinesOfText(text: string)
    ensures var lines := ReadLines(text);
            && Joined(lines) == text
            && (forall i :: 0 <= i < |lines| ==> lines[i] != "")
            && (forall i, k :: 0 <= i < |lines| && 0 <= k < |lines[i]| - 1 ==> lines[i][k] != '\n')
            && (forall i :: 0 <= i < |lines| - 1 ==> lines[i][|lines[i]| - 1] == '\n')
    decreases |text|
  {
    if text != "" && CutFirst(text, '\n').Some? {
      var (line, rest) := CutFirst(text, '\n').value;
      LinesOfText(rest);
      assert line + "\n" + Joined(ReadLines(rest)) == text;
    } else {
      assert text + "" == text;
    }
  }

  /** The mode is the second word of the second line, words being separated by single
      blanks. */
  lemma ModeExactly(lines: seq<string>, first: string, mode: string, rest: string)
    requires |lines| > 1 && lines[1] == first + " " + mode + rest
    requires ' ' !in first && ' ' !in mode && (rest == "" || rest[0] == ' ')
    ensures ModeOf(lines) == Ok(mode)
  {
    assert lines[1] == first + [' '] + (mode + rest);
    CutFirstAt(first, ' ', mode + rest);
    if rest != "" {
      assert mode + rest == mode + [' '] + rest[1..];
      CutFirstAt(mode, ' ', rest[1..]);
    } else {
      assert mode + rest == mode;
    }
  }

  /** There is none exactly if there is no second line or it has no blank. */
  lemma NoModeExactly(lines: seq<string>)
    ensures ModeOf(lines).Err? <==> |lines| < 2 || ' ' !in lines[1]
    ensures ModeOf(lines).Err? ==> ModeOf(lines).error == NoMode
  {
  }
}
