/** Files read one after another: reading the lines of two files in turn gives the
    sections of the first and then those of the second. */
module NistConcat {
  import opened Text
  import opened NistParser
  import opened NistTheorems

  /** No section or block is left open at the end of these lines. */
  predicate Closed(lines: seq<string>) {
    lines == [] || lines[|lines| - 1] == ""
  }

  /** Once leading blank lines are gone, nothing here continues an earlier section. */
  predicate SelfStanding(lines: seq<string>) {
    lines == [] || EndsBlocks(lines[0]) || (lines[0] == "" && SelfStanding(lines[1..]))
  }

  function SkipBlanks(lines: seq<string>): seq<string> {
    if lines != [] && lines[0] == "" then SkipBlanks(lines[1..]) else lines
  }

  /** What is left to read once a reader that stopped at rest also sees more. */
  function Onward(rest: seq<string>, more: seq<string>): seq<string> {
    if rest == [] then SkipBlanks(more) else rest + more
  }

  lemma {:induction false} HeaderWithMore(lines: seq<string>, more: seq<string>, header: Option<Header>)
    requires lines != [] && Closed(lines)
    ensures match ReadHeader(lines, header)
            case Err(e) => ReadHeader(lines + more, header) == Err(e)
            case Ok((h, rest)) => Closed(rest) && ReadHeader(lines + more, header) == Ok((h, rest + more))
    decreases |lines|
  {
    assert (lines + more)[1..] == lines[1..] + more;
    if lines[0] != "" && IsHeaderLine(lines[0]) && HeaderEntry(lines[0]).Ok? {
      var (k, n) := HeaderEntry(lines[0]).value;
      HeaderWithMore(lines[1..], more, Some(Opened(header)[k := n]));
    }
  }

  lemma {:induction false} BlockWithMore(lines: seq<string>, more: seq<string>, block: Block)
    requires lines != [] && Closed(lines)
    ensures match ReadBlock(lines, block)
            case Err(e) => ReadBlock(lines + more, block) == Err(e)
            case Ok((b, rest)) => Closed(rest) && ReadBlock(lines + more, block) == Ok((b, rest + more))
    decreases |lines|
  {
    assert (lines + more)[1..] == lines[1..] + more;
    if lines[0] != "" && BlockEntry(lines[0]).Ok? {
      var (k, v) := BlockEntry(lines[0]).value;
      BlockWithMore(lines[1..], more, block[k := v]);
    }
  }

  lemma {:induction false} NoBlocksInSelfStanding(more: seq<string>)
    requires SelfStanding(more)
    ensures ReadBlocks(more) == Ok(([], SkipBlanks(more)))
    decreases |more|
  {
    if more != [] && !EndsBlocks(more[0]) {
      NoBlocksInSelfStanding(more[1..]);
    }
  }

  lemma {:induction false} BlocksWithMore(lines: seq<string>, more: seq<string>)
    requires Closed(lines) && SelfStanding(more)
    ensures match ReadBlocks(lines)
            case Err(e) => ReadBlocks(lines + more) == Err(e)
            case Ok((blocks, rest)) => Closed(rest) && ReadBlocks(lines + more) == Ok((blocks, Onward(rest, more)))
    decreases |lines|
  {
    if lines == [] {
      assert lines + more == more;
      NoBlocksInSelfStanding(more);
    } else if lines[0] == "" {
      assert (lines + more)[1..] == lines[1..] + more;
      BlocksWithMore(lines[1..], more);
    } else if !EndsBlocks(lines[0]) {
      BlockWithMore(lines, more, map[]);
      if ReadBlock(lines, map[]).Ok? {
        BlocksWithMore(ReadBlock(lines, map[]).value.1, more);
      }
    }
  }

  lemma {:induction false} BlanksAreSkipped(lines: seq<string>)
    ensures ReadSections(SkipBlanks(lines)) == ReadSections(lines)
    decreases |lines|
  {
    if lines != [] && lines[0] == "" {
      BlanksAreSkipped(lines[1..]);
    }
  }

  /** Reading on past the end of a closed file. */
  lemma {:induction false} SectionsConcatenate(lines: seq<string>, more: seq<string>)
    requires Closed(lines) && SelfStanding(more)
    ensures ReadSections(lines + more)
         == Onto(ReadSections(lines), ReadSections(more))
    decreases |lines|
  {
    if lines == [] {
      assert lines + more == more;
      FollowingNothing(ReadSections(more));
    } else if IsNoise(lines[0]) {
      assert (lines + more)[1..] == lines[1..] + more;
      SectionsConcatenate(lines[1..], more);
    } else if IsHeaderLine(lines[0]) {
      HeaderWithMore(lines, more, None);
      OneSection(lines);
      OneSection(lines + more);
      if ReadHeader(lines, None).Ok? {
        SectionsConcatenateAfterHeader(lines, more);
      }
    }
  }

  lemma {:induction false} SectionsConcatenateAfterHeader(lines: seq<string>, more: seq<string>)
    requires lines != [] && !IsNoise(lines[0]) && IsHeaderLine(lines[0])
    requires Closed(lines) && SelfStanding(more) && ReadHeader(lines, None).Ok?
    ensures ReadSections(lines + more) == Onto(ReadSections(lines), ReadSections(more))
    decreases |lines|, 0
  {
    var (header, body) := ReadHeader(lines, None).value;
    HeaderWithMore(lines, more, None);
    BlocksWithMore(body, more);
    OneSection(lines);
    OneSection(lines + more);
    if ReadBlocks(body).Ok? {
      var (blocks, rest) := ReadBlocks(body).value;
      if rest == [] {
        BlanksAreSkipped(more);
        assert rest + more == more;
      }
      SectionsConcatenate(rest, more);
      OntoFollowing(Section(header, blocks), ReadSections(rest), ReadSections(more));
    }
  }

  /** The first section, and then the rest. */
  lemma OneSection(lines: seq<string>)
    requires lines != [] && !IsNoise(lines[0]) && IsHeaderLine(lines[0])
    ensures ReadSections(lines)
         == match ReadHeader(lines, None)
            case Err(e) => Err(e)
            case Ok((header, body)) =>
              match ReadBlocks(body)
              case Err(e) => Err(e)
              case Ok((blocks, rest)) => Following([Section(header, blocks)], ReadSections(rest))
  {
  }

  /** The sections of a second file after those of a first. */
  function Onto(first: Result<seq<Section>>, second: Result<seq<Section>>): Result<seq<Section>> {
    match first
    case Err(e) => Err(e)
    case Ok(sections) => Following(sections, second)
  }

  lemma OntoFollowing(section: Section, first: Result<seq<Section>>, second: Result<seq<Section>>)
    ensures Following([section], Onto(first, second)) == Onto(Following([section], first), second)
  {
    if first.Ok? {
      FollowingTwice([section], first.value, second);
    }
  }

  lemma NoiseStaysSelfStanding(noise: seq<string>, more: seq<string>)
    requires SelfStanding(more)
    requires forall i :: 0 <= i < |noise| ==> IsNoise(noise[i])
    ensures SelfStanding(noise + more)
  {
    if noise == [] {
      assert noise + more == more;
    } else {
      assert (noise + more)[1..] == noise[1..] + more;
      NoiseStaysSelfStanding(noise[1..], more);
    }
  }

  /** Comments and blank lines between two files, or between two sections, make no
      difference. */
  lemma NoiseBetween(lines: seq<string>, noise: seq<string>, more: seq<string>)
    requires Closed(lines) && SelfStanding(more)
    requires forall i :: 0 <= i < |noise| ==> IsNoise(noise[i])
    ensures ReadSections(lines + noise + more) == ReadSections(lines + more)
  {
    assert lines + noise + more == lines + (noise + more);
    NoiseStaysSelfStanding(noise, more);
    SectionsConcatenate(lines, noise + more);
    SectionsConcatenate(lines, more);
    NoiseIsSkipped(noise, more);
  }
}
