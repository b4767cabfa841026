/** What the vector reader gives back: exactly the sections a file was written from,
    and, for files placed one after another, the sections of each in turn. */
module NistTheorems {
  import opened Text
  import opened NistParser

  // ----- writing a vector file

  /** A section as it is written: entries in file order. */
  datatype Listing = Listing(header: seq<(string, int)>, blocks: seq<seq<(string, string)>>)

  function HeaderLine(entry: (string, int)): string {
    "[" + entry.0 + " = " + IntText(entry.1) + "]"
  }

  function BlockLine(entry: (string, string)): string {
    entry.0 + " = " + entry.1
  }

  function HeaderLines(entries: seq<(string, int)>): seq<string> {
    if entries == [] then [""] else [HeaderLine(entries[0])] + HeaderLines(entries[1..])
  }

  function BlockLines(entries: seq<(string, string)>): seq<string> {
    if entries == [] then [""] else [BlockLine(entries[0])] + BlockLines(entries[1..])
  }

  function BlocksLines(blocks: seq<seq<(string, string)>>): seq<string> {
    if blocks == [] then [] else BlockLines(blocks[0]) + BlocksLines(blocks[1..])
  }

  function SectionsLines(listings: seq<Listing>): seq<string> {
    if listings == [] then []
    else HeaderLines(listings[0].header) + (BlocksLines(listings[0].blocks) + SectionsLines(listings[1..]))
  }

  function FileText(lines: seq<string>, eol: string): string {
    if lines == [] then "" else lines[0] + eol + FileText(lines[1..], eol)
  }

  // ----- what the file stands for

  function Collect<V>(m: map<string, V>, entries: seq<(string, V)>): map<string, V>
    decreases |entries|
  {
    if entries == [] then m else Collect(m[entries[0].0 := entries[0].1], entries[1..])
  }

  function CollectAll(blocks: seq<seq<(string, string)>>): seq<Block> {
    if blocks == [] then [] else [Collect(map[], blocks[0])] + CollectAll(blocks[1..])
  }

  function Meaning(listings: seq<Listing>): seq<Section> {
    if listings == [] then []
    else [Section(Some(Collect(map[], listings[0].header)), CollectAll(listings[0].blocks))] + Meaning(listings[1..])
  }

  // ----- what can be written

  /** Free of '=', of line feeds and of blanks at its ends. */
  predicate Writable(s: string) {
    '=' !in s && '\n' !in s && Bare(s, IsSpace)
  }

  predicate WritableHeaderEntry(entry: (string, int)) {
    Writable(entry.0) && (entry.0 == "" || entry.0[0] !in "[]")
  }

  /** A key that a block can start with. */
  predicate OpensBlock(key: string) {
    key == "" || key[0] !in "[#"
  }

  predicate WritableEntry(entry: (string, string)) {
    Writable(entry.0) && Writable(entry.1)
  }

  predicate WritableHeader(entries: seq<(string, int)>) {
    forall i :: 0 <= i < |entries| ==> WritableHeaderEntry(entries[i])
  }

  predicate WritableEntries(entries: seq<(string, string)>) {
    forall i :: 0 <= i < |entries| ==> WritableEntry(entries[i])
  }

  predicate WritableBlock(entries: seq<(string, string)>) {
    entries != [] && WritableEntries(entries) && OpensBlock(entries[0].0)
  }

  predicate WritableBlocks(blocks: seq<seq<(string, string)>>) {
    forall i :: 0 <= i < |blocks| ==> WritableBlock(blocks[i])
  }

  predicate WritableListing(listing: Listing) {
    && listing.header != []
    && WritableHeader(listing.header)
    && WritableBlocks(listing.blocks)
  }

  predicate WritableListings(listings: seq<Listing>) {
    forall i :: 0 <= i < |listings| ==> WritableListing(listings[i])
  }

  // ----- lines read back

  lemma StripBeside(s: string)
    requires Bare(s, IsSpace)
    ensures Strip(s) == s && Strip(s + " ") == s && Strip(" " + s) == s
  {
    assert "" + s + "" == s;
    assert "" + s + " " == s + " ";
    assert " " + s + "" == " " + s;
    TrimPadded("", s, "", IsSpace);
    TrimPadded("", s, " ", IsSpace);
    TrimPadded(" ", s, "", IsSpace);
  }

  lemma CutBetween(left: string, right: string)
    requires '=' !in left && '=' !in right
    ensures CutOnce(left + "=" + right, '=') == Some((left, right))
    ensures '=' in left + "=" + right
  {
    CutFirstAt(left, '=', right);
    assert left + ['='] + right == left + "=" + right;
    assert (left + "=" + right)[|left|] == '=';
  }

  function HeaderCore(entry: (string, int)): string {
    (entry.0 + " ") + "=" + (" " + IntText(entry.1))
  }

  lemma HeaderLineCore(entry: (string, int))
    ensures HeaderLine(entry) == "[" + HeaderCore(entry) + "]"
  {
    var k, digits := entry.0, IntText(entry.1);
    assert "[" + k + " = " + digits + "]" == "[" + (k + " " + "=" + (" " + digits)) + "]";
  }

  lemma HeaderCoreEnds(entry: (string, int))
    requires WritableHeaderEntry(entry)
    ensures HeaderLine(entry) == "[" + HeaderCore(entry) + "]"
    ensures Bare(HeaderCore(entry), IsBracket)
    ensures Bare(IntText(entry.1), IsSpace)
  {
    var core, digits := HeaderCore(entry), IntText(entry.1);
    ParseIntOfText(entry.1);
    assert digits[0] in digits && digits[|digits| - 1] in digits;
    assert core[|core| - 1] == digits[|digits| - 1];
    assert core[0] == if entry.0 == "" then ' ' else entry.0[0];
    HeaderLineCore(entry);
  }

  lemma HeaderLineReadBack(entry: (string, int))
    requires WritableHeaderEntry(entry)
    ensures Strip(HeaderLine(entry)) == HeaderLine(entry)
    ensures IsHeaderLine(HeaderLine(entry))
    ensures HeaderEntry(HeaderLine(entry)) == Ok(entry)
  {
    var (k, n) := entry;
    HeaderCoreEnds(entry);
    TrimPadded("[", HeaderCore(entry), "]", IsBracket);
    StripBeside(HeaderLine(entry));
    ParseIntOfText(n);
    CutBetween(k + " ", " " + IntText(n));
    StripBeside(k);
    StripBeside(IntText(n));
  }

  /** The stripped form of "key = value": a missing key or value takes the blank
      beside it along. */
  function StrippedEntry(entry: (string, string)): string {
    LeftPart(entry.0) + "=" + RightPart(entry.1)
  }

  function LeftPart(k: string): string {
    if k == "" then "" else k + " "
  }

  function RightPart(v: string): string {
    if v == "" then "" else " " + v
  }

  lemma BlockLineStripped(entry: (string, string))
    requires WritableEntry(entry)
    ensures Strip(BlockLine(entry)) == StrippedEntry(entry)
  {
    var p := if entry.0 == "" then " " else "";
    var q := if entry.1 == "" then " " else "";
    assert BlockLine(entry) == p + StrippedEntry(entry) + q;
    TrimPadded(p, StrippedEntry(entry), q, IsSpace);
  }

  lemma BlockLineReadBack(entry: (string, string))
    requires WritableEntry(entry)
    ensures var line := Strip(BlockLine(entry));
            line != "" && BlockEntry(line) == Ok(entry) && (EndsBlocks(line) <==> EndsBlocks(entry.0))
  {
    var (k, v) := entry;
    BlockLineStripped(entry);
    CutBetween(LeftPart(k), RightPart(v));
    StripBeside(k);
    StripBeside(v);
    StripBeside("");
    assert k != "" ==> StrippedEntry(entry)[0] == k[0];
  }

  lemma StripAllConcat(a: seq<string>, b: seq<string>)
    ensures StripAll(a + b) == StripAll(a) + StripAll(b)
  {
    if a == [] {
      assert a + b == b;
    } else {
      assert (a + b)[1..] == a[1..] + b;
      StripAllConcat(a[1..], b);
    }
  }

  lemma StripAllCons(first: string, tail: seq<string>, rest: seq<string>)
    ensures var lines := StripAll([first] + tail) + rest;
            |lines| > 0 && lines[0] == Strip(first) && lines[1..] == StripAll(tail) + rest
  {
    assert ([first] + tail)[1..] == tail;
  }

  lemma HeaderLineBare(entry: (string, int))
    ensures Strip(HeaderLine(entry)) == HeaderLine(entry)
  {
    StripBeside(HeaderLine(entry));
  }

  lemma HeaderLinesCons(entries: seq<(string, int)>, rest: seq<string>)
    requires entries != []
    ensures var lines := StripAll(HeaderLines(entries)) + rest;
            && |lines| > 0 && lines[0] == HeaderLine(entries[0])
            && lines[1..] == StripAll(HeaderLines(entries[1..])) + rest
  {
    HeaderLineBare(entries[0]);
    StripAllCons(HeaderLine(entries[0]), HeaderLines(entries[1..]), rest);
  }

  lemma {:induction false} HeaderReadBack(entries: seq<(string, int)>, header: Option<Header>, rest: seq<string>)
    requires WritableHeader(entries) && (entries != [] || header.Some?)
    ensures ReadHeader(StripAll(HeaderLines(entries)) + rest, header)
         == Ok((Some(Collect(Opened(header), entries)), rest))
    decreases |entries|
  {
    var lines := StripAll(HeaderLines(entries)) + rest;
    if entries == [] {
      assert HeaderLines(entries) == [""] && Strip("") == "";
      assert lines[0] == "" && lines[1..] == rest;
    } else {
      HeaderLinesCons(entries, rest);
      HeaderLineReadBack(entries[0]);
      HeaderReadBack(entries[1..], Some(Opened(header)[entries[0].0 := entries[0].1]), rest);
    }
  }

  lemma {:induction false} BlockReadBack(entries: seq<(string, string)>, block: Block, rest: seq<string>)
    requires WritableEntries(entries)
    ensures ReadBlock(StripAll(BlockLines(entries)) + rest, block) == Ok((Collect(block, entries), rest))
    decreases entries
  {
    var lines := StripAll(BlockLines(entries)) + rest;
    if entries == [] {
      assert BlockLines(entries) == [""] && Strip("") == "";
      assert lines[0] == "" && lines[1..] == rest;
    } else {
      BlockLineReadBack(entries[0]);
      StripAllCons(BlockLine(entries[0]), BlockLines(entries[1..]), rest);
      BlockReadBack(entries[1..], block[entries[0].0 := entries[0].1], rest);
    }
  }

  lemma OpensExactly(key: string)
    ensures OpensBlock(key) <==> !EndsBlocks(key)
  {
  }

  lemma FirstBlockLine(entries: seq<(string, string)>)
    requires WritableBlock(entries)
    ensures var lines := StripAll(BlockLines(entries));
            lines != [] && lines[0] != "" && !EndsBlocks(lines[0])
  {
    OpensExactly(entries[0].0);
    BlockLineReadBack(entries[0]);
  }

  lemma {:induction false} BlocksReadBack(blocks: seq<seq<(string, string)>>, rest: seq<string>)
    requires WritableBlocks(blocks)
    requires rest == [] || EndsBlocks(rest[0])
    ensures ReadBlocks(StripAll(BlocksLines(blocks)) + rest) == Ok((CollectAll(blocks), rest))
    decreases blocks
  {
    var lines := StripAll(BlocksLines(blocks)) + rest;
    if blocks == [] {
      assert lines == rest;
    } else {
      var tail := StripAll(BlocksLines(blocks[1..])) + rest;
      StripAllConcat(BlockLines(blocks[0]), BlocksLines(blocks[1..]));
      assert lines == StripAll(BlockLines(blocks[0])) + tail;
      FirstBlockLine(blocks[0]);
      BlockReadBack(blocks[0], map[], tail);
      BlocksReadBack(blocks[1..], rest);
    }
  }

  lemma SectionsLinesCons(listings: seq<Listing>)
    requires listings != []
    ensures StripAll(SectionsLines(listings))
         == StripAll(HeaderLines(listings[0].header))
          + (StripAll(BlocksLines(listings[0].blocks)) + StripAll(SectionsLines(listings[1..])))
  {
    var b, rest := BlocksLines(listings[0].blocks), SectionsLines(listings[1..]);
    StripAllConcat(HeaderLines(listings[0].header), b + rest);
    StripAllConcat(b, rest);
  }

  lemma FirstSectionLine(listings: seq<Listing>)
    requires listings != [] && WritableListing(listings[0])
    ensures var lines := StripAll(SectionsLines(listings));
            lines != [] && IsHeaderLine(lines[0])
  {
    var header := listings[0].header;
    SectionsLinesCons(listings);
    HeaderLinesCons(header, []);
    HeaderLineReadBack(header[0]);
    assert StripAll(HeaderLines(header)) + [] == StripAll(HeaderLines(header));
  }

  lemma ReadOneSection(lines: seq<string>, header: Header, body: seq<string>, blocks: seq<Block>,
                       tail: seq<string>, sections: seq<Section>)
    requires lines != [] && IsHeaderLine(lines[0]) && ReadHeader(lines, None) == Ok((Some(header), body))
    requires ReadBlocks(body) == Ok((blocks, tail)) && ReadSections(tail) == Ok(sections)
    ensures ReadSections(lines) == Ok([Section(Some(header), blocks)] + sections)
  {
  }

  lemma {:induction false} SectionsReadBack(listings: seq<Listing>)
    requires WritableListings(listings)
    ensures ReadSections(StripAll(SectionsLines(listings))) == Ok(Meaning(listings))
    decreases |listings|
  {
    if listings != [] {
      var first, others := listings[0], listings[1..];
      var tail := StripAll(SectionsLines(others));
      var body := StripAll(BlocksLines(first.blocks)) + tail;
      if others != [] {
        FirstSectionLine(others);
      }
      FirstSectionLine(listings);
      SectionsLinesCons(listings);
      HeaderReadBack(first.header, None, body);
      BlocksReadBack(first.blocks, tail);
      SectionsReadBack(others);
      ReadOneSection(StripAll(SectionsLines(listings)), Collect(map[], first.header), body,
                     CollectAll(first.blocks), tail, Meaning(others));
    }
  }

  // ----- whole files

  predicate IsEol(eol: string) {
    eol == "\n" || eol == "\r\n"
  }

  predicate FeedFree(lines: seq<string>) {
    forall i :: 0 <= i < |lines| ==> '\n' !in lines[i]
  }

  lemma {:induction false} LinesReadBack(lines: seq<string>, eol: string)
    requires IsEol(eol) && FeedFree(lines)
    ensures StripAll(ReadLines(FileText(lines, eol))) == StripAll(lines)
    decreases |lines|
  {
    if lines != [] {
      var rest := FileText(lines[1..], eol);
      var pad := eol[..|eol| - 1];
      assert eol == pad + "\n";
      assert FileText(lines, eol) == (lines[0] + pad) + ['\n'] + rest;
      CutFirstAt(lines[0] + pad, '\n', rest);
      assert lines[0] + pad + "\n" == lines[0] + eol;
      StripDropsSuffix(lines[0], eol);
      LinesReadBack(lines[1..], eol);
    }
  }

  lemma HeaderLinesFeedFree(entries: seq<(string, int)>)
    requires WritableHeader(entries)
    ensures FeedFree(HeaderLines(entries))
  {
    if entries != [] {
      assert WritableHeaderEntry(entries[0]);
      ParseIntOfText(entries[0].1);
      HeaderLinesFeedFree(entries[1..]);
    }
  }

  lemma BlockLinesFeedFree(entries: seq<(string, string)>)
    requires WritableEntries(entries)
    ensures FeedFree(BlockLines(entries))
  {
    if entries != [] {
      assert WritableEntry(entries[0]);
      BlockLinesFeedFree(entries[1..]);
    }
  }

  lemma BlocksLinesFeedFree(blocks: seq<seq<(string, string)>>)
    requires WritableBlocks(blocks)
    ensures FeedFree(BlocksLines(blocks))
  {
    if blocks != [] {
      BlockLinesFeedFree(blocks[0]);
      BlocksLinesFeedFree(blocks[1..]);
    }
  }

  lemma SectionsLinesFeedFree(listings: seq<Listing>)
    requires WritableListings(listings)
    ensures FeedFree(SectionsLines(listings))
  {
    if listings != [] {
      HeaderLinesFeedFree(listings[0].header);
      BlocksLinesFeedFree(listings[0].blocks);
      SectionsLinesFeedFree(listings[1..]);
    }
  }

  lemma {:induction false} NoiseIsSkipped(noise: seq<string>, lines: seq<string>)
    requires forall i :: 0 <= i < |noise| ==> IsNoise(noise[i])
    ensures ReadSections(noise + lines) == ReadSections(lines)
    decreases |noise|
  {
    if noise == [] {
      assert noise + lines == lines;
    } else {
      assert (noise + lines)[1..] == noise[1..] + lines;
      NoiseIsSkipped(noise[1..], lines);
    }
  }

  /** Comments at the top of a file, the second of which names the mode. */
  predicate IsPreamble(preamble: seq<string>) {
    && FeedFree(preamble)
    && ModeOf(StripAll(preamble)).Ok?
    && forall i :: 0 <= i < |preamble| ==> var line := StripAll(preamble)[i]; line == "" || line[0] == '#'
  }

  /** Writing sections to a file and loading it gives them back, in order, with
      every block and with empty values kept. */
  lemma LoadInvertsWriting(preamble: seq<string>, listings: seq<Listing>, eol: string)
    requires IsEol(eol) && IsPreamble(preamble) && WritableListings(listings)
    ensures Load(FileText(preamble + SectionsLines(listings), eol))
         == Ok((ModeOf(StripAll(preamble)).value, Meaning(listings)))
  {
    var lines := SectionsLines(listings);
    SectionsLinesFeedFree(listings);
    LinesReadBack(preamble + lines, eol);
    StripAllConcat(preamble, lines);
    assert StripAll(preamble + lines)[1] == StripAll(preamble)[1];
    NoiseIsSkipped(StripAll(preamble), StripAll(lines));
    SectionsReadBack(listings);
  }

  // ----- every list of sections is the meaning of some file

  predicate WritableHeaderMap(header: Header) {
    header != map[] && forall k :: k in header ==> WritableHeaderEntry((k, header[k]))
  }

  predicate WritableBlockMap(block: Block) {
    && (exists k :: k in block && OpensBlock(k))
    && (forall k :: k in block ==> WritableEntry((k, block[k])))
  }

  predicate WritableSection(section: Section) {
    && section.header.Some? && WritableHeaderMap(section.header.value)
    && (forall i :: 0 <= i < |section.blocks| ==> WritableBlockMap(section.blocks[i]))
  }

  lemma TakeOneKey<V>(m: map<string, V>, done: map<string, V>, k: string)
    requires k in m
    ensures done[k := m[k]] + (m - {k}) == done + m
    ensures |m - {k}| < |m|
  {
    assert m.Keys == (m - {k}).Keys + {k};
    assert |m - {k}| == |(m - {k}).Keys| && |m| == |m.Keys|;
  }

  lemma {:induction false} EntriesOf<V>(m: map<string, V>, done: map<string, V>) returns (entries: seq<(string, V)>)
    ensures forall i :: 0 <= i < |entries| ==> entries[i].0 in m && m[entries[i].0] == entries[i].1
    ensures Collect(done, entries) == done + m
    ensures m != map[] ==> entries != []
    decreases |m|
  {
    if m == map[] {
      entries := [];
      assert done + m == done;
    } else {
      var k :| k in m;
      TakeOneKey(m, done, k);
      var rest := EntriesOf(m - {k}, done[k := m[k]]);
      entries := [(k, m[k])] + rest;
      assert entries[1..] == rest;
    }
  }

  lemma BlockEntriesOf(block: Block) returns (entries: seq<(string, string)>)
    requires WritableBlockMap(block)
    ensures WritableBlock(entries) && Collect(map[], entries) == block
  {
    var k :| k in block && OpensBlock(k);
    var rest := EntriesOf(block - {k}, map[k := block[k]]);
    entries := [(k, block[k])] + rest;
    assert entries[1..] == rest;
    assert map[][k := block[k]] == map[k := block[k]];
    assert map[k := block[k]] + (block - {k}) == block;
  }

  lemma {:induction false} BlocksEntriesOf(blocks: seq<Block>) returns (listed: seq<seq<(string, string)>>)
    requires forall i :: 0 <= i < |blocks| ==> WritableBlockMap(blocks[i])
    ensures WritableBlocks(listed) && CollectAll(listed) == blocks
    decreases |blocks|
  {
    if blocks == [] {
      listed := [];
    } else {
      var first := BlockEntriesOf(blocks[0]);
      var rest := BlocksEntriesOf(blocks[1..]);
      listed := [first] + rest;
      assert listed[1..] == rest;
    }
  }

  lemma {:induction false} EverySectionListIsWritten(sections: seq<Section>) returns (listings: seq<Listing>)
    requires forall i :: 0 <= i < |sections| ==> WritableSection(sections[i])
    ensures WritableListings(listings) && Meaning(listings) == sections
    decreases |sections|
  {
    if sections == [] {
      listings := [];
    } else {
      var header := sections[0].header.value;
      var entries := EntriesOf(header, map[]);
      assert map[] + header == header;
      var blocks := BlocksEntriesOf(sections[0].blocks);
      var rest := EverySectionListIsWritten(sections[1..]);
      listings := [Listing(entries, blocks)] + rest;
      assert listings[1..] == rest;
    }
  }
}
