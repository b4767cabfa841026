/** The rows nist2h.py writes, one per block, and the struct a C compiler and a
    little-endian host make of a row. */
module NistRows {
  import opened Text
  import opened Hex
  import opened NistParser
  import opened CavpVectors

  // ----- nist2h.py

  predicate Kept(block: Block, key: string) {
    key in block && (key == "Count" || block[key] != "")
  }

  function FormattedValue(block: Block, key: string): string
    requires key in block
  {
    if key == "Count" then block[key] else Initializer(block[key])
  }

  function Formatted(block: Block): map<string, string> {
    map key | key in block && Kept(block, key) :: FormattedValue(block, key)
  }

  /** Count stays as it is, empty values go, every other value becomes its initializer. */
  method Format32(block: Block) returns (b: map<string, string>)
    ensures b == Formatted(block)
    ensures forall key :: key in b <==> key in block && (key == "Count" || block[key] != "")
    ensures forall key :: key in b ==> b[key] == if key == "Count" then block[key] else Initializer(block[key])
  {
    b := map[];
    var todo := block.Keys;
    while todo != {}
      invariant todo <= block.Keys
      invariant b == map key | key in block && key !in todo && Kept(block, key) :: FormattedValue(block, key)
      decreases |todo|
    {
      var k :| k in todo;
      todo := todo - {k};
      var v := block[k];
      if k == "Count" {
        b := b[k := v];
        continue;
      }
      if v == "" {
        continue;
      }
      b := b[k := Initializer(v)];
    }
  }

  /** A line of the table, or the key whose lookup failed. */
  datatype RowResult = Row(line: string) | KeyError(key: string)

  function JoinComma(parts: seq<string>): string {
    if parts == [] then ""
    else if |parts| == 1 then parts[0]
    else parts[0] + (", " + JoinComma(parts[1..]))
  }

  const ROW_OPEN: string := "    {"
  const ROW_CLOSE: string := "},\n"

  function RowLine(parts: seq<string>): string {
    ROW_OPEN + (JoinComma(parts) + ROW_CLOSE)
  }

  /** The order of the row template, which is the order of the struct's fields. */
  function RowParts(key: string, keyLen: int, iv: string, ivLen: int, pt: string, ptLen: int,
                    ct: string, aad: string, aadLen: int, tag: string, tagLen: int): seq<string>
  {
    [key, IntText(keyLen), iv, IntText(ivLen), pt, IntText(ptLen),
     ct, aad, IntText(aadLen), tag, IntText(tagLen)]
  }

  function Cell(b: map<string, string>, key: string): string {
    if key in b then b[key] else "{}"
  }

  function LengthCell(header: Header, b: map<string, string>, key: string, lengthKey: string): int
    requires key in b ==> lengthKey in header
  {
    if key in b then header[lengthKey] else 0
  }

  function RowOf(header: Header, block: Block): RowResult {
    var b := Formatted(block);
    if "AAD" in b && "AADlen" !in header then KeyError("AADlen")
    else if "PT" in b && "PTlen" !in header then KeyError("PTlen")
    else if "Key" !in b then KeyError("Key")
    else if "Keylen" !in header then KeyError("Keylen")
    else if "IV" !in b then KeyError("IV")
    else if "IVlen" !in header then KeyError("IVlen")
    else if "Tag" !in b then KeyError("Tag")
    else if "Taglen" !in header then KeyError("Taglen")
    else
      Row(RowLine(RowParts(
        b["Key"], header["Keylen"], b["IV"], header["IVlen"],
        Cell(b, "PT"), LengthCell(header, b, "PT", "PTlen"), Cell(b, "CT"),
        Cell(b, "AAD"), LengthCell(header, b, "AAD", "AADlen"), b["Tag"], header["Taglen"])))
  }

  /** The rows of a section's blocks, up to the first failed lookup. */
  datatype Rows = Rows(lines: seq<string>, failed: Option<string>)

  function BlockRows(rowOf: (Header, Block) -> RowResult, header: Header, blocks: seq<Block>): Rows
    decreases |blocks|
  {
    if blocks == [] then Rows([], None)
    else
      match rowOf(header, blocks[0])
      case KeyError(key) => Rows([], Some(key))
      case Row(line) =>
        var rest := BlockRows(rowOf, header, blocks[1..]);
        Rows([line] + rest.lines, rest.failed)
  }

  function Then(first: Rows, second: Rows): Rows {
    if first.failed.Some? then first else Rows(first.lines + second.lines, second.failed)
  }

  /** Sections read from a file always have a header. */
  function SectionHeader(section: Section): Header {
    if section.header.Some? then section.header.value else map[]
  }

  function TableRows(data: seq<Section>): Rows {
    if data == [] then Rows([], None)
    else Then(BlockRows(RowOf, SectionHeader(data[0]), data[0].blocks), TableRows(data[1..]))
  }

  method MakeRow(header: Header, block: Block) returns (r: RowResult)
    ensures r == RowOf(header, block)
  {
    var b := Format32(block);
    var aad, aadLen := "{}", 0;
    if "AAD" in b {
      aad := b["AAD"];
      if "AADlen" !in header { return KeyError("AADlen"); }
      aadLen := header["AADlen"];
    }
    var pt, ptLen := "{}", 0;
    if "PT" in b {
      pt := b["PT"];
      if "PTlen" !in header { return KeyError("PTlen"); }
      ptLen := header["PTlen"];
    }
    var ct := "{}";
    if "CT" in b {
      ct := b["CT"];
    }
    if "Key" !in b { return KeyError("Key"); }
    if "Keylen" !in header { return KeyError("Keylen"); }
    if "IV" !in b { return KeyError("IV"); }
    if "IVlen" !in header { return KeyError("IVlen"); }
    if "Tag" !in b { return KeyError("Tag"); }
    if "Taglen" !in header { return KeyError("Taglen"); }
    return Row(RowLine(RowParts(b["Key"], header["Keylen"], b["IV"], header["IVlen"],
                                pt, ptLen, ct, aad, aadLen, b["Tag"], header["Taglen"])));
  }

  lemma ThenNothing(r: Rows)
    ensures Then(Rows([], None), r) == r
    ensures Then(r, Rows([], None)) == r
  {
    assert [] + r.lines == r.lines && r.lines + [] == r.lines;
  }

  lemma ThenIsAssociative(a: Rows, b: Rows, c: Rows)
    ensures Then(Then(a, b), c) == Then(a, Then(b, c))
  {
    assert a.lines + b.lines + c.lines == a.lines + (b.lines + c.lines);
  }

  method WriteRows(data: seq<Section>) returns (r: Rows)
    requires Headed(data)
    ensures r == TableRows(data)
  {
    r := Rows([], None);
    ThenNothing(TableRows(data));
    for i := 0 to |data|
      invariant r.failed.None?
      invariant Then(r, TableRows(data[i..])) == TableRows(data)
    {
      var section := data[i];
      var blocks := section.blocks;
      var header := section.header.value;
      ghost var before := r;
      ThenNothing(r);
      ThenNothing(BlockRows(RowOf, header, blocks));
      for j := 0 to |blocks|
        invariant r.failed.None?
        invariant Then(r, BlockRows(RowOf, header, blocks[j..])) == Then(before, BlockRows(RowOf, header, blocks))
      {
        var row := MakeRow(header, blocks[j]);
        assert blocks[j..][1..] == blocks[j + 1..];
        if row.KeyError? {
          r := Rows(r.lines, Some(row.key));
          ThenIsAssociative(before, BlockRows(RowOf, header, blocks), TableRows(data[i + 1..]));
          assert data[i..][1..] == data[i + 1..];
          return;
        }
        ThenIsAssociative(r, Rows([row.line], None), BlockRows(RowOf, header, blocks[j + 1..]));
        r := Rows(r.lines + [row.line], None);
      }
      ThenNothing(r);
      assert data[i..][1..] == data[i + 1..];
      ThenIsAssociative(before, BlockRows(RowOf, header, blocks), TableRows(data[i + 1..]));
    }
    ThenNothing(r);
  }

  // ----- when there is a row

  datatype Lookup = InBlock(key: string) | InHeader(key: string)

  predicate HasValue(block: Block, key: string) {
    key in block && block[key] != ""
  }

  /** What a row is looked up from, in the order of the lookups. */
  function Lookups(block: Block): seq<Lookup> {
    (if HasValue(block, "AAD") then [InHeader("AADlen")] else [])
    + (if HasValue(block, "PT") then [InHeader("PTlen")] else [])
    + [InBlock("Key"), InHeader("Keylen"), InBlock("IV"), InHeader("IVlen"), InBlock("Tag"), InHeader("Taglen")]
  }

  predicate Found(header: Header, block: Block, lookup: Lookup) {
    match lookup
    case InBlock(key) => HasValue(block, key)
    case InHeader(key) => key in header
  }

  /** Lookup i is the first that fails. */
  predicate FirstMissing(header: Header, block: Block, lookups: seq<Lookup>, i: nat) {
    && i < |lookups| && !Found(header, block, lookups[i])
    && forall j :: 0 <= j < i ==> Found(header, block, lookups[j])
  }

  /** The key of the first lookup that fails. */
  function Missing(header: Header, block: Block, lookups: seq<Lookup>): Option<string> {
    if lookups == [] then None
    else if !Found(header, block, lookups[0]) then Some(lookups[0].key)
    else Missing(header, block, lookups[1..])
  }

  lemma {:induction false} MissingExactly(header: Header, block: Block, lookups: seq<Lookup>)
    ensures Missing(header, block, lookups).None? <==>
              forall i :: 0 <= i < |lookups| ==> Found(header, block, lookups[i])
    ensures forall i: nat :: FirstMissing(header, block, lookups, i) ==>
              Missing(header, block, lookups) == Some(lookups[i].key)
    decreases |lookups|
  {
    if lookups != [] && Found(header, block, lookups[0]) {
      var rest := lookups[1..];
      MissingExactly(header, block, rest);
      assert forall i :: 0 <= i < |rest| ==> rest[i] == lookups[i + 1];
      forall i: nat | FirstMissing(header, block, lookups, i)
        ensures Missing(header, block, lookups) == Some(lookups[i].key)
      {
        assert FirstMissing(header, block, rest, i - 1);
      }
    }
  }

  /** A block has a row exactly if all lookups succeed, and otherwise the error names the
      first that does not. */
  lemma RowExactly(header: Header, block: Block)
    ensures RowOf(header, block).Row? <==>
              forall i :: 0 <= i < |Lookups(block)| ==> Found(header, block, Lookups(block)[i])
    ensures forall i: nat :: FirstMissing(header, block, Lookups(block), i) ==>
              RowOf(header, block) == KeyError(Lookups(block)[i].key)
  {
    MissingExactly(header, block, Lookups(block));
    RowMisses(header, block);
    RowErrorExactly(header, block);
  }

  /** The first failed lookup, told from the block itself. */
  function RowError(header: Header, block: Block): Option<string> {
    if HasValue(block, "AAD") && "AADlen" !in header then Some("AADlen")
    else if HasValue(block, "PT") && "PTlen" !in header then Some("PTlen")
    else AlwaysError(header, block)
  }

  function AlwaysError(header: Header, block: Block): Option<string> {
    if !HasValue(block, "Key") then Some("Key") else if "Keylen" !in header then Some("Keylen")
    else if !HasValue(block, "IV") then Some("IV") else if "IVlen" !in header then Some("IVlen")
    else if !HasValue(block, "Tag") then Some("Tag") else if "Taglen" !in header then Some("Taglen")
    else None
  }

  lemma RowErrorExactly(header: Header, block: Block)
    ensures match RowOf(header, block)
            case Row(_) => RowError(header, block) == None
            case KeyError(key) => RowError(header, block) == Some(key)
  {
    FormattedHas(block);
  }

  lemma RowMisses(header: Header, block: Block)
    ensures Missing(header, block, Lookups(block)) == RowError(header, block)
  {
    var always := [InBlock("Key"), InHeader("Keylen"), InBlock("IV"), InHeader("IVlen"),
                   InBlock("Tag"), InHeader("Taglen")];
    AlwaysMissed(header, block, always);
    var pt := if HasValue(block, "PT") then [InHeader("PTlen")] + always else always;
    MissingCons(header, block, InHeader("PTlen"), always);
    MissingCons(header, block, InHeader("AADlen"), pt);
    assert Lookups(block) == if HasValue(block, "AAD") then [InHeader("AADlen")] + pt else pt;
  }

  lemma MissingCons(header: Header, block: Block, lookup: Lookup, rest: seq<Lookup>)
    ensures Missing(header, block, [lookup] + rest)
         == if Found(header, block, lookup) then Missing(header, block, rest) else Some(lookup.key)
  {
    assert ([lookup] + rest)[1..] == rest;
  }

  lemma AlwaysMissed(header: Header, block: Block, always: seq<Lookup>)
    requires always == [InBlock("Key"), InHeader("Keylen"), InBlock("IV"), InHeader("IVlen"),
                        InBlock("Tag"), InHeader("Taglen")]
    ensures Missing(header, block, always) == AlwaysError(header, block)
  {
    MissingCons(header, block, InHeader("Taglen"), []);
    assert [InHeader("Taglen")] + [] == always[5..];
    MissingCons(header, block, InBlock("Tag"), always[5..]);
    assert [InBlock("Tag")] + always[5..] == always[4..];
    MissingCons(header, block, InHeader("IVlen"), always[4..]);
    assert [InHeader("IVlen")] + always[4..] == always[3..];
    MissingCons(header, block, InBlock("IV"), always[3..]);
    assert [InBlock("IV")] + always[3..] == always[2..];
    MissingCons(header, block, InHeader("Keylen"), always[2..]);
    assert [InHeader("Keylen")] + always[2..] == always[1..];
    MissingCons(header, block, InBlock("Key"), always[1..]);
    assert [InBlock("Key")] + always[1..] == always;
  }

  lemma FormattedHas(block: Block)
    ensures forall key :: key != "Count" ==> (key in Formatted(block) <==> HasValue(block, key))
  {
  }

  // ----- one row per block, in order, over all files

  function WithHeader(header: Header, blocks: seq<Block>): (r: seq<(Header, Block)>)
    ensures |r| == |blocks|
  {
    seq(|blocks|, j requires 0 <= j < |blocks| => (header, blocks[j]))
  }

  /** Every block of the input beside the header it was read under, in file order. */
  function AllBlocks(data: seq<Section>): seq<(Header, Block)> {
    if data == [] then [] else WithHeader(SectionHeader(data[0]), data[0].blocks) + AllBlocks(data[1..])
  }

  /** The lines are the rows of the first blocks; the table stops only at a block
      without a row. */
  predicate RowsFor(r: Rows, flat: seq<(Header, Block)>, rowOf: (Header, Block) -> RowResult) {
    && |r.lines| <= |flat|
    && (forall k :: 0 <= k < |r.lines| ==> rowOf(flat[k].0, flat[k].1) == Row(r.lines[k]))
    && match r.failed
       case None => |r.lines| == |flat|
       case Some(key) => |r.lines| < |flat| && rowOf(flat[|r.lines|].0, flat[|r.lines|].1) == KeyError(key)
  }

  /** The blocks of more sections come behind. */
  lemma {:induction false} AllBlocksSplit(a: seq<Section>, b: seq<Section>)
    ensures AllBlocks(a + b) == AllBlocks(a) + AllBlocks(b)
    decreases |a|
  {
    if a == [] {
      assert a + b == b;
    } else {
      assert (a + b)[1..] == a[1..] + b;
      AllBlocksSplit(a[1..], b);
    }
  }

  lemma RowsForCons(line: string, rest: Rows, pair: (Header, Block), flat: seq<(Header, Block)>,
                    rowOf: (Header, Block) -> RowResult)
    requires RowsFor(rest, flat, rowOf) && rowOf(pair.0, pair.1) == Row(line)
    ensures RowsFor(Rows([line] + rest.lines, rest.failed), [pair] + flat, rowOf)
  {
    RowsForThen(Rows([line], None), [pair], rest, flat, rowOf);
  }

  lemma {:induction false} BlockRowsFor(rowOf: (Header, Block) -> RowResult, header: Header, blocks: seq<Block>)
    ensures RowsFor(BlockRows(rowOf, header, blocks), WithHeader(header, blocks), rowOf)
    decreases |blocks|
  {
    if blocks != [] && rowOf(header, blocks[0]).Row? {
      BlockRowsFor(rowOf, header, blocks[1..]);
      RowsForCons(rowOf(header, blocks[0]).line, BlockRows(rowOf, header, blocks[1..]), (header, blocks[0]),
                  WithHeader(header, blocks[1..]), rowOf);
      assert WithHeader(header, blocks) == [(header, blocks[0])] + WithHeader(header, blocks[1..]);
    }
  }

  lemma RowsForThen(a: Rows, flatA: seq<(Header, Block)>, b: Rows, flatB: seq<(Header, Block)>,
                    rowOf: (Header, Block) -> RowResult)
    requires RowsFor(a, flatA, rowOf) && RowsFor(b, flatB, rowOf)
    ensures RowsFor(Then(a, b), flatA + flatB, rowOf)
  {
    var flat := flatA + flatB;
    assert forall k :: 0 <= k < |flatA| ==> flat[k] == flatA[k];
    assert forall k :: 0 <= k < |flatB| ==> flat[|flatA| + k] == flatB[k];
  }

  /** The table has exactly one row per block, in order, unless a lookup fails; then it
      has the rows of the blocks before that one. */
  lemma {:induction false} OneRowPerBlock(data: seq<Section>)
    ensures RowsFor(TableRows(data), AllBlocks(data), RowOf)
    decreases |data|
  {
    if data != [] {
      BlockRowsFor(RowOf, SectionHeader(data[0]), data[0].blocks);
      OneRowPerBlock(data[1..]);
      RowsForThen(BlockRows(RowOf, SectionHeader(data[0]), data[0].blocks),
                  WithHeader(SectionHeader(data[0]), data[0].blocks),
                  TableRows(data[1..]), AllBlocks(data[1..]), RowOf);
    }
  }

  predicate Headed(sections: seq<Section>) {
    forall i :: 0 <= i < |sections| ==> sections[i].header.Some?
  }

  lemma {:induction false} HeadersPresent(lines: seq<string>)
    ensures ReadSections(lines).Ok? ==> Headed(ReadSections(lines).value)
    decreases |lines|
  {
    if lines != [] && ReadSections(lines).Ok? {
      if IsNoise(lines[0]) {
        HeadersPresent(lines[1..]);
      } else {
        var (header, body) := ReadHeader(lines, None).value;
        var (blocks, rest) := ReadBlocks(body).value;
        HeadersPresent(rest);
        assert ReadSections(lines).value == [Section(header, blocks)] + ReadSections(rest).value;
      }
    }
  }

  /** The sections of all input files. */
  function LoadAll(texts: seq<string>): Result<seq<Section>> {
    if texts == [] then Ok([])
    else
      var (_, sections) :- Load(texts[0]);
      Following(sections, LoadAll(texts[1..]))
  }

  /** More files come behind: their sections after those of the first ones, and none of
      them is read if one of the first does not load. */
  lemma {:induction false} LoadAllSplit(a: seq<string>, b: seq<string>)
    ensures LoadAll(a + b) == match LoadAll(a) case Err(e) => Err(e) case Ok(data) => Following(data, LoadAll(b))
    decreases |a|
  {
    if a == [] {
      assert a + b == b;
      FollowingNothing(LoadAll(b));
    } else {
      assert (a + b)[1..] == a[1..] + b;
      LoadAllSplit(a[1..], b);
      if Load(a[0]).Ok? && LoadAll(a[1..]).Ok? {
        FollowingTwice(Load(a[0]).value.1, LoadAll(a[1..]).value, LoadAll(b));
      }
    }
  }

  lemma LoadOne(text: string)
    ensures LoadAll([text]) == if Load(text).Ok? then Ok(Load(text).value.1) else Err(Load(text).error)
  {
    assert LoadAll([text][1..]) == Ok([]);
    if Load(text).Ok? {
      assert Load(text).value.1 + [] == Load(text).value.1;
    }
  }

  method LoadFiles(texts: seq<string>) returns (r: Result<seq<Section>>)
    ensures r == LoadAll(texts)
    ensures r.Ok? ==> Headed(r.value)
  {
    var data: seq<Section> := [];
    FollowingNothing(LoadAll(texts));
    for i := 0 to |texts|
      invariant Following(data, LoadAll(texts[i..])) == LoadAll(texts)
      invariant Headed(data)
    {
      var loaded := LoadNist(texts[i]);
      assert texts[i..][1..] == texts[i + 1..];
      LoadAllStep(data, texts[i..]);
      if loaded.Err? {
        return Err(loaded.error);
      }
      LoadedHeaded(texts[i]);
      data := data + loaded.value.1;
    }
    assert data + [] == data;
    return Ok(data);
  }

  lemma LoadedHeaded(text: string)
    ensures Load(text).Ok? ==> Headed(Load(text).value.1)
  {
    HeadersPresent(StripAll(ReadLines(text)));
  }

  /** The program: load every input file, then write the table. */
  method Compile(texts: seq<string>) returns (r: Result<Rows>)
    ensures match LoadAll(texts)
            case Err(e) => r == Err(e)
            case Ok(data) => r.Ok? && RowsFor(r.value, AllBlocks(data), RowOf)
  {
    var data := LoadFiles(texts);
    if data.Err? {
      return Err(data.error);
    }
    var rows := WriteRows(data.value);
    OneRowPerBlock(data.value);
    return Ok(rows);
  }

  lemma LoadAllStep(data: seq<Section>, texts: seq<string>)
    requires texts != []
    ensures Following(data, LoadAll(texts))
         == match Load(texts[0])
            case Err(e) => Err(e)
            case Ok((_, sections)) => Following(data + sections, LoadAll(texts[1..]))
  {
    if Load(texts[0]).Ok? {
      FollowingTwice(data, Load(texts[0]).value.1, LoadAll(texts[1..]));
    }
  }

  // ----- a row as C reads it

  datatype Field = Words(words: seq<nat>) | Number(n: nat)

  /** A decimal literal; one with a leading zero would be octal. */
  function ReadNumber(s: string): (r: Option<(Field, string)>)
    ensures r.Some? ==> |r.value.1| < |s|
  {
    var (digits, rest) := Run(s, IsDigit);
    if digits == "" || (digits[0] == '0' && |digits| > 1) then None
    else Some((Number(DigitsValue(digits)), rest))
  }

  function ReadField(s: string): (r: Option<(Field, string)>)
    ensures r.Some? ==> |r.value.1| < |s|
  {
    var t := SkipBlanks(s);
    if StartsWith(t, '{') then
      match ReadWords(t[1..])
      case None => None
      case Some((words, rest)) => Some((Words(words), rest))
    else ReadNumber(t)
  }

  function ReadFields(s: string): (r: Option<(seq<Field>, string)>)
    ensures r.Some? ==> |r.value.1| < |s|
    decreases |s|
  {
    match ReadField(s)
    case None => None
    case Some((field, rest)) =>
      var t := SkipBlanks(rest);
      if StartsWith(t, ',') then
        match ReadFields(t[1..])
        case None => None
        case Some((fields, tail)) => Some(([field] + fields, tail))
      else Some(([field], t))
  }

  /** The struct of the generated header, field by field. */
  datatype GcmData = GcmData(
    key: seq<nat>, keyLen: nat, iv: seq<nat>, ivLen: nat, pt: seq<nat>, ptLen: nat,
    ct: seq<nat>, aad: seq<nat>, aadLen: nat, tag: seq<nat>, tagLen: nat)

  const KEY_WORDS := 8
  const IV_WORDS := 128
  const PT_WORDS := 64
  const CT_WORDS := 64
  const AAD_WORDS := 96
  const TAG_WORDS := 16

  /** The fields in order; an array takes no more initializers than it has elements. */
  function ToStruct(f: seq<Field>): Option<GcmData> {
    if |f| == 11
       && f[0].Words? && f[1].Number? && f[2].Words? && f[3].Number? && f[4].Words? && f[5].Number?
       && f[6].Words? && f[7].Words? && f[8].Number? && f[9].Words? && f[10].Number?
       && |f[0].words| <= 8 && |f[2].words| <= 128 && |f[4].words| <= 64
       && |f[6].words| <= 64 && |f[7].words| <= 96 && |f[9].words| <= 16
    then Some(GcmData(f[0].words, f[1].n, f[2].words, f[3].n, f[4].words, f[5].n,
                      f[6].words, f[7].words, f[8].n, f[9].words, f[10].n))
    else None
  }

  /** One brace-enclosed element of the array, and the text after it. */
  function ReadRow(s: string): (r: Option<(GcmData, string)>)
    ensures r.Some? ==> |r.value.1| < |s|
  {
    var t := SkipBlanks(s);
    if !StartsWith(t, '{') then None
    else
      match ReadFields(t[1..])
      case None => None
      case Some((fields, rest)) =>
        if StartsWith(rest, '}') && ToStruct(fields).Some? then Some((ToStruct(fields).value, rest[1..])) else None
  }

  /** The elements between the braces of the array. */
  function ReadTable(s: string): Option<seq<GcmData>>
    decreases |s|
  {
    var t := SkipBlanks(s);
    if t == "" then Some([])
    else
      match ReadRow(t)
      case None => None
      case Some((g, rest)) =>
        var u := SkipBlanks(rest);
        if u == "" then Some([g])
        else if !StartsWith(u, ',') then None
        else
          match ReadTable(u[1..])
          case None => None
          case Some(data) => Some([g] + data)
  }

  /** What one place of a row is written from: a hex string or a length in bits. */
  datatype Source = Hexes(v: string) | Bits(n: nat)

  predicate ValidSource(source: Source) {
    source.Hexes? ==> AllOf(source.v, IsHex)
  }

  function SourceText(source: Source): string {
    match source
    case Hexes(v) => Initializer(v)
    case Bits(n) => IntText(n)
  }

  /** How C reads what was written from a source, given the words of a hex string. */
  function FieldOf(stored: string -> seq<nat>, source: Source): Field {
    match source
    case Hexes(v) => Words(stored(v))
    case Bits(n) => Number(n)
  }

  function FieldsOf(stored: string -> seq<nat>, sources: seq<Source>): seq<Field> {
    seq(|sources|, i requires 0 <= i < |sources| => FieldOf(stored, sources[i]))
  }

  /** The words the initializer of a hex string stores. */
  function StoredAs(v: string): seq<nat> {
    if AllOf(v, IsHex) then
      StoredWordsOfValue(v);
      WordValues(Words32(v))
    else []
  }

  function SourceTexts(sources: seq<Source>): seq<string> {
    seq(|sources|, i requires 0 <= i < |sources| => SourceText(sources[i]))
  }

  lemma {:induction false} NoLeadingZero(n: nat)
    ensures NatText(n)[0] == '0' <==> n == 0
    decreases n
  {
    if n >= 10 {
      NoLeadingZero(n / 10);
    }
  }

  lemma NumberReadBack(n: nat, rest: string)
    requires rest != "" && rest[0] in "},"
    ensures ReadField(NatText(n) + rest) == Some((Number(n), rest))
  {
    var digits := NatText(n);
    RunStops(digits, rest, IsDigit);
    DigitsOfNat(n);
    NoLeadingZero(n);
    assert IsDigit(digits[0]) && (digits + rest)[0] == digits[0];
    NothingToSkip(digits + rest);
  }

  lemma WordsReadBack(v: string, rest: string)
    requires AllOf(v, IsHex)
    ensures ReadField(Initializer(v) + rest) == Some((Words(StoredAs(v)), rest))
  {
    StoredWordsOfValue(v);
    InitializerReadsBack(v, rest);
    assert (Initializer(v) + rest)[0] == '{';
    NothingToSkip(Initializer(v) + rest);
  }

  lemma FieldReadBack(source: Source, rest: string)
    requires ValidSource(source) && rest != "" && rest[0] in "},"
    ensures ReadField(SourceText(source) + rest) == Some((FieldOf(StoredAs, source), rest))
  {
    match source
    case Hexes(v) => WordsReadBack(v, rest);
    case Bits(n) => NumberReadBack(n, rest);
  }

  lemma LastField(source: Source, rest: string)
    requires ValidSource(source) && rest != "" && rest[0] == '}'
    ensures ReadFields(SourceText(source) + rest) == Some(([FieldOf(StoredAs, source)], rest))
  {
    FieldReadBack(source, rest);
    NothingToSkip(rest);
  }

  lemma BlankBeforeFields(s: string)
    ensures ReadFields(" " + s) == ReadFields(s)
  {
    SkipsBlank(s);
  }

  lemma FieldsStep(s: string, field: Field, onward: string, fields: seq<Field>, rest: string)
    requires ReadField(s) == Some((field, "," + onward)) && ReadFields(onward) == Some((fields, rest))
    ensures ReadFields(s) == Some(([field] + fields, rest))
  {
    NothingToSkip("," + onward);
    assert ("," + onward)[1..] == onward;
  }

  lemma InnerText(s: string, field: Field, onward: string, fields: seq<Field>, rest: string)
    requires ReadField(s) == Some((field, ", " + onward)) && ReadFields(onward) == Some((fields, rest))
    ensures ReadFields(s) == Some(([field] + fields, rest))
  {
    BlankBeforeFields(onward);
    assert ", " + onward == "," + (" " + onward);
    FieldsStep(s, field, " " + onward, fields, rest);
  }

  lemma InnerField(source: Source, onward: string, fields: seq<Field>, rest: string)
    requires ValidSource(source) && ReadFields(onward) == Some((fields, rest))
    ensures ReadFields(SourceText(source) + (", " + onward)) == Some(([FieldOf(StoredAs, source)] + fields, rest))
  {
    FieldReadBack(source, ", " + onward);
    InnerText(SourceText(source) + (", " + onward), FieldOf(StoredAs, source), onward, fields, rest);
  }

  lemma SourcesCons(sources: seq<Source>, rest: string)
    requires |sources| > 1
    ensures JoinComma(SourceTexts(sources)) + rest
         == SourceText(sources[0]) + (", " + (JoinComma(SourceTexts(sources[1..])) + rest))
  {
    var texts := SourceTexts(sources);
    assert texts[1..] == SourceTexts(sources[1..]);
    Regroup(texts[0], ", ", JoinComma(texts[1..]), rest);
  }

  lemma FieldsCons(stored: string -> seq<nat>, sources: seq<Source>)
    requires sources != []
    ensures FieldsOf(stored, sources) == [FieldOf(stored, sources[0])] + FieldsOf(stored, sources[1..])
  {
  }

  lemma {:induction false} FieldsReadBack(sources: seq<Source>, rest: string)
    requires sources != [] && forall i :: 0 <= i < |sources| ==> ValidSource(sources[i])
    requires rest != "" && rest[0] == '}'
    ensures ReadFields(JoinComma(SourceTexts(sources)) + rest) == Some((FieldsOf(StoredAs, sources), rest))
    decreases |sources|
  {
    FieldsCons(StoredAs, sources);
    if |sources| == 1 {
      LastField(sources[0], rest);
      assert SourceTexts(sources) == [SourceText(sources[0])];
      assert FieldsOf(StoredAs, sources) == [FieldOf(StoredAs, sources[0])];
    } else {
      var tail := sources[1..];
      FieldsReadBack(tail, rest);
      InnerField(sources[0], JoinComma(SourceTexts(tail)) + rest, FieldsOf(StoredAs, tail), rest);
      SourcesCons(sources, rest);
    }
  }

  /** C reads the line as this element followed by a comma, whatever comes next. */
  ghost predicate IsElement(line: string, g: GcmData) {
    forall rest: string :: ReadRow(line + rest) == Some((g, ",\n" + rest))
  }

  lemma RowOpens(joined: string, rest: string)
    ensures var s := ROW_OPEN + (joined + ROW_CLOSE) + rest;
            SkipBlanks(s) == "{" + (joined + ("}" + (",\n" + rest)))
  {
    var onward := joined + ("}" + (",\n" + rest));
    assert ROW_OPEN + (joined + ROW_CLOSE) + rest == "    " + ("{" + onward);
    TrimLeftDropsPrefix("    ", "{" + onward, IsBlank);
    NothingToSkip("{" + onward);
  }

  lemma RowReadBack(sources: seq<Source>)
    requires sources != [] && forall i :: 0 <= i < |sources| ==> ValidSource(sources[i])
    requires ToStruct(FieldsOf(StoredAs, sources)).Some?
    ensures IsElement(RowLine(SourceTexts(sources)), ToStruct(FieldsOf(StoredAs, sources)).value)
  {
    var joined := JoinComma(SourceTexts(sources));
    forall rest: string
      ensures ReadRow(RowLine(SourceTexts(sources)) + rest)
           == Some((ToStruct(FieldsOf(StoredAs, sources)).value, ",\n" + rest))
    {
      FieldsReadBack(sources, "}" + (",\n" + rest));
      RowOpens(joined, rest);
      PrefixThen("{", joined + ("}" + (",\n" + rest)));
      PrefixThen("}", ",\n" + rest);
    }
  }

  // ----- the whole table

  /** What has been written to the output file for these rows. */
  function TableText(lines: seq<string>): string {
    if lines == [] then "" else lines[0] + TableText(lines[1..])
  }

  lemma BlanksBeforeTable(s: string)
    ensures ReadTable("\n" + s) == ReadTable(s)
  {
    TrimLeftDropsPrefix("\n", s, IsBlank);
  }

  lemma TableStep(s: string, g: GcmData, u: string, data: seq<GcmData>)
    requires ReadRow(s) == Some((g, u)) && StartsWith(u, ',') && ReadTable(u[1..]) == Some(data)
    ensures ReadTable(s) == Some([g] + data)
  {
    var t := SkipBlanks(s);
    NothingToSkip(t);
    assert ReadRow(t) == ReadRow(s);
    NothingToSkip(u);
  }

  lemma CommaAndFeed(rest: string)
    ensures StartsWith(",\n" + rest, ',') && ReadTable((",\n" + rest)[1..]) == ReadTable(rest)
  {
    assert (",\n" + rest)[1..] == "\n" + rest;
    BlanksBeforeTable(rest);
  }

  /** The rows together are read as the elements in order. */
  lemma {:induction false} TableReadBack(lines: seq<string>, data: seq<GcmData>)
    requires |lines| == |data| && forall i :: 0 <= i < |lines| ==> IsElement(lines[i], data[i])
    ensures ReadTable(TableText(lines)) == Some(data)
    decreases |lines|
  {
    if lines != [] {
      TableReadBack(lines[1..], data[1..]);
      CommaAndFeed(TableText(lines[1..]));
      TableStep(TableText(lines), data[0], ",\n" + TableText(lines[1..]), data[1..]);
      assert data == [data[0]] + data[1..];
    }
  }
}
