/** The generated table as its consumer, the AES-GCM test, sees it: that it carries what the
    vector file says, and the comparison of an answer with a row. */
module CavpTests {
  import opened Text
  import opened Hex
  import opened NistParser
  import opened NistTheorems
  import opened CavpVectors
  import opened NistRows

  /** A value of the vector file; an absent one counts as empty. */
  function ValueOf(block: Block, key: string): string {
    if key in block then block[key] else ""
  }

  predicate HexValueOf(v: string, capacity: nat) {
    AllOf(v, IsHex) && |v| % 2 == 0 && |v| <= 8 * capacity
  }

  /** The value is whole bytes of hex that fit the struct, and the section's header
      gives its length. */
  predicate Measured(header: Header, v: string, lengthKey: string, capacity: nat) {
    && HexValueOf(v, capacity)
    && (v != "" ==> lengthKey in header && header[lengthKey] == 4 * |v|)
  }

  /** A block as the CAVP files have them. */
  predicate Consistent(header: Header, block: Block) {
    && ValueOf(block, "Key") != "" && Measured(header, ValueOf(block, "Key"), "Keylen", KEY_WORDS)
    && ValueOf(block, "IV") != "" && Measured(header, ValueOf(block, "IV"), "IVlen", IV_WORDS)
    && ValueOf(block, "Tag") != "" && Measured(header, ValueOf(block, "Tag"), "Taglen", TAG_WORDS)
    && Measured(header, ValueOf(block, "PT"), "PTlen", PT_WORDS)
    && Measured(header, ValueOf(block, "AAD"), "AADlen", AAD_WORDS)
    && HexValueOf(ValueOf(block, "CT"), CT_WORDS)
    && |ValueOf(block, "CT")| == |ValueOf(block, "PT")|
  }

  /** Every array of the struct, seen through its length, is what the file says. The
      test reads the cipher text through the length of the plain text. */
  predicate Carries(g: GcmData, block: Block) {
    && Holds(g.key, KEY_WORDS, g.keyLen, ValueOf(block, "Key"))
    && Holds(g.iv, IV_WORDS, g.ivLen, ValueOf(block, "IV"))
    && Holds(g.pt, PT_WORDS, g.ptLen, ValueOf(block, "PT"))
    && Holds(g.ct, CT_WORDS, g.ptLen, ValueOf(block, "CT"))
    && Holds(g.aad, AAD_WORDS, g.aadLen, ValueOf(block, "AAD"))
    && Holds(g.tag, TAG_WORDS, g.tagLen, ValueOf(block, "Tag"))
  }

  // ----- what a row means, whatever the lengths are

  predicate HexFor(v: string, capacity: nat) {
    AllOf(v, IsHex) && |v| <= 8 * capacity
  }

  /** Hex values that are not too long for their arrays. */
  predicate HexValues(key: string, iv: string, pt: string, ct: string, aad: string, tag: string) {
    && HexFor(key, KEY_WORDS) && HexFor(iv, IV_WORDS) && HexFor(pt, PT_WORDS)
    && HexFor(ct, CT_WORDS) && HexFor(aad, AAD_WORDS) && HexFor(tag, TAG_WORDS)
  }

  predicate HexBlockValues(block: Block) {
    HexValues(ValueOf(block, "Key"), ValueOf(block, "IV"), ValueOf(block, "PT"),
              ValueOf(block, "CT"), ValueOf(block, "AAD"), ValueOf(block, "Tag"))
  }

  predicate Natural(header: Header, lengthKey: string) {
    lengthKey in header ==> header[lengthKey] >= 0
  }

  /** The lengths that go into the row are not negative. */
  predicate NaturalLengths(header: Header, block: Block) {
    && Natural(header, "Keylen") && Natural(header, "IVlen") && Natural(header, "Taglen")
    && (ValueOf(block, "PT") != "" ==> Natural(header, "PTlen"))
    && (ValueOf(block, "AAD") != "" ==> Natural(header, "AADlen"))
  }

  /** The length that goes with a value: the section's, or 0 for an absent optional one. */
  function LengthFor(header: Header, lengthKey: string, present: bool): nat {
    if present && lengthKey in header && header[lengthKey] >= 0 then header[lengthKey] else 0
  }

  datatype Lengths = Lengths(key: nat, iv: nat, pt: nat, aad: nat, tag: nat)

  function LengthsOf(header: Header, block: Block): Lengths {
    Lengths(LengthFor(header, "Keylen", true), LengthFor(header, "IVlen", true),
            LengthFor(header, "PTlen", ValueOf(block, "PT") != ""),
            LengthFor(header, "AADlen", ValueOf(block, "AAD") != ""), LengthFor(header, "Taglen", true))
  }

  function Sources(n: Lengths, key: string, iv: string, pt: string, ct: string, aad: string, tag: string): seq<Source> {
    [Hexes(key), Bits(n.key), Hexes(iv), Bits(n.iv), Hexes(pt), Bits(n.pt),
     Hexes(ct), Hexes(aad), Bits(n.aad), Hexes(tag), Bits(n.tag)]
  }

  function SourcesOf(header: Header, block: Block): seq<Source> {
    Sources(LengthsOf(header, block), ValueOf(block, "Key"), ValueOf(block, "IV"), ValueOf(block, "PT"),
            ValueOf(block, "CT"), ValueOf(block, "AAD"), ValueOf(block, "Tag"))
  }

  lemma CellOfValue(header: Header, block: Block, key: string, lengthKey: string)
    requires key != "Count"
    requires ValueOf(block, key) != "" ==> lengthKey in header && header[lengthKey] >= 0
    ensures Cell(Formatted(block), key) == Initializer(ValueOf(block, key))
    ensures ValueOf(block, key) != "" <==> key in Formatted(block)
    ensures LengthCell(header, Formatted(block), key, lengthKey)
         == LengthFor(header, lengthKey, ValueOf(block, key) != "")
  {
    assert Words32("") == [] && Initializer("") == "{}";
  }

  function Texts(text: Source -> string, sources: seq<Source>): seq<string> {
    seq(|sources|, i requires 0 <= i < |sources| => text(sources[i]))
  }

  lemma TextsOf(text: Source -> string, n: Lengths, key: string, iv: string, pt: string,
                ct: string, aad: string, tag: string)
    ensures Texts(text, Sources(n, key, iv, pt, ct, aad, tag))
         == [text(Hexes(key)), text(Bits(n.key)), text(Hexes(iv)), text(Bits(n.iv)), text(Hexes(pt)), text(Bits(n.pt)),
             text(Hexes(ct)), text(Hexes(aad)), text(Bits(n.aad)), text(Hexes(tag)), text(Bits(n.tag))]
  {
  }

  lemma PartsOfSources(n: Lengths, key: string, iv: string, pt: string, ct: string, aad: string, tag: string)
    ensures RowParts(Initializer(key), n.key, Initializer(iv), n.iv, Initializer(pt), n.pt,
                     Initializer(ct), Initializer(aad), n.aad, Initializer(tag), n.tag)
         == SourceTexts(Sources(n, key, iv, pt, ct, aad, tag))
  {
    var sources := Sources(n, key, iv, pt, ct, aad, tag);
    TextsOf(SourceText, n, key, iv, pt, ct, aad, tag);
    assert SourceTexts(sources) == Texts(SourceText, sources);
  }

  lemma LengthPresent(header: Header, block: Block)
    requires RowOf(header, block).Row? && NaturalLengths(header, block)
    ensures ValueOf(block, "PT") != "" ==> "PTlen" in header && header["PTlen"] >= 0
    ensures ValueOf(block, "AAD") != "" ==> "AADlen" in header && header["AADlen"] >= 0
    ensures forall key :: key in ["Key", "IV", "Tag"] ==> ValueOf(block, key) != ""
    ensures forall key :: key in ["Keylen", "IVlen", "Taglen"] ==> key in header && header[key] >= 0
  {
    FormattedHas(block);
  }

  lemma RowIsSources(header: Header, block: Block)
    requires RowOf(header, block).Row? && NaturalLengths(header, block)
    ensures RowOf(header, block) == Row(RowLine(SourceTexts(SourcesOf(header, block))))
  {
    LengthPresent(header, block);
    CellOfValue(header, block, "Key", "Keylen");
    CellOfValue(header, block, "IV", "IVlen");
    CellOfValue(header, block, "PT", "PTlen");
    AbsentCell(block);
    CellOfValue(header, block, "AAD", "AADlen");
    CellOfValue(header, block, "Tag", "Taglen");
    PartsOfSources(LengthsOf(header, block), ValueOf(block, "Key"), ValueOf(block, "IV"), ValueOf(block, "PT"),
                   ValueOf(block, "CT"), ValueOf(block, "AAD"), ValueOf(block, "Tag"));
  }

  lemma AbsentCell(block: Block)
    ensures Cell(Formatted(block), "CT") == Initializer(ValueOf(block, "CT"))
  {
    assert Words32("") == [] && Initializer("") == "{}";
  }

  function StructFrom(stored: string -> seq<nat>, n: Lengths, key: string, iv: string, pt: string,
                      ct: string, aad: string, tag: string): GcmData
  {
    GcmData(stored(key), n.key, stored(iv), n.iv, stored(pt), n.pt,
            stored(ct), stored(aad), n.aad, stored(tag), n.tag)
  }

  lemma FieldsOfSources(stored: string -> seq<nat>, n: Lengths, key: string, iv: string, pt: string,
                        ct: string, aad: string, tag: string)
    requires |stored(key)| <= KEY_WORDS && |stored(iv)| <= IV_WORDS && |stored(pt)| <= PT_WORDS
    requires |stored(ct)| <= CT_WORDS && |stored(aad)| <= AAD_WORDS && |stored(tag)| <= TAG_WORDS
    ensures ToStruct(FieldsOf(stored, Sources(n, key, iv, pt, ct, aad, tag)))
         == Some(StructFrom(stored, n, key, iv, pt, ct, aad, tag))
  {
  }

  lemma WordsStored(v: string, capacity: nat)
    requires HexFor(v, capacity)
    ensures |StoredAs(v)| <= capacity
  {
    StoredWordsOfValue(v);
  }

  lemma StructReadBack(n: Lengths, key: string, iv: string, pt: string, ct: string, aad: string, tag: string)
    requires HexValues(key, iv, pt, ct, aad, tag)
    ensures IsElement(RowLine(SourceTexts(Sources(n, key, iv, pt, ct, aad, tag))),
                      StructFrom(StoredAs, n, key, iv, pt, ct, aad, tag))
  {
    var sources := Sources(n, key, iv, pt, ct, aad, tag);
    assert forall i :: 0 <= i < |sources| ==> ValidSource(sources[i]);
    WordsStored(key, KEY_WORDS);
    WordsStored(iv, IV_WORDS);
    WordsStored(pt, PT_WORDS);
    WordsStored(ct, CT_WORDS);
    WordsStored(aad, AAD_WORDS);
    WordsStored(tag, TAG_WORDS);
    FieldsOfSources(StoredAs, n, key, iv, pt, ct, aad, tag);
    RowReadBack(sources);
  }

  /** The stored words of the block's values, with the lengths the header gives. */
  function StructOf(header: Header, block: Block): GcmData {
    StructFrom(StoredAs, LengthsOf(header, block), ValueOf(block, "Key"), ValueOf(block, "IV"),
               ValueOf(block, "PT"), ValueOf(block, "CT"), ValueOf(block, "AAD"), ValueOf(block, "Tag"))
  }

  /** Every row of hex values, consistent or not, is C for the struct of these values with
      the lengths of the header. */
  lemma RowMeaning(header: Header, block: Block)
    requires RowOf(header, block).Row? && HexBlockValues(block) && NaturalLengths(header, block)
    ensures IsElement(RowOf(header, block).line, StructOf(header, block))
  {
    RowIsSources(header, block);
    StructReadBack(LengthsOf(header, block), ValueOf(block, "Key"), ValueOf(block, "IV"), ValueOf(block, "PT"),
                   ValueOf(block, "CT"), ValueOf(block, "AAD"), ValueOf(block, "Tag"));
  }

  // ----- consistent blocks

  lemma StoredHolds(v: string, capacity: nat)
    requires HexValueOf(v, capacity)
    ensures Holds(StoredAs(v), capacity, 4 * |v|, v)
  {
    ValueHolds(v, capacity);
  }

  lemma StructCarries(header: Header, block: Block)
    requires Consistent(header, block)
    ensures Carries(StructOf(header, block), block)
  {
    StoredHolds(ValueOf(block, "Key"), KEY_WORDS);
    StoredHolds(ValueOf(block, "IV"), IV_WORDS);
    StoredHolds(ValueOf(block, "PT"), PT_WORDS);
    StoredHolds(ValueOf(block, "CT"), CT_WORDS);
    StoredHolds(ValueOf(block, "AAD"), AAD_WORDS);
    StoredHolds(ValueOf(block, "Tag"), TAG_WORDS);
  }

  lemma ConsistentRow(header: Header, block: Block)
    requires Consistent(header, block)
    ensures RowOf(header, block).Row?
  {
    FormattedHas(block);
  }

  /** From the vector file to the device: the row of a consistent block, compiled and
      read on a little-endian host, carries exactly the values of the block. */
  lemma VectorReachesTest(header: Header, block: Block)
    requires Consistent(header, block)
    ensures RowOf(header, block).Row? && IsElement(RowOf(header, block).line, StructOf(header, block))
    ensures Carries(StructOf(header, block), block)
  {
    ConsistentRow(header, block);
    RowMeaning(header, block);
    StructCarries(header, block);
  }

  predicate AllConsistent(flat: seq<(Header, Block)>) {
    forall k :: 0 <= k < |flat| ==> Consistent(flat[k].0, flat[k].1)
  }

  /** The structs of all blocks, in order. */
  function StructsOf(flat: seq<(Header, Block)>): (r: seq<GcmData>)
    ensures |r| == |flat|
  {
    seq(|flat|, k requires 0 <= k < |flat| => StructOf(flat[k].0, flat[k].1))
  }

  predicate AllCarry(data: seq<GcmData>, flat: seq<(Header, Block)>) {
    |data| == |flat| && forall k :: 0 <= k < |flat| ==> Carries(data[k], flat[k].1)
  }

  /** A table of consistent blocks is complete, and C reads its text as an array that
      carries the blocks, element by element. */
  lemma TableReachesTests(data: seq<Section>)
    requires AllConsistent(AllBlocks(data))
    ensures var r, flat := TableRows(data), AllBlocks(data);
            && r.failed.None? && |r.lines| == |flat|
            && ReadTable(TableText(r.lines)) == Some(StructsOf(flat)) && AllCarry(StructsOf(flat), flat)
  {
    var r, flat := TableRows(data), AllBlocks(data);
    OneRowPerBlock(data);
    if r.failed.Some? {
      VectorReachesTest(flat[|r.lines|].0, flat[|r.lines|].1);
    }
    forall k | 0 <= k < |flat|
      ensures IsElement(r.lines[k], StructsOf(flat)[k]) && Carries(StructsOf(flat)[k], flat[k].1)
    {
      VectorReachesTest(flat[k].0, flat[k].1);
    }
    TableReadBack(r.lines, StructsOf(flat));
  }

  /** From text to test: loading a written vector file and writing the table gives one
      line per block of the file, in order, and together they are C for an array that
      carries the blocks. */
  lemma FileReachesTests(preamble: seq<string>, listings: seq<Listing>, eol: string)
    requires IsEol(eol) && IsPreamble(preamble) && WritableListings(listings)
    requires AllConsistent(AllBlocks(Meaning(listings)))
    ensures var loaded := Load(FileText(preamble + SectionsLines(listings), eol));
            && loaded.Ok?
            && var r, flat := TableRows(loaded.value.1), AllBlocks(Meaning(listings));
            && r.failed.None? && |r.lines| == |flat|
            && ReadTable(TableText(r.lines)) == Some(StructsOf(flat)) && AllCarry(StructsOf(flat), flat)
  {
    LoadInvertsWriting(preamble, listings, eol);
    TableReachesTests(Meaning(listings));
  }

  // ----- the test

  predicate Viewable(g: GcmData) {
    && |g.key| <= KEY_WORDS && g.keyLen / 8 <= 4 * KEY_WORDS
    && |g.iv| <= IV_WORDS && g.ivLen / 8 <= 4 * IV_WORDS
    && |g.pt| <= PT_WORDS && g.ptLen / 8 <= 4 * PT_WORDS
    && |g.ct| <= CT_WORDS
    && |g.aad| <= AAD_WORDS && g.aadLen / 8 <= 4 * AAD_WORDS
    && |g.tag| <= TAG_WORDS && g.tagLen / 8 <= 4 * TAG_WORDS
  }

  /** The size check and the byte loop of the cipher text and of the tag: every char must
      hold the bits of the expected byte. */
  method SameBytes(result: seq<SignedChar>, expected: seq<Byte>) returns (ok: bool)
    ensures ok <==> |result| == |expected| && forall j :: 0 <= j < |result| ==>
              if expected[j] < 128 then result[j] == expected[j] else result[j] == expected[j] as int - 256
  {
    if |result| != |expected| {
      return false;
    }
    for j := 0 to |expected|
      invariant forall k :: 0 <= k < j ==> HoldsByte(result[k], expected[k])
    {
      AsByteExactly(result[j], expected[j]);
      if AsByte(result[j]) != expected[j] {
        return false;
      }
    }
    return true;
  }

  method CheckCase(g: GcmData, cipherText: seq<SignedChar>, tag: seq<SignedChar>) returns (ok: bool)
    requires Viewable(g)
    ensures var ct, wantedTag := View(g.ct, CT_WORDS, g.ptLen), View(g.tag, TAG_WORDS, g.tagLen);
            ok <==> HoldBytes(cipherText, ct) && HoldBytes(tag, wantedTag)
  {
    ok := SameBytes(cipherText, View(g.ct, CT_WORDS, g.ptLen));
    if ok {
      ok := SameBytes(tag, View(g.tag, TAG_WORDS, g.tagLen));
    }
  }
}
