/** The AES-GCM test over a table: what travels to the chip for every row, and exactly which
    chips pass, told from the values of the vector file. */
module GcmTest {
  import opened Text
  import opened Hex
  import opened NistParser
  import opened NistTheorems
  import opened CavpVectors
  import opened NistRows
  import opened CavpTests
  import opened Harness

  datatype GcmRequest = GcmRequest(key: seq<Byte>, iv: seq<Byte>, plainText: seq<Byte>, aad: seq<Byte>, tagLen: nat)

  datatype GcmResult = GcmResult(noError: bool, cipherText: seq<SignedChar>, tag: seq<SignedChar>)

  /** The message types and the protobuf encoding, whatever they are. */
  datatype Protocol = Protocol(
    call: UInt16,
    response: UInt16,
    encryptTest: UInt16,
    encryptResult: UInt16,
    encode: GcmRequest -> Proto,
    parse: seq<Byte> -> Option<GcmResult>)

  // ----- by the vector file

  predicate HexBlock(block: Block) {
    forall key :: key in ["Key", "IV", "PT", "AAD", "CT", "Tag"] ==>
      AllOf(ValueOf(block, key), IsHex) && |ValueOf(block, key)| % 2 == 0
  }

  function FileBytes(block: Block, key: string): seq<Byte>
    requires AllOf(ValueOf(block, key), IsHex) && |ValueOf(block, key)| % 2 == 0
  {
    HexBytes(ValueOf(block, key))
  }

  function FileRequest(block: Block): GcmRequest
    requires HexBlock(block)
  {
    GcmRequest(key := FileBytes(block, "Key"), iv := FileBytes(block, "IV"), plainText := FileBytes(block, "PT"),
               aad := FileBytes(block, "AAD"), tagLen := |FileBytes(block, "Tag")|)
  }

  predicate IsFileResult(result: GcmResult, block: Block)
    requires HexBlock(block)
  {
    && result.noError
    && HoldBytes(result.cipherText, FileBytes(block, "CT"))
    && HoldBytes(result.tag, FileBytes(block, "Tag"))
  }

  /** What the chip answers to a message with a subtype. */
  function Exchanged(callApp: CallApp, p: Protocol, message: Proto): (int, seq<Byte>) {
    callApp(p.call, Frame(p.call, Frame(p.encryptTest, message.bytes)))
  }

  predicate IsFileAnswer(p: Protocol, received: Received, block: Block)
    requires HexBlock(block)
  {
    && received.Message? && received.msgType == p.response
    && match Subtyped(received)
       case None => false
       case Some((subtype, body)) =>
         subtype == p.encryptResult && p.parse(body).Some? && IsFileResult(p.parse(body).value, block)
  }

  /** The chip passes the case: the request made of the file's key, IV, plain text and AAD
      can be sent, and is answered by the file's cipher text and tag. */
  predicate Passes(callApp: CallApp, p: Protocol, block: Block)
    requires HexBlock(block)
  {
    var message := p.encode(FileRequest(block));
    && OneofGuard(|message.bytes|) && message.initialized
    && Exchanged(callApp, p, message).0 == NO_ERROR
    && IsFileAnswer(p, Decoded(Exchanged(callApp, p, message).1), block)
  }

  /** The request does not meet the loose size check, and the answer fits the buffer. */
  predicate Fits(callApp: CallApp, p: Protocol, block: Block)
    requires HexBlock(block)
  {
    var message := p.encode(FileRequest(block));
    && (OneofRoom(|message.bytes|) || !OneofGuard(|message.bytes|))
    && |Exchanged(callApp, p, message).1| <= PROTO_BUFFER_MAX_LEN
  }

  // ----- by the table

  function RequestOf(g: GcmData): GcmRequest
    requires Viewable(g)
  {
    GcmRequest(View(g.key, KEY_WORDS, g.keyLen), View(g.iv, IV_WORDS, g.ivLen),
               View(g.pt, PT_WORDS, g.ptLen), View(g.aad, AAD_WORDS, g.aadLen), g.tagLen / 8)
  }

  lemma CarriedRequest(g: GcmData, block: Block)
    requires Carries(g, block)
    ensures HexBlock(block) && Viewable(g) && RequestOf(g) == FileRequest(block)
    ensures View(g.ct, CT_WORDS, g.ptLen) == FileBytes(block, "CT")
    ensures View(g.tag, TAG_WORDS, g.tagLen) == FileBytes(block, "Tag")
  {
    assert |View(g.tag, TAG_WORDS, g.tagLen)| == g.tagLen / 8;
  }

  /** The assertions on one answer. */
  method CheckAnswer(p: Protocol, g: GcmData, received: Received, ghost block: Block) returns (ok: bool)
    requires Carries(g, block)
    ensures HexBlock(block) && (ok <==> IsFileAnswer(p, received, block))
  {
    CarriedRequest(g, block);
    if received.Failed? || received.msgType != p.response {
      return false;
    }
    var subtyped := Subtyped(received);
    if subtyped.None? || subtyped.value.0 != p.encryptResult {
      return false;
    }
    var result := p.parse(subtyped.value.1);
    if result.None? {
      return false;
    }
    ok := CheckCase(g, result.value.cipherText, result.value.tag);
    ok := ok && result.value.noError;
  }

  /** One pass of the loop: for a row that carries a block of the file, it passes exactly
      the chips that answer this block as the file says. */
  method RunCase(harness: TestHarness, p: Protocol, g: GcmData, ghost block: Block) returns (ok: bool)
    requires Carries(g, block) && HexBlock(block) && Fits(harness.callApp, p, block)
    modifies harness
    ensures ok <==> Passes(harness.callApp, p, block)
  {
    CarriedRequest(g, block);
    var code := harness.SendOneofProto(p.call, p.encryptTest, p.encode(RequestOf(g)));
    if code != NO_ERROR {
      return false;
    }
    var msg := new RawMessage();
    code := harness.GetSpi(msg);
    var received := if code == NO_ERROR then Message(msg.msgType, msg.data[..msg.dataLen]) else Failed(code);
    ok := CheckAnswer(p, g, received, block);
  }

  predicate AllFit(callApp: CallApp, p: Protocol, flat: seq<(Header, Block)>) {
    forall k :: 0 <= k < |flat| ==> HexBlock(flat[k].1) && Fits(callApp, p, flat[k].1)
  }

  /** A struct of the table, ready to be tried for the block it carries. */
  predicate Ready(callApp: CallApp, p: Protocol, g: GcmData, block: Block) {
    Carries(g, block) && HexBlock(block) && Fits(callApp, p, block)
  }

  predicate PassesBlock(callApp: CallApp, p: Protocol, block: Block) {
    HexBlock(block) && Passes(callApp, p, block)
  }

  method RunReady(harness: TestHarness, p: Protocol, g: GcmData, ghost block: Block) returns (ok: bool)
    requires Ready(harness.callApp, p, g, block)
    modifies harness
    ensures ok <==> PassesBlock(harness.callApp, p, block)
  {
    ok := RunCase(harness, p, g, block);
  }

  predicate AllReady(callApp: CallApp, p: Protocol, data: seq<GcmData>, flat: seq<(Header, Block)>) {
    |data| == |flat| && forall k :: 0 <= k < |flat| ==> Ready(callApp, p, data[k], flat[k].1)
  }

  predicate AllPass(callApp: CallApp, p: Protocol, flat: seq<(Header, Block)>) {
    forall k :: 0 <= k < |flat| ==> PassesBlock(callApp, p, flat[k].1)
  }

  lemma OneMorePasses(callApp: CallApp, p: Protocol, flat: seq<(Header, Block)>, i: nat)
    requires i < |flat| && AllPass(callApp, p, flat[..i])
    ensures AllPass(callApp, p, flat[..i + 1]) <==> PassesBlock(callApp, p, flat[i].1)
    ensures AllPass(callApp, p, flat) ==> PassesBlock(callApp, p, flat[i].1)
  {
    assert flat[..i + 1] == flat[..i] + [flat[i]];
  }

  /** The loop over the table: it passes exactly the chips that pass every block. */
  method RunTable(harness: TestHarness, p: Protocol, data: seq<GcmData>, ghost flat: seq<(Header, Block)>)
    returns (passed: bool)
    requires AllReady(harness.callApp, p, data, flat)
    modifies harness
    ensures passed <==> AllPass(harness.callApp, p, flat)
  {
    for i := 0 to |data|
      invariant AllPass(harness.callApp, p, flat[..i])
    {
      var ok := RunReady(harness, p, data[i], flat[i].1);
      OneMorePasses(harness.callApp, p, flat, i);
      if !ok {
        return false;
      }
    }
    assert flat[..|data|] == flat;
    return true;
  }

  lemma CarriedAndFit(callApp: CallApp, p: Protocol, data: seq<GcmData>, flat: seq<(Header, Block)>)
    requires AllCarry(data, flat) && AllFit(callApp, p, flat)
    ensures AllReady(callApp, p, data, flat)
  {
  }

  /** From the text of a vector file to the verdict on a chip: the file is compiled, the
      text of the table is read as C, and the test over it passes exactly the chips that
      answer every block of the file as it says. */
  method RunVectorFile(harness: TestHarness, p: Protocol, text: string,
                       ghost preamble: seq<string>, ghost listings: seq<Listing>, ghost eol: string)
    returns (passed: bool)
    requires IsEol(eol) && IsPreamble(preamble) && WritableListings(listings)
    requires text == FileText(preamble + SectionsLines(listings), eol)
    requires AllConsistent(AllBlocks(Meaning(listings))) && AllFit(harness.callApp, p, AllBlocks(Meaning(listings)))
    modifies harness
    ensures passed <==> AllPass(harness.callApp, p, AllBlocks(Meaning(listings)))
  {
    FileReachesTests(preamble, listings, eol);
    LoadedHeaded(text);
    var loaded := LoadNist(text);
    var rows := WriteRows(loaded.value.1);
    var data := ReadTable(TableText(rows.lines)).value;
    ghost var flat := AllBlocks(Meaning(listings));
    CarriedAndFit(harness.callApp, p, data, flat);
    passed := RunTable(harness, p, data, flat);
  }
}
