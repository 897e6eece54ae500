/** The unit-test scenarios of the codec, end to end: packets filled in with
    the setters, built, parsed back, searched and decoded. */
module CoapScenarios {
  import opened ByteOrder
  import opened CoapTypes
  import opened CoapParse
  import opened CoapOrder
  import opened CoapBuild
  import opened CoapRoundTrip
  import opened CoapLookup
  import opened CoapBlockwise
  import opened CoapPacket

  /** Options already in ascending order are encoded in array order. */
  lemma AlreadySorted(opts: seq<CoapOption>)
    requires forall a, b :: 0 <= a < b < |opts| ==> opts[a].num <= opts[b].num
    ensures SortedOptions(opts) == opts
  {
    SortedInputKeepsOrder(opts, |opts|);
    var r := SortedOptions(opts);
    forall k | 0 <= k < |opts|
      ensures r[k] == opts[k]
    {
    }
  }

  /** A packet without options and payload encodes as its header and token. */
  lemma BareImage(pkt: Packet, e: LengthEscape)
    requires pkt.opts == [] && pkt.payload == [] && (pkt.hdr.tkl == 0 || pkt.hdr.tkl == |pkt.tok|)
    ensures Encode(pkt, e) == HeaderBytes(pkt.hdr) + TokenBytes(pkt)
  {
    assert SortedOptions([]) == [];
    assert EncodeOptions([], 0, e) == [] && PayloadBytes([]) == [];
  }

  /** coap_build succeeds with the image when its checks pass and the image fits. */
  lemma BuildOfImage(buflen: nat, pkt: Packet, e: LengthEscape, image: seq<byte>)
    requires BuildChecks(buflen, pkt) == None
    requires pkt.hdr.tkl == 0 || pkt.hdr.tkl == |pkt.tok|
    requires Encode(pkt, e) == image && |image| <= buflen
    ensures BuildSpec(buflen, pkt, e) == Ok(image)
  {
  }

  /** The coap_build header test for size: a CON header with message id 1 and
      no token is the whole four-byte image. */
  lemma BareHeaderExample(e: LengthEscape)
    ensures BuildSpec(128, Packet(Header(1, MsgTypeValue(Con), 0, 0, 1), [], [], []), e) == Ok([0x40, 0x00, 0x00, 0x01])
  {
    var pkt := Packet(Header(1, MsgTypeValue(Con), 0, 0, 1), [], [], []);
    BareImage(pkt, e);
    assert HeaderBytes(pkt.hdr) == [0x40, 0x00, 0x00, 0x01];
    assert TokenBytes(pkt) == [];
    assert BuildChecks(128, pkt) == None;
    BuildOfImage(128, pkt, e, [0x40, 0x00, 0x00, 0x01]);
  }

  /** The coap_build header tests for errors: versions 2 and 10, a token
      length of 1 without a token, and a nine-byte token. Within one test the
      buffer length is in-out: the version test's first build succeeds and
      leaves buflen at 4, so versions 2 and 10 are built with a 4-byte
      buffer, which still passes the length check. */
  lemma HeaderErrorExamples(e: LengthEscape)
    ensures BuildSpec(128, Packet(Header(1, 0, 0, 0, 1), [], [], []), e) == Ok([0x40, 0x00, 0x00, 0x01])
    ensures BuildSpec(4, Packet(Header(2, 0, 0, 0, 1), [], [], []), e) == Err(VersionNot1)
    ensures BuildSpec(4, Packet(Header(10, 0, 0, 0, 1), [], [], []), e) == Err(VersionNot1)
    ensures BuildSpec(128, Packet(Header(1, 0, 1, 0, 1), [], [], []), e) == Err(TokenLengthMismatch)
    ensures BuildSpec(128, Packet(Header(1, 0, 9, 0, 1), [0, 0, 0, 0, 0, 0, 0, 0, 0], [], []), e) == Err(TokenTooLong)
  {
    BareHeaderExample(e);
  }

  /** The coap_build header tests for one-, two- and three-byte tokens: the
      token follows the four header bytes. */
  lemma ShortTokenExamples(e: LengthEscape)
    ensures var r := BuildSpec(128, Packet(Header(1, 0, 1, 0, 1), [0x1A], [], []), e);
      r.Ok? && |r.value| == 5 && r.value[4] == 0x1A
    ensures var r := BuildSpec(128, Packet(Header(1, 0, 2, 0, 1), [0x1A, 0x2B], [], []), e);
      r.Ok? && |r.value| == 6 && r.value[4..6] == [0x1A, 0x2B]
    ensures var r := BuildSpec(128, Packet(Header(1, 0, 3, 0, 1), [0x1A, 0x2B, 0x3C], [], []), e);
      r.Ok? && |r.value| == 7 && r.value[4..7] == [0x1A, 0x2B, 0x3C]
  {
    var one := Packet(Header(1, 0, 1, 0, 1), [0x1A], [], []);
    var two := Packet(Header(1, 0, 2, 0, 1), [0x1A, 0x2B], [], []);
    var three := Packet(Header(1, 0, 3, 0, 1), [0x1A, 0x2B, 0x3C], [], []);
    BareImage(one, e);
    BareImage(two, e);
    BareImage(three, e);
    assert |HeaderBytes(one.hdr)| == 4 && |HeaderBytes(two.hdr)| == 4 && |HeaderBytes(three.hdr)| == 4;
  }

  /** The coap_build header test for an eight-byte token: it follows the
      header byte for byte. */
  lemma TokenExample(e: LengthEscape)
    ensures var tok := [0x1A, 0x2B, 0x3C, 0x4D, 0x5E, 0x6F, 0xB0, 0x55];
      var r := BuildSpec(128, Packet(Header(1, 0, 8, 0, 1), tok, [], []), e);
      r.Ok? && |r.value| == 12 && r.value[4..12] == tok
  {
    var tok: seq<byte> := [0x1A, 0x2B, 0x3C, 0x4D, 0x5E, 0x6F, 0xB0, 0x55];
    var pkt := Packet(Header(1, 0, 8, 0, 1), tok, [], []);
    BareImage(pkt, e);
    assert |HeaderBytes(pkt.hdr)| == 4;
  }

  /** The coap_build header test for the message id: 0xBEEF goes out as BE EF. */
  lemma MessageIdExample(e: LengthEscape)
    ensures var r := BuildSpec(128, Packet(Header(1, 0, 0, 0, 0xBEEF), [], [], []), e);
      r.Ok? && r.value[2..4] == [0xBE, 0xEF]
  {
    var pkt := Packet(Header(1, 0, 0, 0, 0xBEEF), [], [], []);
    BareImage(pkt, e);
    assert HeaderBytes(pkt.hdr) == [0x40, 0x00, 0xBE, 0xEF];
    assert TokenBytes(pkt) == [];
  }

  /** The header and Block2 option bytes of the blockwise getter test's request. */
  lemma BlockRequestPieces()
    ensures HeaderBytes(Header(1, 0, 0, COAP_GET, 5)) == [0x40, 0x01, 0x00, 0x05]
    ensures EncodeOption(CoapOption(COAP_OPTION_BLOCK_2, [0x68]), 0, AsWritten) == [0xD1, 0x0A, 0x68]
  {
    assert OptionPrefix(COAP_OPTION_BLOCK_2, 1, AsWritten) == [0xD1, 0x0A];
  }

  /** The image coap_build writes for the request of the blockwise getter test. */
  lemma BlockRequestBuild()
    ensures var pkt := Packet(Header(1, 0, 0, COAP_GET, 5), [], [CoapOption(COAP_OPTION_BLOCK_2, [0x68])], []);
      BuildSpec(256, pkt, AsWritten) == Ok([0x40, 0x01, 0x00, 0x05, 0xD1, 0x0A, 0x68])
  {
    var o := CoapOption(COAP_OPTION_BLOCK_2, [0x68]);
    var pkt := Packet(Header(1, 0, 0, COAP_GET, 5), [], [o], []);
    SingleOptionImage(pkt, AsWritten);
    BlockRequestPieces();
    assert [0x40, 0x01, 0x00, 0x05] + [0xD1, 0x0A, 0x68] == [0x40, 0x01, 0x00, 0x05, 0xD1, 0x0A, 0x68];
    assert BuildChecks(256, pkt) == None;
    BuildOfImage(256, pkt, AsWritten, [0x40, 0x01, 0x00, 0x05, 0xD1, 0x0A, 0x68]);
  }

  /** coap_parse reads that image back as the request. */
  lemma BlockRequestImage()
    ensures var pkt := Packet(Header(1, 0, 0, COAP_GET, 5), [], [CoapOption(COAP_OPTION_BLOCK_2, [0x68])], []);
      && BuildSpec(256, pkt, AsWritten) == Ok([0x40, 0x01, 0x00, 0x05, 0xD1, 0x0A, 0x68])
      && Encodable(pkt) && ParseSpec([0x40, 0x01, 0x00, 0x05, 0xD1, 0x0A, 0x68]) == Ok(pkt)
  {
    var pkt := Packet(Header(1, 0, 0, COAP_GET, 5), [], [CoapOption(COAP_OPTION_BLOCK_2, [0x68])], []);
    BlockRequestBuild();
    SingleOptionImage(pkt, AsWritten);
    assert WellFormed(pkt, AsWritten);
    BuildThenParse(256, pkt, AsWritten);
  }

  /** The blockwise getter test: a CON GET with message id 5 and one Block2
      option for block 6 of 16 bytes with more blocks to come is built, parsed
      back and searched for its Block2 option, whose fields read back. */
  method BlockRequestScenario() returns (szx: int, m: bool, num: nat)
    ensures szx == COAP_BLOCKSIZE_16 && m && num == 6
  {
    var record := new PacketRecord();
    var ok := record.HeaderInit(MsgTypeValue(Con), COAP_GET, 5);
    var block2 := new byte[3](_ => 0);
    var size := MakeOptionBlockwise(block2, COAP_BLOCKSIZE_16, true, 6, AsWrittenBound);
    assert BlockwiseBytes(COAP_BLOCKSIZE_16, true, 6, AsWrittenBound) == [0x68];
    record.AddOption(COAP_OPTION_BLOCK_2, block2[..size]);
    var pkt := record.Contents();
    var o := CoapOption(COAP_OPTION_BLOCK_2, [0x68]);
    assert pkt == Packet(Header(1, 0, 0, COAP_GET, 5), [], [o], []);

    BlockRequestImage();
    var obuf := new byte[256];
    var built := Build(obuf, 256, pkt, AsWritten);
    var parsed := Parse(obuf[..built.value]);
    assert parsed == Ok(pkt);

    var first, count := FindOptions(parsed.value, COAP_OPTION_BLOCK_2);
    assert first == Some(0);
    var block := parsed.value.opts[first.value];
    GetterExamples();
    szx := GetSzx(block);
    m := GetM(block);
    num := GetNumAsWritten(block);
  }

  /** The Uri-Path value "path" and the Uri-Query value "query=123455". */
  const PATH: seq<byte> := [0x70, 0x61, 0x74, 0x68]
  const QUERY: seq<byte> := [0x71, 0x75, 0x65, 0x72, 0x79, 0x3D, 0x31, 0x32, 0x33, 0x34, 0x35, 0x35]

  /** The request of the second blockwise getter test: Uri-Path, Uri-Query and
      Block2 for block 6 of 16 bytes with more blocks to come. */
  predicate IsQueryRequest(pkt: Packet)
  {
    && pkt.hdr == Header(1, 0, 0, COAP_GET, 5) && pkt.tok == [] && pkt.payload == []
    && |pkt.opts| == 3
    && pkt.opts[0] == CoapOption(COAP_OPTION_URI_PATH, PATH)
    && pkt.opts[1] == CoapOption(COAP_OPTION_URI_QUERY, QUERY)
    && pkt.opts[2] == CoapOption(COAP_OPTION_BLOCK_2, [0x68])
  }

  /** The three options of that request, each after the one before it: deltas
      11, 4 and 8 with lengths 4, 12 and 1. */
  lemma QueryRequestPieces()
    ensures EncodeOption(CoapOption(COAP_OPTION_URI_PATH, PATH), 0, AsWritten) == [0xB4] + PATH
    ensures EncodeOption(CoapOption(COAP_OPTION_URI_QUERY, QUERY), COAP_OPTION_URI_PATH, AsWritten) == [0x4C] + QUERY
    ensures EncodeOption(CoapOption(COAP_OPTION_BLOCK_2, [0x68]), COAP_OPTION_URI_QUERY, AsWritten) == [0x81, 0x68]
  {
    assert OptionPrefix(11, 4, AsWritten) == [0xB4];
    assert OptionPrefix(4, 12, AsWritten) == [0x4C];
    assert OptionPrefix(8, 1, AsWritten) == [0x81];
  }

  /** The header bytes, the option bytes and the whole image of that request. */
  const QUERY_HEADER: seq<byte> := [0x40, 0x01, 0x00, 0x05]
  const QUERY_OPTIONS: seq<byte> := [0xB4] + PATH + [0x4C] + QUERY + [0x81, 0x68]
  const QUERY_IMAGE: seq<byte> := QUERY_HEADER + QUERY_OPTIONS

  /** The three options of that request are already in ascending order. */
  lemma QueryOptionsSorted(opts: seq<CoapOption>)
    requires |opts| == 3
    requires opts[0].num == COAP_OPTION_URI_PATH && opts[1].num == COAP_OPTION_URI_QUERY && opts[2].num == COAP_OPTION_BLOCK_2
    ensures SortedOptions(opts) == opts
  {
    AlreadySorted(opts);
  }

  /** They go out one after the other, each delta taken from the one before. */
  lemma QueryOptionsEncode(opts: seq<CoapOption>)
    requires |opts| == 3
    requires opts[0] == CoapOption(COAP_OPTION_URI_PATH, PATH)
    requires opts[1] == CoapOption(COAP_OPTION_URI_QUERY, QUERY)
    requires opts[2] == CoapOption(COAP_OPTION_BLOCK_2, [0x68])
    ensures EncodeOptions(opts, 0, AsWritten) == QUERY_OPTIONS
  {
    QueryRequestPieces();
    var last := opts[2..];
    assert last[1..] == [];
    assert EncodeOptions(last, COAP_OPTION_URI_QUERY, AsWritten) == [0x81, 0x68];
    assert opts[1..][1..] == last;
    assert EncodeOptions(opts[1..], COAP_OPTION_URI_PATH, AsWritten) == [0x4C] + QUERY + [0x81, 0x68];
  }

  /** The three values are 4, 12 and 1 bytes long: readable and encodable
      with one nibble each. */
  lemma QueryValuesShort(opts: seq<CoapOption>)
    requires |opts| == 3
    requires opts[0].value == PATH && opts[1].value == QUERY && opts[2].value == [0x68]
    ensures ValuesReadable(opts, AsWritten) && ValuesEncodable(opts)
  {
    assert |PATH| == 4 && |QUERY| == 12;
  }

  /** The image of that request: the header, then the options in the order
      they were added. */
  lemma QueryRequestEncode(pkt: Packet)
    requires IsQueryRequest(pkt)
    ensures Encode(pkt, AsWritten) == QUERY_IMAGE
  {
    QueryOptionsSorted(pkt.opts);
    QueryOptionsEncode(pkt.opts);
    BlockRequestPieces();
    assert HeaderBytes(pkt.hdr) == QUERY_HEADER;
    assert TokenBytes(pkt) == [] && PayloadBytes(pkt.payload) == [];
    assert QUERY_HEADER + [] == QUERY_HEADER && QUERY_IMAGE + [] == QUERY_IMAGE;
  }

  /** coap_build writes that image for a 256-byte buffer. */
  lemma QueryRequestBuild(pkt: Packet)
    requires IsQueryRequest(pkt)
    ensures BuildSpec(256, pkt, AsWritten) == Ok(QUERY_IMAGE)
  {
    QueryRequestEncode(pkt);
    assert BuildChecks(256, pkt) == None;
    BuildOfImage(256, pkt, AsWritten, QUERY_IMAGE);
  }

  /** coap_parse reads that image back as the request, options in the same order. */
  lemma QueryRequestImage(pkt: Packet)
    requires IsQueryRequest(pkt)
    ensures BuildSpec(256, pkt, AsWritten) == Ok(QUERY_IMAGE)
    ensures Encodable(pkt) && ParseSpec(QUERY_IMAGE) == Ok(pkt)
  {
    QueryRequestBuild(pkt);
    QueryOptionsSorted(pkt.opts);
    QueryValuesShort(pkt.opts);
    assert HeaderReadable(pkt);
    BuildThenParse(256, pkt, AsWritten);
  }

  /** In that request the run of Block2 options starts at index 2. */
  lemma QueryBlockFirst(opts: seq<CoapOption>, f: nat, count: nat)
    requires |opts| == 3
    requires opts[0].num == COAP_OPTION_URI_PATH && opts[1].num == COAP_OPTION_URI_QUERY && opts[2].num == COAP_OPTION_BLOCK_2
    requires IsFirstRun(opts, COAP_OPTION_BLOCK_2, f, count)
    ensures f == 2 && count == 1
  {
  }

  /** The request of that test as the setters fill it in: coap_header_init,
      Uri-Path and Uri-Query, then Block2 as coap_make_option_blockwise
      writes it. */
  method QueryRequestRecord() returns (pkt: Packet)
    ensures IsQueryRequest(pkt)
  {
    var record := new PacketRecord();
    var ok := record.HeaderInit(MsgTypeValue(Con), COAP_GET, 5);
    record.AddOption(COAP_OPTION_URI_PATH, PATH);
    assert |record.Contents().opts| == 1;
    record.AddOption(COAP_OPTION_URI_QUERY, QUERY);
    assert |record.Contents().opts| == 2;
    var block2 := new byte[3](_ => 0);
    var size := MakeOptionBlockwise(block2, COAP_BLOCKSIZE_16, true, 6, AsWrittenBound);
    assert BlockwiseBytes(COAP_BLOCKSIZE_16, true, 6, AsWrittenBound) == [0x68];
    record.AddOption(COAP_OPTION_BLOCK_2, block2[..size]);
    pkt := record.Contents();
  }

  /** The blockwise getter test with Block2 after two other options: the
      request is filled in with the setters, built, parsed back and searched;
      its Block2 option is the third and its fields read back. */
  method QueryRequestScenario() returns (index: nat, szx: int, m: bool, num: nat)
    ensures index == 2 && szx == COAP_BLOCKSIZE_16 && m && num == 6
  {
    var pkt := QueryRequestRecord();

    QueryRequestImage(pkt);
    var obuf := new byte[256];
    var built := Build(obuf, 256, pkt, AsWritten);
    var parsed := Parse(obuf[..built.value]);
    assert parsed == Ok(pkt);

    var first, count := FindOptions(parsed.value, COAP_OPTION_BLOCK_2);
    assert parsed.value.opts[2].num == COAP_OPTION_BLOCK_2;
    QueryBlockFirst(parsed.value.opts, first.value, count);
    index := first.value;
    var block := parsed.value.opts[index];
    GetterExamples();
    szx := GetSzx(block);
    m := GetM(block);
    num := GetNumAsWritten(block);
  }

  /** The header and Content-Format option bytes of ResponseScenario's acknowledgement. */
  lemma ResponsePieces()
    ensures HeaderBytes(Header(1, 2, 0, COAP_CONTENT, 1)) == [0x60, 0x45, 0x00, 0x01]
    ensures EncodeOption(CoapOption(COAP_OPTION_CONTENT_FORMAT, [0x00, 0x00]), 0, Intended) == [0xC2, 0x00, 0x00]
  {
    assert OptionPrefix(COAP_OPTION_CONTENT_FORMAT, 2, Intended) == [0xC2];
  }

  /** The image coap_build writes for the acknowledgement of ResponseScenario. */
  lemma ResponseBuild()
    ensures var pkt := Packet(Header(1, 2, 0, COAP_CONTENT, 1), [],
                              [CoapOption(COAP_OPTION_CONTENT_FORMAT, [0x00, 0x00])], [0x68, 0x69]);
      BuildSpec(64, pkt, Intended) == Ok([0x60, 0x45, 0x00, 0x01, 0xC2, 0x00, 0x00, 0xFF, 0x68, 0x69])
  {
    var o := CoapOption(COAP_OPTION_CONTENT_FORMAT, [0x00, 0x00]);
    var pkt := Packet(Header(1, 2, 0, COAP_CONTENT, 1), [], [o], [0x68, 0x69]);
    var bare := pkt.(payload := []);
    SingleOptionImage(bare, Intended);
    ResponsePieces();
    assert EncodeOptions(SortedOptions(pkt.opts), 0, Intended) == [0xC2, 0x00, 0x00] by {
      assert Encode(bare, Intended)
             == HeaderBytes(pkt.hdr) + TokenBytes(bare) + EncodeOptions(SortedOptions(pkt.opts), 0, Intended) + [];
    }
    assert TokenBytes(pkt) == [];
    assert PayloadBytes(pkt.payload) == [0xFF, 0x68, 0x69];
    var image: seq<byte> := [0x60, 0x45, 0x00, 0x01, 0xC2, 0x00, 0x00, 0xFF, 0x68, 0x69];
    assert [0x60, 0x45, 0x00, 0x01] + [] + [0xC2, 0x00, 0x00] + [0xFF, 0x68, 0x69] == image;
    assert BuildChecks(64, pkt) == None;
    BuildOfImage(64, pkt, Intended, image);
  }

  /** coap_parse reads that image back as the acknowledgement. */
  lemma ResponseImage()
    ensures var pkt := Packet(Header(1, 2, 0, COAP_CONTENT, 1), [],
                              [CoapOption(COAP_OPTION_CONTENT_FORMAT, [0x00, 0x00])], [0x68, 0x69]);
      var image := [0x60, 0x45, 0x00, 0x01, 0xC2, 0x00, 0x00, 0xFF, 0x68, 0x69];
      && BuildSpec(64, pkt, Intended) == Ok(image) && Encodable(pkt) && ParseSpec(image) == Ok(pkt)
  {
    var pkt := Packet(Header(1, 2, 0, COAP_CONTENT, 1), [],
                      [CoapOption(COAP_OPTION_CONTENT_FORMAT, [0x00, 0x00])], [0x68, 0x69]);
    ResponseBuild();
    SingleOptionImage(pkt.(payload := []), Intended);
    assert WellFormed(pkt, Intended);
    BuildThenParse(64, pkt, Intended);
  }

  /** A server's 2.05 Content acknowledgement for message 1 with a text/plain
      body "hi": coap_make_response fills the packet, coap_build writes it
      and coap_parse reads the same packet back. */
  method ResponseScenario() returns (image: seq<byte>, back: Result<Packet>)
    ensures image == [0x60, 0x45, 0x00, 0x01, 0xC2, 0x00, 0x00, 0xFF, 0x68, 0x69]
    ensures back == Ok(Packet(Header(1, 2, 0, COAP_CONTENT, 1), [],
                              [CoapOption(COAP_OPTION_CONTENT_FORMAT, [0x00, 0x00])], [0x68, 0x69]))
  {
    var record := new PacketRecord();
    var scratch := new byte[2];
    var rc := record.MakeResponse(scratch, [0x68, 0x69], 1, None, COAP_CONTENT, COAP_CONTENTTYPE_TEXT_PLAIN);
    var pkt := record.Contents();
    var o := CoapOption(COAP_OPTION_CONTENT_FORMAT, [0x00, 0x00]);
    assert record.opts[..1] == [o];
    assert pkt == Packet(Header(1, 2, 0, COAP_CONTENT, 1), [], [o], [0x68, 0x69]);

    ResponseImage();
    var buf := new byte[64];
    var built := Build(buf, 64, pkt, Intended);
    image := buf[..built.value];
    back := Parse(image);
  }
}
