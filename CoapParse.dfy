/** The receive side of coap.c: header, token, one option at a time, and the
    option loop that ends at the payload marker (RFC 7252 section 3). Buffers
    are byte sequences; a position in one stands for the source's pointer. */
module CoapParse {
  import opened ByteOrder
  import opened CoapTypes

  /** coap_parseHeader: the fixed four-byte header. For a byte b the source's
      (b & 0xC0) >> 6, (b & 0x30) >> 4 and b & 0x0F are b / 0x40, b / 0x10 % 4
      and b % 0x10. */
  function ParseHeader(buf: seq<byte>): (r: Result<Header>)
    ensures |buf| < 4 ==> r == Err(HeaderTooShort)
    ensures |buf| >= 4 ==> (r.Err? <==> buf[0] / 0x40 != 1)
    ensures |buf| >= 4 && r.Err? ==> r.error == VersionNot1
    ensures r.Ok? ==> r.value.ver == 1 && r.value.t < 4 && r.value.tkl < 16
    ensures r.Ok? ==> buf[0] == r.value.ver * 0x40 + r.value.t * 0x10 + r.value.tkl
    ensures r.Ok? ==> r.value.code == buf[1] && BeBytes16(r.value.id) == buf[2..4]
  {
    if |buf| < 4 then Err(HeaderTooShort)
    else
      var ver := buf[0] / 0x40;
      if ver != 1 then Err(VersionNot1)
      else Ok(Header(ver, buf[0] / 0x10 % 4, buf[0] % 0x10, buf[1], Load16(buf[2..])))
  }

  /** coap_parseToken: the tkl bytes after the header; a length above 8 is refused. */
  function ParseToken(hdr: Header, buf: seq<byte>): (r: Result<seq<byte>>)
    ensures hdr.tkl == 0 ==> r == Ok([])
    ensures hdr.tkl > 0 ==> (r.Ok? <==> hdr.tkl <= 8 && 4 + hdr.tkl <= |buf|)
    ensures r.Err? ==> r.error == TokenTooShort
    ensures r.Ok? ==> |r.value| == hdr.tkl
    ensures r.Ok? && hdr.tkl > 0 ==> r.value == buf[4..4 + hdr.tkl]
  {
    if hdr.tkl == 0 then Ok([])
    else if hdr.tkl <= 8 then
      if 4 + hdr.tkl > |buf| then Err(TokenTooShort)
      else Ok(buf[4..4 + hdr.tkl])
    else Err(TokenTooShort)
  }

  /** One parsed option, the position after it and the new running option number. */
  datatype OptionStep = OptionStep(option: CoapOption, next: nat, running: u16)

  /** How many extension bytes follow a delta or length nibble. */
  function ExtensionLength(nibble: byte): nat
  {
    if nibble == 13 then 1 else if nibble == 14 then 2 else 0
  }

  /** The value a nibble and its extension bytes stand for, held in a uint16_t. */
  function NibbleValue(nibble: byte, ext: seq<byte>): u16
    requires nibble < 15 && |ext| == ExtensionLength(nibble)
  {
    if nibble == 13 then ext[0] as int + 13
    else if nibble == 14 then (ext[0] as int * 0x100 + ext[1] + 269) % 0x1_0000
    else nibble
  }

  /** The low byte of a sum of two uint16_t values survives its truncation to 16 bits. */
  lemma ModOfMod(x: nat)
    requires x < 0x2_0000
    ensures (x % 0x1_0000) % 0x100 == x % 0x100
  {
    if x >= 0x1_0000 {
      var y := x - 0x1_0000;
      assert x % 0x1_0000 == y;
      assert x == (y / 0x100 + 0x100) * 0x100 + y % 0x100;
    }
  }

  /** coap_parseOption on the bytes buf[pos..]: the first byte holds the delta
      and length nibbles, extension bytes follow, then the value. The option
      number is the low byte of delta + running; the running number keeps 16 bits. */
  function ParseOption(buf: seq<byte>, pos: nat, running: u16): (r: Result<OptionStep>)
    requires pos <= |buf|
    ensures pos == |buf| ==> r == Err(OptionTooShortForHeader)
    ensures pos < |buf| && buf[pos] / 0x10 == 15 ==> r == Err(OptionDeltaInvalid)
    ensures r.Err? ==> r.error in {OptionTooShortForHeader, OptionDeltaInvalid, OptionLenInvalid, OptionTooBig}
    ensures r.Ok? ==> buf[pos] / 0x10 < 15 && buf[pos] % 0x10 < 15
    ensures r.Ok? ==> r.value.next
                      == pos + 1 + ExtensionLength(buf[pos] / 0x10) + ExtensionLength(buf[pos] % 0x10)
                         + |r.value.option.value|
    ensures r.Ok? ==> r.value.next <= |buf|
    ensures r.Ok? ==> r.value.option.value == buf[r.value.next - |r.value.option.value|..r.value.next]
    ensures r.Ok? ==> r.value.option.num == r.value.running % 0x100
    // Case by case, on the nibbles d and l and their extension bytes:
    ensures pos < |buf| ==>
              var d, l := buf[pos] / 0x10, buf[pos] % 0x10;
              var dExt, lExt := ExtensionLength(d), ExtensionLength(l);
              && (d < 15 && |buf| - pos < 1 + dExt ==> r == Err(OptionTooShortForHeader))
              && (d < 15 && |buf| - pos >= 1 + dExt && l == 15 ==> r == Err(OptionLenInvalid))
              && (d < 15 && l < 15 && 1 + dExt <= |buf| - pos < 1 + dExt + lExt ==> r == Err(OptionTooShortForHeader))
    ensures pos < |buf| ==>
              var d, l := buf[pos] / 0x10, buf[pos] % 0x10;
              var dExt, lExt := ExtensionLength(d), ExtensionLength(l);
              d < 15 && l < 15 && |buf| - pos >= 1 + dExt + lExt ==>
                var delta := NibbleValue(d, buf[pos + 1..pos + 1 + dExt]);
                var len := NibbleValue(l, buf[pos + 1 + dExt..pos + 1 + dExt + lExt]);
                var start := pos + 1 + dExt + lExt;
                && (r.Err? <==> start + len > |buf|)
                && (r.Err? ==> r.error == OptionTooBig)
                && (r.Ok? ==> && |r.value.option.value| == len
                              && r.value.option.value == buf[start..start + len]
                              && r.value.next == start + len
                              && r.value.running == (running as int + delta) % 0x1_0000
                              && r.value.option.num == (running as int + delta) % 0x100)
  {
    if pos == |buf| then Err(OptionTooShortForHeader)
    else
      var d := buf[pos] / 0x10;
      var l := buf[pos] % 0x10;
      var dExt := ExtensionLength(d);
      if d == 15 then Err(OptionDeltaInvalid)
      else if |buf| - pos < 1 + dExt then Err(OptionTooShortForHeader)
      else
        var delta := NibbleValue(d, buf[pos + 1..pos + 1 + dExt]);
        var lExt := ExtensionLength(l);
        if l == 15 then Err(OptionLenInvalid)
        else if |buf| - pos < 1 + dExt + lExt then Err(OptionTooShortForHeader)
        else
          var len := NibbleValue(l, buf[pos + 1 + dExt..pos + 1 + dExt + lExt]);
          var start := pos + 1 + dExt + lExt;
          if start + len > |buf| then Err(OptionTooBig)
          else
            var sum := running as int + delta;
            ModOfMod(sum);
            Ok(OptionStep(CoapOption(sum % 0x100, buf[start..start + len]), start + len, sum % 0x1_0000))
  }

  /** The options coap_parseOptionsAndPayload's loop reads from pos on: at most
      budget of them, stopping at the end of the buffer or at a 0xFF byte; the
      position where it stopped comes with them. */
  function ParseOptions(buf: seq<byte>, pos: nat, running: u16, budget: nat): (r: Result<(seq<CoapOption>, nat)>)
    requires pos <= |buf|
    ensures r.Ok? ==> |r.value.0| <= budget && pos <= r.value.1 <= |buf|
    ensures r.Ok? ==> |r.value.0| == budget || r.value.1 == |buf| || buf[r.value.1] == 0xFF
    ensures r.Ok? && r.value.0 == [] ==> r.value.1 == pos
    ensures r.Err? ==> r.error in {OptionTooShortForHeader, OptionDeltaInvalid, OptionLenInvalid, OptionTooBig}
    decreases budget
  {
    if budget == 0 || pos == |buf| || buf[pos] == 0xFF then Ok(([], pos))
    else
      match ParseOption(buf, pos, running)
      case Err(e) => Err(e)
      case Ok(step) =>
        match ParseOptions(buf, step.next, step.running, budget - 1)
        case Err(e) => Err(e)
        case Ok((rest, q)) => Ok(([step.option] + rest, q))
  }

  /** The payload after the stop position: present only when a 0xFF marker is
      followed by at least one byte. */
  function PayloadAt(buf: seq<byte>, p: nat): (payload: seq<byte>)
    requires p <= |buf|
    ensures |payload| > 0 <==> p + 1 < |buf| && buf[p] == 0xFF
    ensures |payload| > 0 ==> payload == buf[p + 1..]
  {
    if p + 1 < |buf| && buf[p] == 0xFF then buf[p + 1..] else []
  }

  /** What coap_parseOptionsAndPayload produces: the options after the token,
      at most capacity of them, and the payload. */
  function OptionsAndPayload(tkl: byte, buf: seq<byte>, capacity: nat): (r: Result<(seq<CoapOption>, seq<byte>)>)
    ensures 4 + tkl > |buf| ==> r == Err(OptionOverrunsPacket)
    ensures r.Ok? ==> |r.value.0| <= capacity
  {
    var start := 4 + tkl;
    if start > |buf| then Err(OptionOverrunsPacket)
    else
      match ParseOptions(buf, start, 0, capacity)
      case Err(e) => Err(e)
      case Ok((opts, q)) => Ok((opts, PayloadAt(buf, q)))
  }

  function Prepend(os: seq<CoapOption>, r: Result<(seq<CoapOption>, nat)>): Result<(seq<CoapOption>, nat)>
  {
    match r
    case Err(e) => Err(e)
    case Ok((rest, q)) => Ok((os + rest, q))
  }

  lemma PrependNothing(r: Result<(seq<CoapOption>, nat)>)
    ensures Prepend([], r) == r
  {
    if r.Ok? {
      assert [] + r.value.0 == r.value.0;
    }
  }

  lemma PrependTwice(os: seq<CoapOption>, o: CoapOption, r: Result<(seq<CoapOption>, nat)>)
    ensures Prepend(os, Prepend([o], r)) == Prepend(os + [o], r)
  {
    if r.Ok? {
      assert os + ([o] + r.value.0) == (os + [o]) + r.value.0;
    }
  }

  /** One turn of the option loop, as ParseOptions takes it. */
  lemma ParseOptionsUnfold(buf: seq<byte>, pos: nat, running: u16, budget: nat)
    requires pos < |buf| && buf[pos] != 0xFF && budget > 0
    ensures ParseOption(buf, pos, running).Err? ==>
              ParseOptions(buf, pos, running, budget) == Err(ParseOption(buf, pos, running).error)
    ensures ParseOption(buf, pos, running).Ok? ==>
              var step := ParseOption(buf, pos, running).value;
              ParseOptions(buf, pos, running, budget)
              == Prepend([step.option], ParseOptions(buf, step.next, step.running, budget - 1))
  {
  }

  /** The loop's call of coap_parseOption, stated as the step ParseOptions takes. */
  method NextOption(buf: seq<byte>, p: nat, delta: u16, budget: nat) returns (step: Result<OptionStep>)
    requires p < |buf| && buf[p] != 0xFF && budget > 0
    ensures step.Err? ==> ParseOptions(buf, p, delta, budget) == Err(step.error)
    ensures step.Ok? ==> p < step.value.next <= |buf|
    ensures step.Ok? ==> ParseOptions(buf, p, delta, budget)
                         == Prepend([step.value.option], ParseOptions(buf, step.value.next, step.value.running, budget - 1))
  {
    step := ParseOption(buf, p, delta);
    ParseOptionsUnfold(buf, p, delta, budget);
  }

  /** The while loop of coap_parseOptionsAndPayload, from the first option on. */
  method ParseOptionLoop(buf: seq<byte>, start: nat, numOptions: nat)
    returns (r: Result<(seq<CoapOption>, nat)>)
    requires start <= |buf|
    ensures r == ParseOptions(buf, start, 0, numOptions)
  {
    var p := start;
    var opts: seq<CoapOption> := [];
    var delta: u16 := 0;
    var budget := numOptions;
    ghost var cur := ParseOptions(buf, p, delta, budget);
    PrependNothing(cur);
    while budget > 0 && p < |buf| && buf[p] != 0xFF
      invariant start <= p <= |buf| && |opts| + budget == numOptions
      invariant cur == ParseOptions(buf, p, delta, budget)
      invariant ParseOptions(buf, start, 0, numOptions) == Prepend(opts, cur)
      decreases |buf| - p
    {
      var step := NextOption(buf, p, delta, budget);
      if step.Err? {
        return Err(step.error);
      }
      ghost var rest := ParseOptions(buf, step.value.next, step.value.running, budget - 1);
      assert cur == Prepend([step.value.option], rest);
      PrependTwice(opts, step.value.option, rest);
      opts := opts + [step.value.option];
      p := step.value.next;
      delta := step.value.running;
      budget := budget - 1;
      cur := rest;
    }
    assert cur == Ok(([], p));
    assert opts + [] == opts;
    return Ok((opts, p));
  }

  /** coap_parseOptionsAndPayload: the options after the token, then the payload. */
  method ParseOptionsAndPayload(hdr: Header, buf: seq<byte>, numOptions: nat)
    returns (r: Result<(seq<CoapOption>, seq<byte>)>)
    ensures r == OptionsAndPayload(hdr.tkl, buf, numOptions)
  {
    var p := 4 + hdr.tkl;
    if p > |buf| {
      return Err(OptionOverrunsPacket);
    }
    var loop := ParseOptionLoop(buf, p, numOptions);
    if loop.Err? {
      return Err(loop.error);
    }
    var payload := PayloadAt(buf, loop.value.1);
    return Ok((loop.value.0, payload));
  }

  /** coap_parse as a value: header, then token, then up to MAXOPT options and the payload. */
  function ParseSpec(buf: seq<byte>): (r: Result<Packet>)
  {
    var hdr :- ParseHeader(buf);
    var tok :- ParseToken(hdr, buf);
    var body :- OptionsAndPayload(hdr.tkl, buf, MAXOPT);
    Ok(Packet(hdr, tok, body.0, body.1))
  }

  /** coap_parse */
  method Parse(buf: seq<byte>) returns (r: Result<Packet>)
    ensures r == ParseSpec(buf)
  {
    var hdr :- ParseHeader(buf);
    var tok :- ParseToken(hdr, buf);
    var body := ParseOptionsAndPayload(hdr, buf, MAXOPT);
    if body.Err? {
      return Err(body.error);
    }
    return Ok(Packet(hdr, tok, body.value.0, body.value.1));
  }
}

module CoapParseFacts {
  import opened ByteOrder
  import opened CoapTypes
  import opened CoapParse

  /** The payload coap_parseOptionsAndPayload hands back is the tail of the
      buffer after a 0xFF marker, or empty. */
  lemma PayloadIsTail(tkl: byte, buf: seq<byte>, capacity: nat)
    requires OptionsAndPayload(tkl, buf, capacity).Ok?
    ensures var payload := OptionsAndPayload(tkl, buf, capacity).value.1;
      && |payload| < |buf|
      && (|payload| > 0 ==> buf[|buf| - |payload| - 1] == 0xFF && payload == buf[|buf| - |payload|..])
  {
    var loop := ParseOptions(buf, 4 + tkl, 0, capacity).value;
    assert OptionsAndPayload(tkl, buf, capacity).value.1 == PayloadAt(buf, loop.1);
  }

  /** What a successful coap_parse guarantees about the packet it fills in:
      version 1, a token of tkl <= 8 bytes, at most MAXOPT options and a
      payload that is exactly the bytes after a 0xFF marker ending the buffer. */
  lemma ParsedPacketShape(buf: seq<byte>)
    requires ParseSpec(buf).Ok?
    ensures var pkt := ParseSpec(buf).value;
      && |buf| >= 4
      && pkt.hdr.ver == 1 && pkt.hdr.tkl <= 8 && |pkt.tok| == pkt.hdr.tkl
      && |pkt.opts| <= MAXOPT
      && |pkt.payload| < |buf|
      && (|pkt.payload| > 0 ==>
            buf[|buf| - |pkt.payload| - 1] == 0xFF && pkt.payload == buf[|buf| - |pkt.payload|..])
  {
    var hdr := ParseHeader(buf).value;
    var tok := ParseToken(hdr, buf).value;
    var body := OptionsAndPayload(hdr.tkl, buf, MAXOPT).value;
    var pkt := ParseSpec(buf).value;
    assert pkt == Packet(hdr, tok, body.0, body.1);
    PayloadIsTail(hdr.tkl, buf, MAXOPT);
    assert |pkt.payload| > 0 ==> pkt.payload == buf[|buf| - |body.1|..];
  }

  /** coap_parse never reports COAP_ERR_OPTION_OVERRUNS_PACKET: the token check
      before it already refuses a token that runs past the buffer. */
  lemma ParseNeverOverruns(buf: seq<byte>)
    ensures ParseSpec(buf).Err? ==> ParseSpec(buf).error != OptionOverrunsPacket
  {
    var h := ParseHeader(buf);
    if h.Ok? && ParseToken(h.value, buf).Ok? {
      assert 4 + h.value.tkl <= |buf|;
    }
  }

  /** The error coap_parse reports for a buffer shorter than a header, for a
      version other than 1, and for a token length above 8. */
  lemma ParseHeaderErrors(buf: seq<byte>)
    ensures |buf| < 4 ==> ParseSpec(buf) == Err(HeaderTooShort)
    ensures |buf| >= 4 && buf[0] / 0x40 != 1 ==> ParseSpec(buf) == Err(VersionNot1)
    ensures |buf| >= 4 && buf[0] / 0x40 == 1 && buf[0] % 0x10 > 8 ==> ParseSpec(buf) == Err(TokenTooShort)
  {
  }

  /** The acknowledgement of the parse test: version 1, type ACK, token 55 9D,
      code 2.05, message id 1, one empty Content-Format option and the payload "world". */
  lemma ParseResponseExample()
    ensures ParseSpec([0x62, 0x45, 0x00, 0x01, 0x55, 0x9D, 0xC0, 0xFF, 0x77, 0x6F, 0x72, 0x6C, 0x64])
         == Ok(Packet(Header(1, 2, 2, COAP_CONTENT, 1), [0x55, 0x9D],
                      [CoapOption(COAP_OPTION_CONTENT_FORMAT, [])],
                      [0x77, 0x6F, 0x72, 0x6C, 0x64]))
  {
    var buf: seq<byte> := [0x62, 0x45, 0x00, 0x01, 0x55, 0x9D, 0xC0, 0xFF, 0x77, 0x6F, 0x72, 0x6C, 0x64];
    assert ParseOption(buf, 6, 0) == Ok(OptionStep(CoapOption(12, []), 7, 12));
    assert ParseOptions(buf, 7, 12, 15) == Ok(([], 7));
    ParseOptionsUnfold(buf, 6, 0, 16);
    assert [CoapOption(12, [])] + [] == [CoapOption(12, [])];
    assert ParseOptions(buf, 6, 0, 16) == Ok(([CoapOption(12, [])], 7));
    assert PayloadAt(buf, 7) == [0x77, 0x6F, 0x72, 0x6C, 0x64];
    assert OptionsAndPayload(2, buf, 16) == Ok(([CoapOption(12, [])], [0x77, 0x6F, 0x72, 0x6C, 0x64]));
    assert ParseHeader(buf) == Ok(Header(1, 2, 2, COAP_CONTENT, 1));
    assert buf[4..6] == [0x55, 0x9D];
  }

  /** A 0xFF marker as the last byte ends the options but leaves no payload. */
  lemma TrailingMarkerExample()
    ensures ParseSpec([0x40, 0x01, 0x00, 0x00, 0xFF]) == Ok(Packet(Header(1, 0, 0, COAP_GET, 0), [], [], []))
  {
    var buf: seq<byte> := [0x40, 0x01, 0x00, 0x00, 0xFF];
    assert ParseOptions(buf, 4, 0, 16) == Ok(([], 4));
  }
}
