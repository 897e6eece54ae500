/** coap_packet_t as the setters of coap.c update it in place: header
    initialisation, the token, appended options, the response a server
    sends back, and coap_buffer_to_string. */
module CoapPacket {
  import opened ByteOrder
  import opened CoapTypes

  /** A coap_packet_t whose fields the setters assign. The option array has
      MAXOPT entries of which the first numopts are valid; borrowed token,
      option and payload buffers are held as copies of their bytes. */
  class PacketRecord {
    var hdr: Header
    var tok: seq<byte>
    var numopts: byte
    const opts: array<CoapOption>
    var payload: seq<byte>

    ghost predicate Valid()
      reads this
    {
      opts.Length == MAXOPT && numopts <= MAXOPT
    }

    /** The packet value the record holds: the valid prefix of the options. */
    function Contents(): Packet
      reads this, opts
      requires Valid()
    {
      Packet(hdr, tok, opts[..numopts], payload)
    }

    /** A zero-initialised packet (`coap_packet_t pkt = {}`). */
    constructor ()
      ensures Valid() && fresh(opts)
      ensures Contents() == Packet(Header(0, 0, 0, 0, 0), [], [], [])
    {
      hdr := Header(0, 0, 0, 0, 0);
      tok := [];
      numopts := 0;
      opts := new CoapOption[MAXOPT](_ => CoapOption(0, []));
      payload := [];
    }

    /** coap_header_init: rejects a message type outside 0..3; otherwise sets
        version 1, the type, the code and the message id, and leaves the token
        length alone. */
    method HeaderInit(t: int, code: byte, id: u16) returns (ok: bool)
      modifies this
      ensures ok <==> MsgTypeOf(t).Some?
      ensures ok ==> hdr == Header(1, t, old(hdr.tkl), code, id)
      ensures !ok ==> hdr == old(hdr)
      ensures tok == old(tok) && numopts == old(numopts) && payload == old(payload)
    {
      if t < 0 || t > 3 {
        return false;
      }
      hdr := hdr.(ver := 1, t := t, code := code, id := id);
      return true;
    }

    /** coap_header_add_token: the token and its length; the 8-bit tkl field
        keeps the length modulo 256. */
    method AddToken(token: seq<byte>)
      modifies this
      ensures hdr == old(hdr).(tkl := |token| % 0x100) && tok == token
      ensures numopts == old(numopts) && payload == old(payload)
    {
      hdr := hdr.(tkl := |token| % 0x100);
      tok := token;
    }

    /** coap_add_option: appends an option after the valid ones. The source
        does not check the capacity; a caller must leave room. */
    method AddOption(num: byte, value: seq<byte>)
      requires Valid() && numopts < MAXOPT
      modifies this, opts
      ensures Valid()
      ensures Contents() == old(Contents()).(opts := old(Contents().opts) + [CoapOption(num, value)])
      ensures forall k :: numopts <= k < MAXOPT ==> opts[k] == old(opts[k])
    {
      ghost var before := opts[..numopts];
      opts[numopts] := CoapOption(num, value);
      numopts := numopts + 1;
      assert opts[..numopts] == before + [CoapOption(num, value)];
    }

    /** coap_make_response: an acknowledgement with the given code, message
        id and content, the request's token when there is one, and a
        Content-Format option whose two value bytes are written to scratch
        unless the content type is COAP_CONTENTTYPE_NONE. A scratch buffer
        of fewer than two bytes fails after the option has been counted. */
    method MakeResponse(scratch: array<byte>, content: seq<byte>, msgid: u16, token: Option<seq<byte>>,
                        rspcode: byte, contentType: int) returns (rc: Outcome)
      requires Valid()
      modifies this, opts, scratch
      ensures Valid()
      ensures hdr == Header(1, MsgTypeValue(Ack), if token.Some? then |token.value| % 0x100 else 0, rspcode, msgid)
      ensures tok == if token.Some? then token.value else old(tok)
      ensures contentType == COAP_CONTENTTYPE_NONE ==>
                rc == Pass && numopts == 0 && payload == content && scratch[..] == old(scratch[..])
                && opts[0] == old(opts[0])
      ensures contentType != COAP_CONTENTTYPE_NONE && scratch.Length < 2 ==>
                && rc == Fail(BufferTooSmall) && numopts == 1 && payload == old(payload)
                && opts[0] == CoapOption(COAP_OPTION_CONTENT_FORMAT, old(opts[0].value))
                && scratch[..] == old(scratch[..])
      ensures contentType != COAP_CONTENTTYPE_NONE && scratch.Length >= 2 ==>
                && rc == Pass && numopts == 1 && payload == content
                && opts[0] == CoapOption(COAP_OPTION_CONTENT_FORMAT, BeBytes16(contentType % 0x1_0000))
                && scratch[..2] == BeBytes16(contentType % 0x1_0000)
                && scratch[2..] == old(scratch[2..])
      ensures forall k :: 1 <= k < MAXOPT ==> opts[k] == old(opts[k])
    {
      hdr := Header(1, MsgTypeValue(Ack), 0, rspcode, msgid);
      numopts := 0;
      if token.Some? {
        hdr := hdr.(tkl := |token.value| % 0x100);
        tok := token.value;
      }
      if contentType != COAP_CONTENTTYPE_NONE {
        numopts := 1;
        opts[0] := opts[0].(num := COAP_OPTION_CONTENT_FORMAT);
        if scratch.Length < 2 {
          return Fail(BufferTooSmall);
        }
        var v: u16 := contentType % 0x1_0000;
        scratch[0] := v / 0x100;
        scratch[1] := v % 0x100;
        opts[0] := opts[0].(value := scratch[..2]);
      }
      payload := content;
      return Pass;
    }
  }

  /** coap_buffer_to_string: copies buf and a terminating 0 into the first
      strbuflen bytes of strbuf, or fails when they do not fit. */
  method BufferToString(strbuf: array<byte>, strbuflen: nat, buf: seq<byte>) returns (rc: Outcome)
    requires strbuflen <= strbuf.Length
    modifies strbuf
    ensures rc == Pass <==> |buf| + 1 <= strbuflen
    ensures rc.Fail? ==> rc.error == BufferTooSmall && strbuf[..] == old(strbuf[..])
    ensures rc.Pass? ==> strbuf[..|buf| + 1] == buf + [0] && strbuf[|buf| + 1..] == old(strbuf[|buf| + 1..])
  {
    if |buf| + 1 > strbuflen {
      return Fail(BufferTooSmall);
    }
    CopyInto(strbuf, 0, buf);
    strbuf[|buf|] := 0;
    return Pass;
  }
}
