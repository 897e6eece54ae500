/** The data model of coap.h: header, option and packet records, the
    message-type, code, error and block-size enumerations. */
module CoapTypes {
  import opened ByteOrder

  /** Capacity of a packet's option array (MAXOPT). */
  const MAXOPT: nat := 16

  /** Largest value the option delta/length nibble encoding can carry: 0xFFFF + 269. */
  const MAX_NIBBLE_VALUE: nat := 65804

  /** coap_header_t: every field is a uint8_t except the 16-bit message id. */
  datatype Header = Header(ver: byte, t: byte, tkl: byte, code: byte, id: u16)

  /** coap_option_t: an 8-bit option number and the option's value bytes. */
  datatype CoapOption = CoapOption(num: byte, value: seq<byte>)

  /** coap_packet_t as a value: `opts` holds the numopts valid entries of the
      option array, in array order. */
  datatype Packet = Packet(hdr: Header, tok: seq<byte>, opts: seq<CoapOption>, payload: seq<byte>)

  datatype Option<+T> = None | Some(value: T)

  /** coap_error_t without COAP_ERR_NONE, which the Ok / Pass cases stand for. */
  datatype Error =
    | HeaderTooShort
    | VersionNot1
    | TokenTooShort
    | OptionTooShortForHeader
    | OptionTooShort
    | OptionOverrunsPacket
    | OptionTooBig
    | OptionLenInvalid
    | BufferTooSmall
    | Unsupported
    | OptionDeltaInvalid
    | TokenLengthMismatch
    | TokenTooLong

  /** A value or the error code that stops the computation; `:-` propagates the error. */
  datatype Result<+T> = Ok(value: T) | Err(error: Error) {
    predicate IsFailure() { Err? }

    function PropagateFailure<U>(): Result<U>
      requires Err?
    {
      Err(error)
    }

    function Extract(): T
      requires Ok?
    {
      value
    }
  }

  /** An int return of 0 (success) or an error code. */
  datatype Outcome = Pass | Fail(error: Error)

  /** The numeric value of each error in coap_error_t; none is 0 (COAP_ERR_NONE)
      and no two are equal, since ErrorOfCode inverts the mapping. */
  function ErrorCode(e: Error): (c: int)
    ensures 1 <= c <= 13
    ensures ErrorOfCode(c) == Some(e)
  {
    match e
    case HeaderTooShort => 1
    case VersionNot1 => 2
    case TokenTooShort => 3
    case OptionTooShortForHeader => 4
    case OptionTooShort => 5
    case OptionOverrunsPacket => 6
    case OptionTooBig => 7
    case OptionLenInvalid => 8
    case BufferTooSmall => 9
    case Unsupported => 10
    case OptionDeltaInvalid => 11
    case TokenLengthMismatch => 12
    case TokenTooLong => 13
  }

  /** The error an int return value stands for; 0 and unknown values stand for none. */
  function ErrorOfCode(c: int): Option<Error>
  {
    if c == 1 then Some(HeaderTooShort)
    else if c == 2 then Some(VersionNot1)
    else if c == 3 then Some(TokenTooShort)
    else if c == 4 then Some(OptionTooShortForHeader)
    else if c == 5 then Some(OptionTooShort)
    else if c == 6 then Some(OptionOverrunsPacket)
    else if c == 7 then Some(OptionTooBig)
    else if c == 8 then Some(OptionLenInvalid)
    else if c == 9 then Some(BufferTooSmall)
    else if c == 10 then Some(Unsupported)
    else if c == 11 then Some(OptionDeltaInvalid)
    else if c == 12 then Some(TokenLengthMismatch)
    else if c == 13 then Some(TokenTooLong)
    else None
  }

  /** The int a status-returning function of the source hands back: 0 means success. */
  function StatusCode(o: Outcome): (c: int)
    ensures c == 0 <==> o.Pass?
    ensures o.Fail? ==> ErrorOfCode(c) == Some(o.error)
  {
    match o
    case Pass => 0
    case Fail(e) => ErrorCode(e)
  }

  /** coap_msgtype_t */
  datatype MsgType = Con | NonCon | Ack | Reset

  /** The enumeration value of each message type. */
  function MsgTypeValue(m: MsgType): (v: int)
    ensures 0 <= v <= 3
    ensures MsgTypeOf(v) == Some(m)
  {
    match m
    case Con => 0
    case NonCon => 1
    case Ack => 2
    case Reset => 3
  }

  /** The message type an int stands for: exactly the values 0..3 name one. */
  function MsgTypeOf(v: int): (r: Option<MsgType>)
    ensures r.Some? <==> 0 <= v <= 3
  {
    if v == 0 then Some(Con)
    else if v == 1 then Some(NonCon)
    else if v == 2 then Some(Ack)
    else if v == 3 then Some(Reset)
    else None
  }

  /** MAKE_RSPCODE: a 3-bit class and a 5-bit detail packed into the code byte;
      both can be read back. */
  function MakeRspCode(clas: byte, det: byte): (c: byte)
    requires clas < 8 && det < 32
    ensures c / 0x20 == clas
    ensures c % 0x20 == det
  {
    clas * 0x20 + det
  }

  // coap_code_t: request methods (class 0) and response codes.
  const COAP_EMPTY: byte := 0x00
  const COAP_GET: byte := 0x01
  const COAP_POST: byte := 0x02
  const COAP_PUT: byte := 0x03
  const COAP_DELETE: byte := 0x04
  const COAP_LASTMETHOD: byte := 0x1F
  const COAP_CREATED: byte := 0x41
  const COAP_DELETED: byte := 0x42
  const COAP_VALID: byte := 0x43
  const COAP_CHANGED: byte := 0x44
  const COAP_CONTENT: byte := 0x45
  const COAP_BAD_REQUEST: byte := 0x80
  const COAP_UNAUTHORIZED: byte := 0x81
  const COAP_BAD_OPTION: byte := 0x82
  const COAP_FORBIDDEN: byte := 0x83
  const COAP_NOT_FOUND: byte := 0x84
  const COAP_METHOD_NOT_ALLOWED: byte := 0x85
  const COAP_NOT_ACCEPTABLE: byte := 0x86
  const COAP_PRECONDITION_FAILED: byte := 0x8C
  const COAP_REQUEST_ENTITY_TOO_LARGE: byte := 0x8D
  const COAP_UNSUPPORTED_CONTENT_FORMAT: byte := 0x8F
  const COAP_INTERNAL_SERVER_ERROR: byte := 0xA0
  const COAP_NOT_IMPLEMENTED: byte := 0xA1
  const COAP_BAD_GATEWAY: byte := 0xA2
  const COAP_SERVICE_UNAVAILABLE: byte := 0xA3
  const COAP_GATEWAY_TIMEOUT: byte := 0xA4
  const COAP_PROXYING_NOT_SUPPORTED: byte := 0xA5
  const COAP_UNDEFINED_CODE: byte := 0xFF

  /** The response codes are the class.detail pairs of RFC 7252 section 12.1.2;
      COAP_CONTENT is 2.05. */
  lemma ResponseCodesAreClassDetail()
    ensures COAP_CREATED == MakeRspCode(2, 1) && COAP_CHANGED == MakeRspCode(2, 4)
    ensures COAP_CONTENT == MakeRspCode(2, 5)
    ensures COAP_BAD_REQUEST == MakeRspCode(4, 0) && COAP_NOT_FOUND == MakeRspCode(4, 4)
    ensures COAP_PRECONDITION_FAILED == MakeRspCode(4, 12)
    ensures COAP_UNSUPPORTED_CONTENT_FORMAT == MakeRspCode(4, 15)
    ensures COAP_INTERNAL_SERVER_ERROR == MakeRspCode(5, 0)
    ensures COAP_PROXYING_NOT_SUPPORTED == MakeRspCode(5, 5)
  {
  }

  // coap_option_num_t
  const COAP_OPTION_IF_MATCH: byte := 1
  const COAP_OPTION_URI_HOST: byte := 3
  const COAP_OPTION_ETAG: byte := 4
  const COAP_OPTION_IF_NONE_MATCH: byte := 5
  const COAP_OPTION_OBSERVE: byte := 6
  const COAP_OPTION_URI_PORT: byte := 7
  const COAP_OPTION_LOCATION_PATH: byte := 8
  const COAP_OPTION_URI_PATH: byte := 11
  const COAP_OPTION_CONTENT_FORMAT: byte := 12
  const COAP_OPTION_MAX_AGE: byte := 14
  const COAP_OPTION_URI_QUERY: byte := 15
  const COAP_OPTION_ACCEPT: byte := 17
  const COAP_OPTION_LOCATION_QUERY: byte := 20
  const COAP_OPTION_BLOCK_2: byte := 23
  const COAP_OPTION_BLOCK_1: byte := 27
  const COAP_OPTION_PROXY_URI: byte := 35
  const COAP_OPTION_PROXY_SCHEME: byte := 39

  // coap_content_type_t (an int enumeration; NONE is the -1 "no option" marker)
  const COAP_CONTENTTYPE_NONE: int := -1
  const COAP_CONTENTTYPE_TEXT_PLAIN: int := 0
  const COAP_CONTENTTYPE_APPLICATION_LINKFORMAT: int := 40
  const COAP_CONTENTTYPE_APPLICATION_XML: int := 41
  const COAP_CONTENTTYPE_APPLICATION_OCTECT_STREAM: int := 42
  const COAP_CONTENTTYPE_APPLICATION_EXI: int := 47
  const COAP_CONTENTTYPE_APPLICATION_JSON: int := 50

  // coap_blocksize_t: the SZX exponent of RFC 7959 section 2.2
  const COAP_BLOCKSIZE_16: int := 0
  const COAP_BLOCKSIZE_32: int := 1
  const COAP_BLOCKSIZE_64: int := 2
  const COAP_BLOCKSIZE_128: int := 3
  const COAP_BLOCKSIZE_256: int := 4
  const COAP_BLOCKSIZE_512: int := 5
  const COAP_BLOCKSIZE_1024: int := 6

  function Pow2(k: nat): (p: nat)
    ensures p >= 1
  {
    if k == 0 then 1 else 2 * Pow2(k - 1)
  }

  /** The block size each coap_blocksize_t member names: 16 * 2^SZX bytes. */
  function BlockSizeBytes(szx: int): (n: nat)
    requires COAP_BLOCKSIZE_16 <= szx <= COAP_BLOCKSIZE_1024
    ensures n == 16 * Pow2(szx)
  {
    if szx == COAP_BLOCKSIZE_16 then 16
    else if szx == COAP_BLOCKSIZE_32 then 32
    else if szx == COAP_BLOCKSIZE_64 then 64
    else if szx == COAP_BLOCKSIZE_128 then 128
    else if szx == COAP_BLOCKSIZE_256 then 256
    else if szx == COAP_BLOCKSIZE_512 then 512
    else 1024
  }
}
