/** The send side of coap.c: the option nibble encoding, the byte image
    coap_build produces for a packet, and coap_build itself writing that image
    through a cursor into a caller's buffer. */
module CoapBuild {
  import opened ByteOrder
  import opened CoapTypes
  import opened CoapParse
  import opened CoapOrder

  /** coap_option_nibble: the nibble announcing a delta or length value. For a
      value above 65804 it leaves in place what the nibble held before. */
  function OptionNibble(value: nat, prior: byte): (n: byte)
    ensures value <= MAX_NIBBLE_VALUE ==> n < 15
    ensures value > MAX_NIBBLE_VALUE ==> n == prior
  {
    if value < 13 then value
    else if value <= 0xFF + 13 then 13
    else if value <= MAX_NIBBLE_VALUE then 14
    else prior
  }

  /** The extension bytes RFC 7252 section 3.1 puts after a nibble of 13 or 14,
      as coap_build writes them for the option delta: reading them back with
      the nibble gives the value, in the uint16_t the parser holds it in. */
  function ExtensionBytes(value: nat): (ext: seq<byte>)
    requires value <= MAX_NIBBLE_VALUE
    ensures |ext| == ExtensionLength(OptionNibble(value, 0))
    ensures NibbleValue(OptionNibble(value, 0), ext) == value % 0x1_0000
  {
    if value < 13 then []
    else if value <= 0xFF + 13 then [value - 13]
    else
      var w := value - 269;
      assert w == w / 0x100 * 0x100 + w % 0x100;
      [w / 0x100, w % 0x100]
  }

  /** The bytes coap_build writes after the length nibble. For nibble 14 the
      high byte is taken from the length itself instead of length - 269. */
  function LengthBytes(len: nat): (ext: seq<byte>)
    requires len <= MAX_NIBBLE_VALUE
    ensures |ext| == ExtensionLength(OptionNibble(len, 0))
    ensures len < 269 ==> ext == ExtensionBytes(len)
  {
    if len < 13 then []
    else if len <= 0xFF + 13 then [len - 13]
    else [len / 0x100 % 0x100, (len - 269) % 0x100]
  }

  /** Reading back the length bytes of a 269-byte option gives 525. */
  lemma LengthEscapeExample()
    ensures LengthBytes(269) == [1, 0]
    ensures NibbleValue(OptionNibble(269, 0), LengthBytes(269)) == 525
  {
  }

  /** No length from 269 to 65804 survives coap_build's length bytes: what a
      reader takes from them is off by a non-zero multiple of 256. */
  lemma LengthEscapeMisread(len: nat)
    requires 269 <= len <= MAX_NIBBLE_VALUE
    ensures NibbleValue(OptionNibble(len, 0), LengthBytes(len)) != len
  {
    var a, b, h := (len - 269) / 0x100, (len - 269) % 0x100, len / 0x100;
    assert len - 269 == a * 0x100 + b;
    assert len == h * 0x100 + len % 0x100;
    assert h == a + 1 || h == a + 2;
  }

  /** Which extension bytes follow the length nibble: the ones coap_build
      writes, or the ones RFC 7252 section 3.1 prescribes. */
  datatype LengthEscape = AsWritten | Intended

  /** The option-number difference coap_build encodes, in uint32_t arithmetic. */
  function Delta(num: byte, running: byte): nat
  {
    (num - running) % 0x1_0000_0000
  }

  /** The option header byte: delta nibble high, length nibble low. */
  function OptionHeader(d: byte, l: byte): byte
    requires d < 16 && l < 16
  {
    d * 0x10 + l
  }

  /** One option as coap_build writes it after the option numbered running:
      header byte, delta extension, length extension, value. The delta nibble
      starts out 0, so a delta above 65804 goes out as 0 with no extension.
      The length nibble starts out uninitialised; for a value longer than
      65804 bytes, which coap_build's callers must not pass (see Encodable),
      this function writes nibble 0 and no length extension. */
  function EncodeOption(o: CoapOption, running: byte, e: LengthEscape): seq<byte>
  {
    OptionPrefix(Delta(o.num, running), |o.value|, e) + o.value
  }

  /** The header byte and extension bytes of an option with the given delta
      and value length. */
  function OptionPrefix(delta: nat, len: nat, e: LengthEscape): seq<byte>
  {
    var d := OptionNibble(delta, 0);
    var l := OptionNibble(len, 0);
    [OptionHeader(d, l)]
    + (if delta <= MAX_NIBBLE_VALUE then ExtensionBytes(delta) else [])
    + (if len > MAX_NIBBLE_VALUE then [] else if e == AsWritten then LengthBytes(len) else ExtensionBytes(len))
  }

  /** Every option value fits the nibble encoding. */
  predicate ValuesEncodable(s: seq<CoapOption>)
  {
    forall k :: 0 <= k < |s| ==> |s[k].value| <= MAX_NIBBLE_VALUE
  }

  /** The options of s one after the other, each encoded after the option
      number before it; the first follows running. */
  function EncodeOptions(s: seq<CoapOption>, running: byte, e: LengthEscape): seq<byte>
  {
    if s == [] then [] else EncodeOption(s[0], running, e) + EncodeOptions(s[1..], s[0].num, e)
  }

  /** The option number in force before s[i] when s follows running. */
  function RunningAt(s: seq<CoapOption>, running: byte, i: nat): byte
    requires i <= |s|
  {
    if i == 0 then running else s[i - 1].num
  }

  lemma AppendAssoc(a: seq<byte>, b: seq<byte>, c: seq<byte>)
    ensures (a + b) + c == a + (b + c)
  {
  }

  /** Encoding options is encoding a prefix, then the rest after the last
      option of the prefix. */
  lemma {:induction false} EncodeOptionsSplit(s: seq<CoapOption>, running: byte, i: nat, e: LengthEscape)
    requires i <= |s|
    ensures EncodeOptions(s, running, e) == EncodeOptions(s[..i], running, e) + EncodeOptions(s[i..], RunningAt(s, running, i), e)
  {
    if i == 0 {
      assert s[..0] == [] && s[0..] == s;
    } else {
      var t := s[1..];
      EncodeOptionsSplit(t, s[0].num, i - 1, e);
      assert s[..i][0] == s[0] && s[..i][1..] == t[..i - 1];
      assert t[i - 1..] == s[i..];
      assert RunningAt(t, s[0].num, i - 1) == RunningAt(s, running, i);
      AppendAssoc(EncodeOption(s[0], running, e), EncodeOptions(t[..i - 1], s[0].num, e),
                  EncodeOptions(s[i..], RunningAt(s, running, i), e));
    }
  }

  /** The options in the order an index sequence lists them. */
  function Arrange(opts: seq<CoapOption>, order: seq<nat>): (r: seq<CoapOption>)
    requires InRange(order, |opts|)
    ensures |r| == |order|
    ensures forall k :: 0 <= k < |order| ==> r[k] == opts[order[k]]
  {
    if order == [] then [] else Arrange(opts, order[..|order| - 1]) + [opts[order[|order| - 1]]]
  }

  /** The options in the order coap_order_options puts them. */
  function SortedOptions(opts: seq<CoapOption>): (r: seq<CoapOption>)
    ensures |r| == |opts|
  {
    Arrange(opts, InsertionOrder(opts, |opts|))
  }

  /** What coap_build demands of a packet beyond its checks: the options fit
      the MAXOPT-entry index array and no value is too long for the nibble
      encoding, whose nibble would otherwise be read uninitialised. */
  predicate Encodable(pkt: Packet)
  {
    |pkt.opts| <= MAXOPT && ValuesEncodable(pkt.opts)
  }

  lemma SortedOptionsEncodable(opts: seq<CoapOption>)
    requires ValuesEncodable(opts)
    ensures ValuesEncodable(SortedOptions(opts))
  {
  }

  /** The four header bytes: version, type and token length packed into the
      first, then the code and the message id in network order. */
  function HeaderBytes(hdr: Header): seq<byte>
  {
    [hdr.ver % 4 * 0x40 + hdr.t % 4 * 0x10 + hdr.tkl % 0x10, hdr.code] + BeBytes16(hdr.id)
  }

  /** The token bytes coap_build copies: hdr.tkl of them. */
  function TokenBytes(pkt: Packet): seq<byte>
    requires pkt.hdr.tkl == 0 || pkt.hdr.tkl == |pkt.tok|
  {
    if pkt.hdr.tkl == 0 then [] else pkt.tok
  }

  /** The 0xFF marker and the payload, or nothing for an empty payload. */
  function PayloadBytes(payload: seq<byte>): seq<byte>
  {
    if |payload| > 0 then [0xFF] + payload else []
  }

  /** The whole byte image: header, token, options in ascending order, and the
      0xFF marker and payload when there is a payload. */
  function Encode(pkt: Packet, e: LengthEscape): seq<byte>
    requires pkt.hdr.tkl == 0 || pkt.hdr.tkl == |pkt.tok|
  {
    HeaderBytes(pkt.hdr) + TokenBytes(pkt) + EncodeOptions(SortedOptions(pkt.opts), 0, e) + PayloadBytes(pkt.payload)
  }

  /** The checks coap_build makes before it encodes any option, in its order. */
  function BuildChecks(buflen: nat, pkt: Packet): Option<Error>
  {
    var tkl := pkt.hdr.tkl;
    if buflen < 4 + tkl then Some(BufferTooSmall)
    else if pkt.hdr.ver != 1 then Some(VersionNot1)
    else if tkl > 8 then Some(TokenTooLong)
    else if tkl > 0 && tkl != |pkt.tok| then Some(TokenLengthMismatch)
    else None
  }

  /** coap_build's result for a buffer of buflen bytes, with the capacity check
      it evidently intends: the checks in the source's order, then the whole
      image, which must fit. */
  function BuildSpec(buflen: nat, pkt: Packet, e: LengthEscape): (r: Result<seq<byte>>)
    ensures buflen < 4 + pkt.hdr.tkl ==> r == Err(BufferTooSmall)
    ensures BuildChecks(buflen, pkt).Some? ==> r == Err(BuildChecks(buflen, pkt).value)
    ensures r.Ok? ==> |r.value| <= buflen && pkt.hdr.ver == 1 && pkt.hdr.tkl <= 8
    ensures r.Ok? ==> (pkt.hdr.tkl == 0 || pkt.hdr.tkl == |pkt.tok|)
    ensures r.Err? ==> r.error in {BufferTooSmall, VersionNot1, TokenTooLong, TokenLengthMismatch}
  {
    match BuildChecks(buflen, pkt)
    case Some(err) => Err(err)
    case None =>
      var image := Encode(pkt, e);
      if |image| > buflen then Err(BufferTooSmall) else Ok(image)
  }

  /** Every option of s starts at or before buflen when the first one starts
      at start. */
  predicate StartsFit(s: seq<CoapOption>, start: nat, buflen: nat)
  {
    forall i :: 0 <= i < |s| ==> start + |EncodeOptions(s[..i], 0, AsWritten)| <= buflen
  }

  /** coap_build as written: the cursor is compared with buflen only before each
      option is written and, when there is a payload, once before the payload.
      Without a payload the last option may run past buflen. */
  function BuildAsWritten(buflen: nat, pkt: Packet): (r: Result<seq<byte>>)
    ensures BuildChecks(buflen, pkt).Some? ==> r == Err(BuildChecks(buflen, pkt).value)
  {
    match BuildChecks(buflen, pkt)
    case Some(err) => Err(err)
    case None =>
      var start := 4 + pkt.hdr.tkl;
      var sorted := SortedOptions(pkt.opts);
      if !StartsFit(sorted, start, buflen) then Err(BufferTooSmall)
      else if |pkt.payload| > 0 && buflen < start + |EncodeOptions(sorted, 0, AsWritten)| + 1 + |pkt.payload| then
        Err(BufferTooSmall)
      else Ok(Encode(pkt, AsWritten))
  }

  /** With a payload, or when the image fits, the as-written checks decide
      like the intended one; the two differ only on a packet without payload
      whose image runs past buflen. */
  lemma BuildAsWrittenAgrees(buflen: nat, pkt: Packet)
    requires |pkt.payload| > 0 || BuildSpec(buflen, pkt, AsWritten).Ok?
    ensures BuildAsWritten(buflen, pkt) == BuildSpec(buflen, pkt, AsWritten)
  {
    if BuildChecks(buflen, pkt).None? {
      var start := 4 + pkt.hdr.tkl;
      var sorted := SortedOptions(pkt.opts);
      var all := EncodeOptions(sorted, 0, AsWritten);
      var image := Encode(pkt, AsWritten);
      assert |image| == start + |all| + |PayloadBytes(pkt.payload)|;
      if |image| <= buflen {
        forall i | 0 <= i < |sorted|
          ensures start + |EncodeOptions(sorted[..i], 0, AsWritten)| <= buflen
        {
          EncodeOptionsSplit(sorted, 0, i, AsWritten);
        }
      }
    }
  }

  /** A packet with one option, no token and no payload encodes as its header
      and that option. */
  lemma SingleOptionImage(pkt: Packet, e: LengthEscape)
    requires pkt.hdr.tkl == 0 && |pkt.opts| == 1 && pkt.payload == []
    ensures SortedOptions(pkt.opts) == pkt.opts
    ensures Encode(pkt, e) == HeaderBytes(pkt.hdr) + EncodeOption(pkt.opts[0], 0, e)
  {
    assert InsertionOrder(pkt.opts, 1) == [0];
    assert pkt.opts[1..] == [];
    assert EncodeOptions(pkt.opts, 0, e) == EncodeOption(pkt.opts[0], 0, e) + [];
    assert TokenBytes(pkt) == [] && PayloadBytes(pkt.payload) == [];
  }

  /** Without a payload, one option with a four-byte value and a buffer of 5
      bytes: coap_build reports success with a 9-byte image. */
  lemma BuildOverrunExample()
    ensures var pkt := Packet(Header(1, 0, 0, COAP_GET, 0), [], [CoapOption(COAP_OPTION_URI_PATH, [0x61, 0x62, 0x63, 0x64])], []);
      && BuildAsWritten(5, pkt) == Ok([0x40, 0x01, 0x00, 0x00, 0xB4, 0x61, 0x62, 0x63, 0x64])
      && BuildSpec(5, pkt, AsWritten) == Err(BufferTooSmall)
  {
    var o := CoapOption(COAP_OPTION_URI_PATH, [0x61, 0x62, 0x63, 0x64]);
    var pkt := Packet(Header(1, 0, 0, COAP_GET, 0), [], [o], []);
    SingleOptionImage(pkt, AsWritten);
    assert OptionPrefix(Delta(o.num, 0), 4, AsWritten) == [0xB4];
    assert HeaderBytes(pkt.hdr) == [0x40, 0x01, 0x00, 0x00];
    assert StartsFit(pkt.opts, 4, 5) by {
      assert pkt.opts[..0] == [];
    }
    var image: seq<byte> := [0x40, 0x01, 0x00, 0x00, 0xB4, 0x61, 0x62, 0x63, 0x64];
    assert [0x40, 0x01, 0x00, 0x00] + ([0xB4] + o.value) == image;
    assert Encode(pkt, AsWritten) == image;
    assert BuildAsWritten(5, pkt) == Ok(image);
  }

  /** The header byte and extension bytes coap_build's loop body writes for
      an option delta and value length, branch by branch as the source writes
      them. */
  method OptionHead(optDelta: nat, len: nat, e: LengthEscape) returns (head: seq<byte>)
    requires len <= MAX_NIBBLE_VALUE
    ensures head == OptionPrefix(optDelta, len, e)
  {
    var delta := OptionNibble(optDelta, 0);
    var l := OptionNibble(len, 0);
    head := [OptionHeader(delta, l)];
    if delta == 13 {
      head := head + [optDelta - 13];
    } else if delta == 14 {
      head := head + [(optDelta - 269) / 0x100, (optDelta - 269) % 0x100];
    }
    assert head == [OptionHeader(delta, l)] + (if optDelta <= MAX_NIBBLE_VALUE then ExtensionBytes(optDelta) else []);
    ghost var mid := head;
    if l == 13 {
      head := head + [len - 13];
    } else if l == 14 {
      if e == AsWritten {
        head := head + [len / 0x100 % 0x100, (len - 269) % 0x100];
      } else {
        head := head + [(len - 269) / 0x100, (len - 269) % 0x100];
      }
    }
    assert head == mid + (if e == AsWritten then LengthBytes(len) else ExtensionBytes(len));
  }

  /** One turn of coap_build's option loop at p: the header and extension
      bytes, then the value. The room for them is checked first, which
      coap_build as written does not do (see BuildAsWritten). None stands for
      COAP_ERR_BUFFER_TOO_SMALL. */
  method WriteOption(buf: array<byte>, buflen: nat, p: nat, o: CoapOption, running: byte, e: LengthEscape)
    returns (q: Option<nat>)
    requires p <= buflen <= buf.Length && |o.value| <= MAX_NIBBLE_VALUE
    modifies buf
    ensures q.Some? <==> p + |EncodeOption(o, running, e)| <= buflen
    ensures q.Some? ==> q.value == p + |EncodeOption(o, running, e)|
    ensures q.Some? ==> buf[..q.value] == old(buf[..p]) + EncodeOption(o, running, e)
    ensures forall k :: 0 <= k < buf.Length && (k < p || k >= buflen) ==> buf[k] == old(buf[k])
  {
    var len := |o.value|;
    var head := OptionHead(Delta(o.num, running), len, e);
    assert head + o.value == EncodeOption(o, running, e);
    if p + |head| + len > buflen {
      return None;
    }
    ghost var before := buf[..p];
    var at := p + |head|;
    CopyInto(buf, p, head);
    CopyInto(buf, at, o.value);
    AppendAssoc(before, head, o.value);
    return Some(p + |head| + len);
  }

  /** The four header bytes coap_build writes at the start of buf. */
  method WriteHeader(buf: array<byte>, hdr: Header)
    requires 4 <= buf.Length
    modifies buf
    ensures buf[..4] == HeaderBytes(hdr)
    ensures forall k :: 4 <= k < buf.Length ==> buf[k] == old(buf[k])
  {
    buf[0] := hdr.ver % 4 * 0x40 + hdr.t % 4 * 0x10 + hdr.tkl % 0x10;
    buf[1] := hdr.code;
    Store16(buf, 2, hdr.id);
    assert buf[..4] == [buf[0], buf[1]] + buf[2..4];
  }

  /** The option order coap_build takes from coap_order_options, in a fresh
      MAXOPT-entry index array. */
  method OptionOrder(opts: seq<CoapOption>) returns (order: seq<nat>)
    requires |opts| <= MAXOPT
    ensures order == InsertionOrder(opts, |opts|)
  {
    var indices := new nat[MAXOPT];
    OrderOptions(opts, indices);
    order := indices[..|opts|];
  }

  /** One step of the option loop: the encoding still to write starts with
      option i, after which option i + 1 onward follow option i. */
  lemma EncodeOptionsStep(all: seq<byte>, done: seq<byte>, s: seq<CoapOption>, i: nat, running: byte, e: LengthEscape)
    requires i < |s| && all == done + EncodeOptions(s[i..], running, e)
    ensures all == (done + EncodeOption(s[i], running, e)) + EncodeOptions(s[i + 1..], s[i].num, e)
  {
    assert s[i..][0] == s[i] && s[i..][1..] == s[i + 1..];
    AppendAssoc(done, EncodeOption(s[i], running, e), EncodeOptions(s[i + 1..], s[i].num, e));
  }

  /** coap_build's option loop from p0 on: the options in the given order,
      each after the one before it, as long as each fits below buflen. */
  method WriteOptions(buf: array<byte>, buflen: nat, p0: nat, opts: seq<CoapOption>, order: seq<nat>, e: LengthEscape)
    returns (r: Option<nat>)
    requires p0 <= buflen <= buf.Length && ValuesEncodable(opts) && InRange(order, |opts|)
    modifies buf
    ensures var n := |EncodeOptions(Arrange(opts, order), 0, e)|;
      && (r.Some? <==> p0 + n <= buflen)
      && (r.Some? ==> r.value == p0 + n)
    ensures r.Some? ==> buf[..r.value] == old(buf[..p0]) + EncodeOptions(Arrange(opts, order), 0, e)
    ensures forall k :: 0 <= k < buf.Length && (k < p0 || k >= buflen) ==> buf[k] == old(buf[k])
  {
    ghost var before := buf[..p0];
    ghost var sorted := Arrange(opts, order);
    ghost var all := EncodeOptions(sorted, 0, e);
    ghost var done: seq<byte> := [];
    var p := p0;
    var running: byte := 0;
    var i := 0;
    while i < |order|
      invariant 0 <= i <= |order| && p0 <= p <= buflen
      invariant all == done + EncodeOptions(sorted[i..], running, e)
      invariant p == p0 + |done|
      invariant buf[..p] == before + done
      invariant forall k :: 0 <= k < buf.Length && (k < p0 || k >= buflen) ==> buf[k] == old(buf[k])
    {
      var o := opts[order[i]];
      ghost var chunk := EncodeOption(o, running, e);
      EncodeOptionsStep(all, done, sorted, i, running, e);
      var q := WriteOption(buf, buflen, p, o, running, e);
      if q.None? {
        return None;
      }
      AppendAssoc(before, done, chunk);
      done := done + chunk;
      p := q.value;
      running := o.num;
      i := i + 1;
    }
    assert sorted[i..] == [];
    assert all == done + [];
    return Some(p);
  }

  /** The payload marker and the payload after the options at p, when they
      fit below buflen. */
  method WritePayload(buf: array<byte>, buflen: nat, p: nat, payload: seq<byte>) returns (r: Option<nat>)
    requires p <= buflen <= buf.Length
    modifies buf
    ensures r.Some? <==> p + 1 + |payload| <= buflen
    ensures r.Some? ==> r.value == p + 1 + |payload| && buf[..r.value] == old(buf[..p]) + [0xFF] + payload
    ensures forall k :: 0 <= k < buf.Length && (k < p || k >= buflen) ==> buf[k] == old(buf[k])
  {
    if buflen < p + 1 + |payload| {
      return None;
    }
    ghost var before := buf[..p];
    buf[p] := 0xFF;
    assert buf[..p + 1] == before + [0xFF] by {
      assert buf[..p + 1] == buf[..p] + [buf[p]];
    }
    ghost var marked := buf[..p + 1];
    CopyInto(buf, p + 1, payload);
    assert buf[..p + 1] == marked;
    assert buf[..p + 1 + |payload|] == marked + payload by {
      assert buf[..p + 1 + |payload|] == buf[..p + 1] + buf[p + 1..p + 1 + |payload|];
    }
    return Some(p + 1 + |payload|);
  }

  /** Everything coap_build writes after the token: the options in
      coap_order_options' order, then the payload marker and the payload. */
  method WriteBody(buf: array<byte>, buflen: nat, p: nat, pkt: Packet, e: LengthEscape) returns (r: Option<nat>)
    requires p <= buflen <= buf.Length && Encodable(pkt)
    modifies buf
    ensures var body := EncodeOptions(SortedOptions(pkt.opts), 0, e) + PayloadBytes(pkt.payload);
      && (r.Some? <==> p + |body| <= buflen)
      && (r.Some? ==> r.value == p + |body| && buf[..r.value] == old(buf[..p]) + body)
    ensures forall k :: 0 <= k < buf.Length && (k < p || k >= buflen) ==> buf[k] == old(buf[k])
  {
    ghost var before := buf[..p];
    ghost var options := EncodeOptions(SortedOptions(pkt.opts), 0, e);
    var order := OptionOrder(pkt.opts);
    var q := WriteOptions(buf, buflen, p, pkt.opts, order, e);
    if q.None? {
      return None;
    }
    if |pkt.payload| > 0 {
      r := WritePayload(buf, buflen, q.value, pkt.payload);
      if r.Some? {
        AppendAssoc(before + options, [0xFF], pkt.payload);
        AppendAssoc(before, options, [0xFF] + pkt.payload);
      }
    } else {
      assert options + [] == options;
      r := q;
    }
  }

  /** coap_build into the first buflen bytes of buf: the header, the token, the
      options in coap_order_options' order and the payload, each after a check
      that it fits. On success the result is the length written, which the
      source hands back through *buflen; nothing at or past buflen changes. */
  method Build(buf: array<byte>, buflen: nat, pkt: Packet, e: LengthEscape) returns (r: Result<nat>)
    requires buflen <= buf.Length && Encodable(pkt)
    modifies buf
    ensures BuildSpec(buflen, pkt, e).Err? ==> r == Err(BuildSpec(buflen, pkt, e).error)
    ensures BuildSpec(buflen, pkt, e).Ok? ==>
              r == Ok(|BuildSpec(buflen, pkt, e).value|) && buf[..r.value] == BuildSpec(buflen, pkt, e).value
    ensures forall k :: buflen <= k < buf.Length ==> buf[k] == old(buf[k])
  {
    var tkl: nat := pkt.hdr.tkl;
    if buflen < 4 + tkl {
      return Err(BufferTooSmall);
    }
    if pkt.hdr.ver != 1 {
      return Err(VersionNot1);
    }
    WriteHeader(buf, pkt.hdr);
    if tkl > 8 {
      return Err(TokenTooLong);
    }
    if tkl > 0 && tkl != |pkt.tok| {
      return Err(TokenLengthMismatch);
    }
    ghost var head := HeaderBytes(pkt.hdr) + TokenBytes(pkt);
    if tkl > 0 {
      ghost var hdrBytes := buf[..4];
      CopyInto(buf, 4, pkt.tok);
      assert buf[..4] == hdrBytes;
      assert buf[..4 + tkl] == buf[..4] + buf[4..4 + tkl];
    }
    assert buf[..4 + tkl] == head;
    ghost var options := EncodeOptions(SortedOptions(pkt.opts), 0, e);
    ghost var body := options + PayloadBytes(pkt.payload);
    ghost var image := Encode(pkt, e);
    AppendAssoc(head, options, PayloadBytes(pkt.payload));
    assert BuildChecks(buflen, pkt).None?;
    var q := WriteBody(buf, buflen, 4 + tkl, pkt, e);
    if q.None? {
      assert BuildSpec(buflen, pkt, e) == Err(BufferTooSmall);
      return Err(BufferTooSmall);
    }
    assert BuildSpec(buflen, pkt, e) == Ok(image);
    return Ok(q.value);
  }
}
