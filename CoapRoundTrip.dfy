/** Reading back what coap_build writes: coap_parse applied to the byte image
    of a packet gives the packet again, with its options in the order
    coap_order_options puts them, as long as every option value is short
    enough for the length escape in use. */
module CoapRoundTrip {
  import opened ByteOrder
  import opened CoapTypes
  import opened CoapParse
  import opened CoapOrder
  import opened CoapBuild

  /** One more than the longest option value whose length reads back: 268
      bytes with coap_build's length bytes, 65535 with the extension bytes of
      RFC 7252 section 3.1 (the parser holds a length in a uint16_t). */
  function ValueLimit(e: LengthEscape): nat
  {
    if e == AsWritten then 269 else 0x1_0000
  }

  predicate ValuesReadable(s: seq<CoapOption>, e: LengthEscape)
  {
    forall k :: 0 <= k < |s| ==> |s[k].value| < ValueLimit(e)
  }

  /** Option numbers never decrease along s, the first not below running. */
  predicate Ascending(s: seq<CoapOption>, running: byte)
  {
    forall k :: 0 <= k < |s| ==> RunningAt(s, running, k) <= s[k].num
  }

  /** The header and token of a packet that coap_parse can read back. */
  predicate HeaderReadable(pkt: Packet)
  {
    pkt.hdr.ver == 1 && pkt.hdr.t < 4 && pkt.hdr.tkl <= 8 && |pkt.tok| == pkt.hdr.tkl
  }

  /** A packet whose image coap_parse reads back. */
  predicate WellFormed(pkt: Packet, e: LengthEscape)
  {
    HeaderReadable(pkt) && |pkt.opts| <= MAXOPT && ValuesReadable(pkt.opts, e)
  }

  /** A slice of a slice of buf that holds enc is the same slice of enc. */
  lemma SliceOfSlice(buf: seq<byte>, pos: nat, enc: seq<byte>, a: nat, b: nat)
    requires pos + |enc| <= |buf| && buf[pos..pos + |enc|] == enc && a <= b <= |enc|
    ensures buf[pos + a..pos + b] == enc[a..b]
  {
    forall k | 0 <= k < b - a
      ensures buf[pos + a..pos + b][k] == enc[a..b][k]
    {
      assert buf[pos + a + k] == buf[pos..pos + |enc|][a + k];
    }
  }

  /** coap_order_options leaves the option numbers ascending. */
  lemma SortedOptionsAscending(opts: seq<CoapOption>)
    ensures Ascending(SortedOptions(opts), 0)
  {
    var s := SortedOptions(opts);
    var r := InsertionOrder(opts, |opts|);
    OrderIsStableSort(opts, |opts|);
    forall k | 0 < k < |s|
      ensures s[k - 1].num <= s[k].num
    {
      assert s[k - 1] == opts[r[k - 1]] && s[k] == opts[r[k]];
    }
  }

  /** Sorting moves options but keeps each one: a value length bound holds
      of the sorted options when it holds of the options. */
  lemma SortedOptionsReadable(opts: seq<CoapOption>, e: LengthEscape)
    requires ValuesReadable(opts, e)
    ensures ValuesReadable(SortedOptions(opts), e) && ValuesEncodable(SortedOptions(opts))
  {
    var s := SortedOptions(opts);
    var r := InsertionOrder(opts, |opts|);
    forall k | 0 <= k < |s|
      ensures |s[k].value| < ValueLimit(e)
    {
      assert s[k] == opts[r[k]];
    }
  }

  /** Every option of the packet is one of the sorted options. */
  lemma SortedOptionsCover(opts: seq<CoapOption>, j: nat)
    requires j < |opts|
    ensures opts[j] in SortedOptions(opts)
  {
    var r := InsertionOrder(opts, |opts|);
    OrderIsStableSort(opts, |opts|);
    assert j in r;
    var k :| 0 <= k < |r| && r[k] == j;
    assert SortedOptions(opts)[k] == opts[j];
  }

  /** The header byte of an option splits back into its two nibbles. */
  lemma OptionHeaderSplit(d: byte, l: byte)
    requires d < 16 && l < 16
    ensures OptionHeader(d, l) / 0x10 == d && OptionHeader(d, l) % 0x10 == l
  {
  }

  /** The pieces of one encoded option after an option numbered running <= o.num. */
  lemma EncodedOptionPieces(o: CoapOption, running: byte, e: LengthEscape)
    requires running <= o.num && |o.value| <= MAX_NIBBLE_VALUE
    ensures var delta := o.num - running;
      var d := OptionNibble(delta, 0);
      var l := OptionNibble(|o.value|, 0);
      var lExt := if e == AsWritten then LengthBytes(|o.value|) else ExtensionBytes(|o.value|);
      && d < 15 && l < 15
      && ExtensionLength(l) == |lExt|
      && EncodeOption(o, running, e) == [OptionHeader(d, l)] + ExtensionBytes(delta) + lExt + o.value
  {
    assert Delta(o.num, running) == o.num - running;
  }

  /** The pieces of an option laid out at pos: its header byte's two nibbles,
      the extension bytes of each and the value. */
  lemma PiecesAt(buf: seq<byte>, pos: nat, d: byte, l: byte, dExt: seq<byte>, lExt: seq<byte>, value: seq<byte>)
    requires d < 16 && l < 16
    requires pos + 1 + |dExt| + |lExt| + |value| <= |buf|
    requires buf[pos..pos + 1 + |dExt| + |lExt| + |value|] == [OptionHeader(d, l)] + dExt + lExt + value
    ensures buf[pos] / 0x10 == d && buf[pos] % 0x10 == l
    ensures buf[pos + 1..pos + 1 + |dExt|] == dExt
    ensures buf[pos + 1 + |dExt|..pos + 1 + |dExt| + |lExt|] == lExt
    ensures buf[pos + 1 + |dExt| + |lExt|..pos + 1 + |dExt| + |lExt| + |value|] == value
  {
    var enc := [OptionHeader(d, l)] + dExt + lExt + value;
    var a := 1 + |dExt|;
    var b := a + |lExt|;
    OptionHeaderSplit(d, l);
    assert enc[0] == OptionHeader(d, l);
    assert enc[1..a] == dExt && enc[a..b] == lExt && enc[b..] == value;
    assert buf[pos] == enc[0];
    SliceOfSlice(buf, pos, enc, 1, a);
    SliceOfSlice(buf, pos, enc, a, b);
    SliceOfSlice(buf, pos, enc, b, |enc|);
  }

  /** coap_parseOption at a header byte with nibbles d and l followed by
      their extension bytes: it fails or reads a value of the announced
      length, and it reads one whenever the buffer holds that many bytes. */
  lemma ParseOptionOfPieces(buf: seq<byte>, pos: nat, running: byte, d: byte, l: byte, dExt: seq<byte>,
                            lExt: seq<byte>, delta: nat)
    requires d < 15 && l < 15 && |dExt| == ExtensionLength(d) && |lExt| == ExtensionLength(l)
    requires pos + 1 + |dExt| + |lExt| <= |buf|
    requires buf[pos] / 0x10 == d && buf[pos] % 0x10 == l
    requires buf[pos + 1..pos + 1 + |dExt|] == dExt
    requires buf[pos + 1 + |dExt|..pos + 1 + |dExt| + |lExt|] == lExt
    requires NibbleValue(d, dExt) == delta && running + delta < 0x100
    ensures ParseOption(buf, pos, running).Ok? ==>
              |ParseOption(buf, pos, running).value.option.value| == NibbleValue(l, lExt)
    ensures var start := pos + 1 + |dExt| + |lExt|;
      var len := NibbleValue(l, lExt);
      start + len <= |buf| ==>
        ParseOption(buf, pos, running)
        == Ok(OptionStep(CoapOption(running + delta, buf[start..start + len]), start + len, running + delta))
  {
  }

  /** coap_parseOption on an option laid out as a header byte with nibbles
      d and l, the extension bytes of each and a value: it fails or reads a
      value of the length the length nibble announces, and when that is the
      length of value it reads exactly this option. */
  lemma ReadPieces(buf: seq<byte>, pos: nat, running: byte, d: byte, l: byte, dExt: seq<byte>, lExt: seq<byte>,
                   value: seq<byte>, delta: nat)
    requires d < 15 && l < 15 && |dExt| == ExtensionLength(d) && |lExt| == ExtensionLength(l)
    requires pos + 1 + |dExt| + |lExt| + |value| <= |buf|
    requires buf[pos..pos + 1 + |dExt| + |lExt| + |value|] == [OptionHeader(d, l)] + dExt + lExt + value
    requires NibbleValue(d, dExt) == delta && running + delta < 0x100
    ensures buf[pos] != 0xFF
    ensures ParseOption(buf, pos, running).Ok? ==>
              |ParseOption(buf, pos, running).value.option.value| == NibbleValue(l, lExt)
    ensures NibbleValue(l, lExt) == |value| ==>
              ParseOption(buf, pos, running)
              == Ok(OptionStep(CoapOption(running + delta, value), pos + 1 + |dExt| + |lExt| + |value|, running + delta))
  {
    PiecesAt(buf, pos, d, l, dExt, lExt, value);
    ParseOptionOfPieces(buf, pos, running, d, l, dExt, lExt, delta);
  }

  /** One turn of the option loop that reads the option o and then the rest. */
  lemma ParseStep(buf: seq<byte>, pos: nat, running: u16, budget: nat, s: seq<CoapOption>, next: nat, q: nat)
    requires pos < |buf| && buf[pos] != 0xFF && budget > 0 && |s| > 0
    requires ParseOption(buf, pos, running) == Ok(OptionStep(s[0], next, s[0].num))
    requires next <= |buf| && ParseOptions(buf, next, s[0].num, budget - 1) == Ok((s[1..], q))
    ensures ParseOptions(buf, pos, running, budget) == Ok((s, q))
  {
    ParseOptionsUnfold(buf, pos, running, budget);
    assert [s[0]] + s[1..] == s;
  }

  /** coap_parseOption reads back an option coap_build wrote after the option
      numbered running: the same option, the position after it, and its number
      as the new running number. */
  lemma ParseEncodedOption(buf: seq<byte>, pos: nat, o: CoapOption, running: byte, e: LengthEscape)
    requires running <= o.num && |o.value| < ValueLimit(e)
    requires pos + |EncodeOption(o, running, e)| <= |buf|
    requires buf[pos..pos + |EncodeOption(o, running, e)|] == EncodeOption(o, running, e)
    ensures buf[pos] != 0xFF
    ensures ParseOption(buf, pos, running) == Ok(OptionStep(o, pos + |EncodeOption(o, running, e)|, o.num))
  {
    var delta := o.num - running;
    var len := |o.value|;
    var lExt := if e == AsWritten then LengthBytes(len) else ExtensionBytes(len);
    EncodedOptionPieces(o, running, e);
    assert lExt == ExtensionBytes(len);
    ReadPieces(buf, pos, running, OptionNibble(delta, 0), OptionNibble(len, 0), ExtensionBytes(delta), lExt, o.value, delta);
  }

  /** coap_parseOption reads option i of s from at[i] to at[i + 1], after
      the option before it. */
  predicate ReadsAt(buf: seq<byte>, s: seq<CoapOption>, running: byte, at: seq<nat>, i: nat)
    requires i < |s| && |at| == |s| + 1
  {
    at[i] < |buf| && buf[at[i]] != 0xFF
    && ParseOption(buf, at[i], RunningAt(s, running, i)) == Ok(OptionStep(s[i], at[i + 1], s[i].num))
  }

  /** The options s hold at positions at also hold, without the first one, at at[1..]. */
  lemma ShiftReads(buf: seq<byte>, s: seq<CoapOption>, running: byte, at: seq<nat>, k: nat)
    requires |at| == |s| + 1 && 0 < k <= |s|
    requires forall i :: 0 <= i < k ==> ReadsAt(buf, s, running, at, i)
    ensures forall i :: 0 <= i < k - 1 ==> ReadsAt(buf, s[1..], s[0].num, at[1..], i)
  {
    forall i | 0 <= i < k - 1
      ensures ReadsAt(buf, s[1..], s[0].num, at[1..], i)
    {
      assert ReadsAt(buf, s, running, at, i + 1);
      assert RunningAt(s[1..], s[0].num, i) == RunningAt(s, running, i + 1);
    }
  }

  /** What ReadsAt says of the first option. */
  lemma ReadsFirst(buf: seq<byte>, s: seq<CoapOption>, running: byte, at: seq<nat>)
    requires |at| == |s| + 1 && 0 < |s| && ReadsAt(buf, s, running, at, 0)
    ensures at[0] < |buf| && buf[at[0]] != 0xFF && at[1] <= |buf|
    ensures ParseOption(buf, at[0], running) == Ok(OptionStep(s[0], at[1], s[0].num))
  {
    assert RunningAt(s, running, 0) == running;
  }

  /** The option loop of coap_parse over options it reads one by one: option
      i starts at at[i] and ends at at[i + 1], and the last one ends at the end
      of the buffer or at the payload marker. */
  lemma {:induction false} ParseRun(buf: seq<byte>, s: seq<CoapOption>, running: byte, budget: nat, at: seq<nat>,
                                    start: nat, end: nat)
    requires |at| == |s| + 1 && |s| <= budget && at[0] == start && at[|s|] == end && start <= |buf| && end <= |buf|
    requires forall i :: 0 <= i < |s| ==> ReadsAt(buf, s, running, at, i)
    requires end == |buf| || buf[end] == 0xFF
    ensures ParseOptions(buf, start, running, budget) == Ok((s, end))
    decreases |s|
  {
    if s != [] {
      ReadsFirst(buf, s, running, at);
      ShiftReads(buf, s, running, at, |s|);
      ParseRun(buf, s[1..], s[0].num, budget - 1, at[1..], at[1], end);
      ParseStep(buf, start, running, budget, s, at[1], end);
    }
  }

  /** Where option i of s starts within EncodeOptions(s, running, e), and
      that its own encoding follows there. */
  lemma OptionAt(s: seq<CoapOption>, running: byte, e: LengthEscape, i: nat)
    requires i < |s|
    ensures var a := |EncodeOptions(s[..i], running, e)|;
      var chunk := EncodeOption(s[i], RunningAt(s, running, i), e);
      && |EncodeOptions(s[..i + 1], running, e)| == a + |chunk|
      && a + |chunk| <= |EncodeOptions(s, running, e)|
      && EncodeOptions(s, running, e)[a..a + |chunk|] == chunk
  {
    var r := RunningAt(s, running, i);
    var pre := EncodeOptions(s[..i], running, e);
    var chunk := EncodeOption(s[i], r, e);
    var post := EncodeOptions(s[i + 1..], s[i].num, e);
    EncodeOptionsSplit(s, running, i, e);
    EncodeOptionsSplit(s, running, i + 1, e);
    assert s[i..][0] == s[i] && s[i..][1..] == s[i + 1..];
    assert EncodeOptions(s[i..], r, e) == chunk + post;
    assert EncodeOptions(s, running, e) == pre + (chunk + post);
  }

  /** The option coap_build wrote at offset a of the bytes enc, which sit at
      pos in buf, reads back: it starts at p and ends at q. */
  lemma ParseEncodedOptionIn(buf: seq<byte>, pos: nat, enc: seq<byte>, a: nat, o: CoapOption, running: byte,
                             e: LengthEscape, p: nat, q: nat)
    requires running <= o.num && |o.value| < ValueLimit(e)
    requires pos + |enc| <= |buf| && buf[pos..pos + |enc|] == enc
    requires a + |EncodeOption(o, running, e)| <= |enc| && enc[a..a + |EncodeOption(o, running, e)|] == EncodeOption(o, running, e)
    requires p == pos + a && q == p + |EncodeOption(o, running, e)|
    ensures p < |buf| && buf[p] != 0xFF
    ensures ParseOption(buf, p, running) == Ok(OptionStep(o, q, o.num))
  {
    SliceOfSlice(buf, pos, enc, a, a + |EncodeOption(o, running, e)|);
    ParseEncodedOption(buf, p, o, running, e);
  }

  /** Option i of the encoded run s sits where ReadsAt expects it. */
  lemma EncodedOptionReadsAt(buf: seq<byte>, pos: nat, s: seq<CoapOption>, running: byte, e: LengthEscape,
                             at: seq<nat>, i: nat)
    requires i < |s| && |at| == |s| + 1
    requires RunningAt(s, running, i) <= s[i].num && |s[i].value| < ValueLimit(e)
    requires pos + |EncodeOptions(s, running, e)| <= |buf|
    requires buf[pos..pos + |EncodeOptions(s, running, e)|] == EncodeOptions(s, running, e)
    requires at[i] == pos + |EncodeOptions(s[..i], running, e)|
    requires at[i + 1] == pos + |EncodeOptions(s[..i + 1], running, e)|
    ensures ReadsAt(buf, s, running, at, i)
  {
    OptionAt(s, running, e, i);
    ParseEncodedOptionIn(buf, pos, EncodeOptions(s, running, e), |EncodeOptions(s[..i], running, e)|, s[i],
                         RunningAt(s, running, i), e, at[i], at[i + 1]);
  }

  /** The first k options of the encoded run s sit where ReadsAt expects
      them, when at holds where each option starts. */
  lemma EncodedRunReads(buf: seq<byte>, pos: nat, s: seq<CoapOption>, running: byte, e: LengthEscape,
                        at: seq<nat>, k: nat)
    requires k <= |s| && |at| == |s| + 1
    requires forall i :: 0 <= i < k ==> RunningAt(s, running, i) <= s[i].num && |s[i].value| < ValueLimit(e)
    requires pos + |EncodeOptions(s, running, e)| <= |buf|
    requires buf[pos..pos + |EncodeOptions(s, running, e)|] == EncodeOptions(s, running, e)
    requires forall i :: 0 <= i <= |s| ==> at[i] == pos + |EncodeOptions(s[..i], running, e)|
    ensures forall i :: 0 <= i < k ==> ReadsAt(buf, s, running, at, i)
  {
    forall i | 0 <= i < k
      ensures ReadsAt(buf, s, running, at, i)
    {
      EncodedOptionReadsAt(buf, pos, s, running, e, at, i);
    }
  }

  /** The option loop of coap_parse reads back a run of ascending options that
      ends at the end of the buffer or at the payload marker. */
  lemma ParseEncodedOptions(buf: seq<byte>, pos: nat, s: seq<CoapOption>, running: byte,
                            e: LengthEscape, budget: nat)
    requires Ascending(s, running) && ValuesReadable(s, e) && |s| <= budget
    requires pos + |EncodeOptions(s, running, e)| <= |buf|
    requires buf[pos..pos + |EncodeOptions(s, running, e)|] == EncodeOptions(s, running, e)
    requires var q := pos + |EncodeOptions(s, running, e)|; q == |buf| || buf[q] == 0xFF
    ensures ParseOptions(buf, pos, running, budget) == Ok((s, pos + |EncodeOptions(s, running, e)|))
  {
    var enc := EncodeOptions(s, running, e);
    var at: seq<nat> := seq(|s| + 1, i requires 0 <= i <= |s| => pos + |EncodeOptions(s[..i], running, e)|);
    assert s[..0] == [] && at[0] == pos;
    assert s[..|s|] == s && at[|s|] == pos + |enc|;
    EncodedRunReads(buf, pos, s, running, e, at, |s|);
    ParseRun(buf, s, running, budget, at, pos, pos + |enc|);
  }

  /** As coap_build writes it, an option of 269 or more bytes does not read
      back: the parser takes another length and then either runs out of
      buffer or returns a different option. */
  lemma LongOptionMisread(buf: seq<byte>, pos: nat, o: CoapOption, running: byte)
    requires running <= o.num && 269 <= |o.value| <= MAX_NIBBLE_VALUE
    requires pos + |EncodeOption(o, running, AsWritten)| <= |buf|
    requires buf[pos..pos + |EncodeOption(o, running, AsWritten)|] == EncodeOption(o, running, AsWritten)
    ensures buf[pos] != 0xFF
    ensures ParseOption(buf, pos, running).Err? || ParseOption(buf, pos, running).value.option != o
  {
    var delta := o.num - running;
    var len := |o.value|;
    EncodedOptionPieces(o, running, AsWritten);
    LengthEscapeMisread(len);
    ReadPieces(buf, pos, running, OptionNibble(delta, 0), OptionNibble(len, 0), ExtensionBytes(delta),
               LengthBytes(len), o.value, delta);
  }

  /** The long option o that coap_build wrote at offset a of the bytes enc,
      which sit at pos in buf, does not read back from p. */
  lemma LongOptionMisreadIn(buf: seq<byte>, pos: nat, enc: seq<byte>, a: nat, o: CoapOption, running: byte, p: nat)
    requires running <= o.num && 269 <= |o.value| <= MAX_NIBBLE_VALUE
    requires pos + |enc| <= |buf| && buf[pos..pos + |enc|] == enc
    requires a + |EncodeOption(o, running, AsWritten)| <= |enc|
    requires enc[a..a + |EncodeOption(o, running, AsWritten)|] == EncodeOption(o, running, AsWritten)
    requires p == pos + a
    ensures p < |buf| && buf[p] != 0xFF
    ensures ParseOption(buf, p, running).Err? || ParseOption(buf, p, running).value.option != o
  {
    SliceOfSlice(buf, pos, enc, a, a + |EncodeOption(o, running, AsWritten)|);
    LongOptionMisread(buf, p, o, running);
  }

  /** coap_parseOption fails on option k of s at at[k], or reads another option. */
  predicate MisreadAt(buf: seq<byte>, s: seq<CoapOption>, running: byte, at: seq<nat>, k: nat)
    requires k < |s| && |at| == |s| + 1
  {
    at[k] < |buf| && buf[at[k]] != 0xFF
    && (ParseOption(buf, at[k], RunningAt(s, running, k)).Err?
        || ParseOption(buf, at[k], RunningAt(s, running, k)).value.option != s[k])
  }

  /** Option k of the encoded run s, 269 bytes or longer, does not read back. */
  lemma EncodedOptionMisreadAt(buf: seq<byte>, pos: nat, s: seq<CoapOption>, running: byte, at: seq<nat>, k: nat)
    requires k < |s| && |at| == |s| + 1
    requires RunningAt(s, running, k) <= s[k].num && 269 <= |s[k].value| <= MAX_NIBBLE_VALUE
    requires pos + |EncodeOptions(s, running, AsWritten)| <= |buf|
    requires buf[pos..pos + |EncodeOptions(s, running, AsWritten)|] == EncodeOptions(s, running, AsWritten)
    requires at[k] == pos + |EncodeOptions(s[..k], running, AsWritten)|
    ensures MisreadAt(buf, s, running, at, k)
  {
    OptionAt(s, running, AsWritten, k);
    LongOptionMisreadIn(buf, pos, EncodeOptions(s, running, AsWritten), |EncodeOptions(s[..k], running, AsWritten)|,
                        s[k], RunningAt(s, running, k), at[k]);
  }

  /** The option loop fails at pos, or reads something other than s there,
      when the option it reads there is not s[0]. */
  lemma BrokenHere(buf: seq<byte>, pos: nat, running: u16, budget: nat, s: seq<CoapOption>)
    requires pos < |buf| && buf[pos] != 0xFF && budget > 0 && |s| > 0
    requires ParseOption(buf, pos, running).Err? || ParseOption(buf, pos, running).value.option != s[0]
    ensures ParseOptions(buf, pos, running, budget).Err? || ParseOptions(buf, pos, running, budget).value.0 != s
  {
    ParseOptionsUnfold(buf, pos, running, budget);
    var step := ParseOption(buf, pos, running);
    if step.Ok? {
      var tail := ParseOptions(buf, step.value.next, step.value.running, budget - 1);
      if tail.Ok? {
        assert ParseOptions(buf, pos, running, budget).value.0[0] == step.value.option;
      }
    }
  }

  /** The option loop fails at pos, or reads something other than s there,
      when it reads s[0] and then fails, or reads something other than the
      rest of s. */
  lemma BrokenLater(buf: seq<byte>, pos: nat, running: u16, budget: nat, s: seq<CoapOption>, next: nat)
    requires pos < |buf| && buf[pos] != 0xFF && budget > 0 && |s| > 0
    requires ParseOption(buf, pos, running) == Ok(OptionStep(s[0], next, s[0].num))
    requires next <= |buf|
    requires ParseOptions(buf, next, s[0].num, budget - 1).Err?
             || ParseOptions(buf, next, s[0].num, budget - 1).value.0 != s[1..]
    ensures ParseOptions(buf, pos, running, budget).Err? || ParseOptions(buf, pos, running, budget).value.0 != s
  {
    ParseOptionsUnfold(buf, pos, running, budget);
    var tail := ParseOptions(buf, next, s[0].num, budget - 1);
    if tail.Ok? {
      assert ParseOptions(buf, pos, running, budget).value.0 == [s[0]] + tail.value.0;
      assert ([s[0]] + tail.value.0)[1..] == tail.value.0;
    }
  }

  /** A misread option k of s is option k - 1 of s[1..] at at[1..]. */
  lemma ShiftMisread(buf: seq<byte>, s: seq<CoapOption>, running: byte, at: seq<nat>, k: nat)
    requires |at| == |s| + 1 && 0 < k < |s| && MisreadAt(buf, s, running, at, k)
    ensures MisreadAt(buf, s[1..], s[0].num, at[1..], k - 1)
  {
    assert RunningAt(s[1..], s[0].num, k - 1) == RunningAt(s, running, k);
  }

  /** The option loop over options that read back up to option k, which does
      not: the loop fails or returns other options than s. */
  lemma {:induction false} ParseRunBroken(buf: seq<byte>, s: seq<CoapOption>, running: byte, budget: nat,
                                          at: seq<nat>, start: nat, k: nat)
    requires |at| == |s| + 1 && |s| <= budget && k < |s| && at[0] == start && start <= |buf|
    requires forall i :: 0 <= i < k ==> ReadsAt(buf, s, running, at, i)
    requires MisreadAt(buf, s, running, at, k)
    ensures ParseOptions(buf, start, running, budget).Err? || ParseOptions(buf, start, running, budget).value.0 != s
    decreases k
  {
    if k == 0 {
      assert RunningAt(s, running, 0) == running;
      BrokenHere(buf, start, running, budget, s);
    } else {
      ReadsFirst(buf, s, running, at);
      ShiftReads(buf, s, running, at, k);
      ShiftMisread(buf, s, running, at, k);
      ParseRunBroken(buf, s[1..], s[0].num, budget - 1, at[1..], at[1], k - 1);
      BrokenLater(buf, start, running, budget, s, at[1]);
    }
  }

  /** The first option of s that is 269 bytes or longer, given one that is. */
  lemma FirstLong(s: seq<CoapOption>, j: nat) returns (k: nat)
    requires j < |s| && |s[j].value| >= 269
    ensures k <= j && |s[k].value| >= 269
    ensures forall i :: 0 <= i < k ==> |s[i].value| < 269
    decreases j
  {
    if i :| 0 <= i < j && |s[i].value| >= 269 {
      k := FirstLong(s, i);
    } else {
      k := j;
    }
  }

  /** The option loop does not read back a run of ascending options whose
      option k, the first of 269 bytes or more, coap_build wrote with its
      length bytes. */
  lemma LongOptionsMisparsed(buf: seq<byte>, pos: nat, s: seq<CoapOption>, running: byte, budget: nat, k: nat)
    requires Ascending(s, running) && ValuesEncodable(s) && |s| <= budget
    requires k < |s| && |s[k].value| >= 269 && forall i :: 0 <= i < k ==> |s[i].value| < 269
    requires pos + |EncodeOptions(s, running, AsWritten)| <= |buf|
    requires buf[pos..pos + |EncodeOptions(s, running, AsWritten)|] == EncodeOptions(s, running, AsWritten)
    ensures ParseOptions(buf, pos, running, budget).Err? || ParseOptions(buf, pos, running, budget).value.0 != s
  {
    var at: seq<nat> := seq(|s| + 1, i requires 0 <= i <= |s| => pos + |EncodeOptions(s[..i], running, AsWritten)|);
    assert s[..0] == [] && at[0] == pos;
    EncodedRunReads(buf, pos, s, running, AsWritten, at, k);
    EncodedOptionMisreadAt(buf, pos, s, running, at, k);
    ParseRunBroken(buf, s, running, budget, at, pos, k);
  }

  /** The first four bytes of the image read back as the packet's header. */
  lemma ParseHeaderOfImage(buf: seq<byte>, hdr: Header)
    requires |buf| >= 4 && buf[..4] == HeaderBytes(hdr)
    requires hdr.ver == 1 && hdr.t < 4 && hdr.tkl < 16
    ensures ParseHeader(buf) == Ok(hdr)
  {
    assert buf[0] == 0x40 + hdr.t * 0x10 + hdr.tkl;
    assert buf[1] == hdr.code;
    assert buf[2..][..2] == buf[2..4] == BeBytes16(hdr.id);
    LoadReadsPrefix(buf[2..], 2);
    LoadOfBeBytes(hdr.id, 0, 0);
  }

  /** The image of a packet with its options in the order s gives them. */
  function ImageWith(pkt: Packet, s: seq<CoapOption>, e: LengthEscape): seq<byte>
    requires pkt.hdr.tkl == 0 || pkt.hdr.tkl == |pkt.tok|
  {
    HeaderBytes(pkt.hdr) + TokenBytes(pkt) + EncodeOptions(s, 0, e) + PayloadBytes(pkt.payload)
  }

  /** coap_parse on such an image: header and token come back and the rest
      is up to the option loop and the payload after it. */
  lemma ParseOfImage(pkt: Packet, s: seq<CoapOption>, e: LengthEscape)
    requires HeaderReadable(pkt)
    ensures var image := ImageWith(pkt, s, e);
      var start := 4 + pkt.hdr.tkl;
      var options := EncodeOptions(s, 0, e);
      && |image| == start + |options| + |PayloadBytes(pkt.payload)|
      && image[start..start + |options|] == options
      && image[start + |options|..] == PayloadBytes(pkt.payload)
      && ParseSpec(image) == (match OptionsAndPayload(pkt.hdr.tkl, image, MAXOPT)
                               case Err(x) => Err(x)
                               case Ok(body) => Ok(Packet(pkt.hdr, pkt.tok, body.0, body.1)))
  {
    var image := ImageWith(pkt, s, e);
    var head := HeaderBytes(pkt.hdr);
    var pre := head + TokenBytes(pkt);
    var options := EncodeOptions(s, 0, e);
    var start := 4 + pkt.hdr.tkl;
    assert |pre| == start;
    assert image == (pre + options) + PayloadBytes(pkt.payload);
    assert image[..4] == head;
    ParseHeaderOfImage(image, pkt.hdr);
    assert image[..start] == pre && pre[4..] == TokenBytes(pkt);
    assert ParseToken(pkt.hdr, image) == Ok(pkt.tok);
    assert image[start..start + |options|] == options;
  }

  /** After the options, the image holds the 0xFF marker and the payload, or
      nothing; the option loop stops there and the payload comes back. */
  lemma PayloadOfImage(image: seq<byte>, q: nat, payload: seq<byte>)
    requires q <= |image| && image[q..] == PayloadBytes(payload)
    ensures q == |image| || image[q] == 0xFF
    ensures PayloadAt(image, q) == payload
  {
    if |payload| > 0 {
      assert image[q] == image[q..][0];
      assert image[q + 1..] == image[q..][1..];
    }
  }

  /** coap_parseOptionsAndPayload on a buffer that holds, after the token,
      ascending options that read back and then the marker and payload. */
  lemma OptionsThenPayload(tkl: byte, buf: seq<byte>, s: seq<CoapOption>, e: LengthEscape, payload: seq<byte>)
    requires Ascending(s, 0) && ValuesReadable(s, e) && |s| <= MAXOPT
    requires 4 + tkl + |EncodeOptions(s, 0, e)| <= |buf|
    requires buf[4 + tkl..4 + tkl + |EncodeOptions(s, 0, e)|] == EncodeOptions(s, 0, e)
    requires buf[4 + tkl + |EncodeOptions(s, 0, e)|..] == PayloadBytes(payload)
    ensures OptionsAndPayload(tkl, buf, MAXOPT) == Ok((s, payload))
  {
    var start: nat := 4 + tkl as int;
    var q := start + |EncodeOptions(s, 0, e)|;
    PayloadOfImage(buf, q, payload);
    ParseEncodedOptions(buf, start, s, 0, e, MAXOPT);
  }

  /** The options and payload coap_parseOptionsAndPayload reads from the
      image of a packet whose options s ascend and read back. */
  lemma OptionsAndPayloadOfImage(pkt: Packet, s: seq<CoapOption>, e: LengthEscape)
    requires HeaderReadable(pkt) && Ascending(s, 0) && ValuesReadable(s, e) && |s| <= MAXOPT
    ensures OptionsAndPayload(pkt.hdr.tkl, ImageWith(pkt, s, e), MAXOPT) == Ok((s, pkt.payload))
  {
    ParseOfImage(pkt, s, e);
    OptionsThenPayload(pkt.hdr.tkl, ImageWith(pkt, s, e), s, e, pkt.payload);
  }

  /** coap_parse reads back such an image as the packet with options s. */
  lemma ParseImage(pkt: Packet, s: seq<CoapOption>, e: LengthEscape)
    requires HeaderReadable(pkt) && Ascending(s, 0) && ValuesReadable(s, e) && |s| <= MAXOPT
    ensures ParseSpec(ImageWith(pkt, s, e)) == Ok(Packet(pkt.hdr, pkt.tok, s, pkt.payload))
  {
    ParseOfImage(pkt, s, e);
    OptionsAndPayloadOfImage(pkt, s, e);
  }

  /** coap_parse does not read back such an image when option k of s, the
      first of 269 bytes or more, went out with coap_build's length bytes. */
  lemma ImageMisparsed(pkt: Packet, s: seq<CoapOption>, k: nat)
    requires HeaderReadable(pkt) && Ascending(s, 0) && ValuesEncodable(s) && |s| <= MAXOPT
    requires k < |s| && |s[k].value| >= 269 && forall i :: 0 <= i < k ==> |s[i].value| < 269
    ensures ParseSpec(ImageWith(pkt, s, AsWritten)) != Ok(Packet(pkt.hdr, pkt.tok, s, pkt.payload))
  {
    var image := ImageWith(pkt, s, AsWritten);
    ParseOfImage(pkt, s, AsWritten);
    LongOptionsMisparsed(image, 4 + pkt.hdr.tkl, s, 0, MAXOPT, k);
  }

  /** The image Encode gives is the image with the options sorted. */
  lemma EncodeIsSortedImage(pkt: Packet, e: LengthEscape)
    requires pkt.hdr.tkl == 0 || pkt.hdr.tkl == |pkt.tok|
    ensures Encode(pkt, e) == ImageWith(pkt, SortedOptions(pkt.opts), e)
  {
  }

  /** coap_parse reads back the image coap_build writes for a well-formed
      packet: the same header, token and payload, and the options sorted by
      number. */
  lemma EncodeThenParse(pkt: Packet, e: LengthEscape)
    requires WellFormed(pkt, e)
    ensures ParseSpec(Encode(pkt, e)) == Ok(Packet(pkt.hdr, pkt.tok, SortedOptions(pkt.opts), pkt.payload))
  {
    SortedOptionsAscending(pkt.opts);
    SortedOptionsReadable(pkt.opts, e);
    EncodeIsSortedImage(pkt, e);
    ParseImage(pkt, SortedOptions(pkt.opts), e);
  }

  /** With coap_build's length bytes the image of a packet reads back exactly
      when no option value is 269 bytes or longer. */
  lemma AsWrittenRoundTrip(pkt: Packet)
    requires HeaderReadable(pkt) && |pkt.opts| <= MAXOPT && ValuesEncodable(pkt.opts)
    ensures ParseSpec(Encode(pkt, AsWritten)) == Ok(Packet(pkt.hdr, pkt.tok, SortedOptions(pkt.opts), pkt.payload))
            <==> ValuesReadable(pkt.opts, AsWritten)
  {
    if ValuesReadable(pkt.opts, AsWritten) {
      EncodeThenParse(pkt, AsWritten);
    } else {
      var j :| 0 <= j < |pkt.opts| && |pkt.opts[j].value| >= 269;
      var sorted := SortedOptions(pkt.opts);
      SortedOptionsCover(pkt.opts, j);
      var k :| 0 <= k < |sorted| && sorted[k] == pkt.opts[j];
      SortedOptionsAscending(pkt.opts);
      SortedOptionsEncodable(pkt.opts);
      var k0 := FirstLong(sorted, k);
      EncodeIsSortedImage(pkt, AsWritten);
      ImageMisparsed(pkt, sorted, k0);
    }
  }

  /** What Build leaves in the buffer reads back as the packet. */
  lemma BuildThenParse(buflen: nat, pkt: Packet, e: LengthEscape)
    requires WellFormed(pkt, e) && BuildSpec(buflen, pkt, e).Ok?
    ensures ParseSpec(BuildSpec(buflen, pkt, e).value)
            == Ok(Packet(pkt.hdr, pkt.tok, SortedOptions(pkt.opts), pkt.payload))
  {
    EncodeThenParse(pkt, e);
  }
}
