# microcoap codec in Dafny

A model of the CoAP message codec of microcoap (`src/coap.c`, `src/coap.h`,
`byte_order.h`), with proofs about it.

A CoAP message as RFC 7252 section 3 lays it out is:

- a four-byte header: version, type, token length, code and message id;
- a token of 0 to 8 bytes;
- options, each of which carries its option number as a delta from the option before it, with the nibble escapes of section 3.1;
- an optional payload after a `0xFF` marker.

The codec parses such a message into a `coap_packet_t` and builds one from a `coap_packet_t` into a caller's buffer. Before building, it puts the options in order with a stable insertion sort. It provides small setters that fill in a packet. It packs and unpacks the Block1/Block2 option value of RFC 7959 section 2.2.

## How the model is organised

| module (file) | what it holds |
|---|---|
| `ByteOrder` (ByteOrder.dfy) | the byte swaps, loads and stores of `byte_order.h`; `memcpy` as `CopyInto` |
| `CoapTypes` (CoapTypes.dfy) | the records and enumerations of `coap.h`: header, option, packet, error codes, message types, codes, block sizes |
| `CoapParse`, `CoapParseFacts` (CoapParse.dfy) | header and token parsing, one option, the option loop with the payload marker, and `coap_parse` |
| `CoapOrder` (CoapOrder.dfy) | `coap_order_options` over an index array, and the proof that it computes the unique stable sort |
| `CoapBuild` (CoapBuild.dfy) | the nibble encoding, the byte image of a packet, and `coap_build` writing it through a cursor |
| `CoapLookup` (CoapLookup.dfy) | `coap_findOptions` |
| `CoapRoundTrip` (CoapRoundTrip.dfy) | parsing what build writes gives the packet back, with its options sorted |
| `CoapBlockwise` (CoapBlockwise.dfy) | `coap_make_option_blockwise` and the three getters |
| `CoapPacket` (CoapPacket.dfy) | `coap_packet_t` as a class whose setters update it in place; `coap_buffer_to_string` |
| `CoapScenarios` (CoapScenarios.dfy) | the unit-test scenarios, end to end |

### Modelling choices

- **Integer widths.** Bytes and the fixed-width integers are bounded integer subtypes (`byte`, `u16`, `u32`, `u64`).
  - A shift is a multiplication or division by a power of two, cut to the width.
  - A mask with `0xFF` is `% 0x100`.
  - The parser's uint16_t accumulator and lengths are kept modulo 2^16.
  - The uint8_t option number is kept modulo 2^8.
- **Borrowed buffers.** The token, option and payload pointers of the source are copied byte sequences. The wire buffer a parse reads is an immutable sequence, and a position in it stands for a pointer.
- **Build pattern.** `coap_build`, `coap_make_option_blockwise`, `coap_buffer_to_string` and the `endian_store*` macros write into an `array<byte>`.
  - Each method is proved against a pure function of its inputs: `BuildSpec`, `BlockwiseBytes`, `BeBytes16` and so on.
  - The properties are lemmas about those functions.
- **Parse pattern.** The parser's loop is a method proved equal to the recursive function `ParseOptions`.
- **Source defects.** Where the source has a defect, both behaviours are defined: the one as written and the corrected one. They are selected by a parameter:
  - `LengthEscape` (`AsWritten` / `Intended`) for the length extension bytes;
  - `NumBound` (`AsWrittenBound` / `IntendedBound`) for the block-number range check.

### Behaviour taken from the code

- **Block-number range.** RFC 7959 section 2.2 gives NUM at most 20 bits, so 0 to 1048575. The code's range check `num > 1048576` also accepts 2^20; see Findings. The packer reports a rejected argument as a length of 0, and `coap_error_t` has no error value for it.
- **Order of build checks.** `coap_build` compares the buffer size with `4 + tkl` before it looks at the version. The other checks follow in the order of `src/coap.c:291-310`.
- **Option numbers.** RFC 7252 section 3.1 lets option numbers reach 65535 through deltas. The code stores the number in a uint8_t and the running number in a uint16_t. So a parsed number is `(running + delta) mod 256`, and the running number is `(running + delta) mod 65536`.
- **Build capacity checks.** `coap_build` compares the cursor with the buffer size once per option, and once before the payload. The value copy itself is unchecked; see Findings.

## Model

| member | source | states |
|---|---|---|
| ByteOrder.Be16 | byte_order.h:30-32 | the swapped value lies in little-endian memory as the big-endian bytes of its argument |
| ByteOrder.Be32Terms | byte_order.h:34-38 | endian_be32 moves byte k of its argument to byte 3 - k, the source's four shift-and-mask terms |
| ByteOrder.Be32Bytes | byte_order.h:34-38 | in little-endian memory endian_be32(x) lies as the big-endian bytes of x |
| ByteOrder.Be64Terms | byte_order.h:41-49 | endian_be64 moves byte k to byte 7 - k, the source's eight terms |
| ByteOrder.Be64Bytes | byte_order.h:41-49 | in little-endian memory endian_be64(x) lies as the big-endian bytes of x |
| ByteOrder.BeInvolutive | byte_order.h:30-49 | each of the three swaps undoes itself |
| ByteOrder.Load16 | byte_order.h:52-54 | the first byte is the high byte: the network-order bytes of the result are the two bytes read |
| ByteOrder.LoadTerms | byte_order.h:56-70 | endian_load32/64 shift byte k up by 8(3-k) and 8(7-k) bits |
| ByteOrder.LoadBytes | byte_order.h:56-70 | the network-order bytes of a loaded value are the bytes it was loaded from |
| ByteOrder.LoadOfBeBytes | byte_order.h:52-70 | loading the network-order bytes of a value gives the value back, for 16, 32 and 64 bits |
| ByteOrder.LoadReadsPrefix | byte_order.h:52-70 | a load reads only the 2, 4 or 8 bytes it combines |
| ByteOrder.CopyInto | src/coap.c:355 | memcpy: the destination range holds the source bytes and no other element changes |
| ByteOrder.Store16 | byte_order.h:72-73 | writes the value in network order into two bytes, changes nothing else, and load16 reads it back |
| ByteOrder.Store32 | byte_order.h:74-75 | the same for four bytes and load32 |
| ByteOrder.Store64 | byte_order.h:76-77 | the same for eight bytes and load64 |
| ByteOrder.ByteOrderExamples | test/coap_build/coap_build_header.c:134-143 | `00 01` loads as 1; 0xBEEF goes out as `BE EF` |
| CoapTypes.ErrorCode | src/coap.h:167-183 | every error has a code from 1 to 13, none is 0 (success), and distinct errors have distinct codes |
| CoapTypes.StatusCode | src/coap.h:167-183 | a status int is 0 exactly on success and otherwise names the error |
| CoapTypes.MsgTypeValue | src/coap.h:110-116 | the four message types are the values 0 to 3, each read back by MsgTypeOf |
| CoapTypes.MsgTypeOf | src/coap.h:110-116 | exactly the ints 0 to 3 name a message type |
| CoapTypes.MakeRspCode | src/coap.h:120 | MAKE_RSPCODE packs a 3-bit class above a 5-bit detail; both read back from the code |
| CoapTypes.ResponseCodesAreClassDetail | src/coap.h:129-149 | the response codes are the class.detail pairs of RFC 7252; COAP_CONTENT is 2.05 |
| CoapTypes.BlockSizeBytes | src/coap.h:238-246 | block size exponent k names a block of 16 * 2^k bytes |
| CoapParse.ParseHeader | src/coap.c:40-52 | under 4 bytes fails HEADER_TOO_SHORT; a version other than 1 fails VERSION_NOT_1; otherwise it returns the fields that byte 0 packs (`ver*64 + t*16 + tkl`), the code, and the id whose network-order bytes are bytes 2-3 |
| CoapParse.ParseToken | src/coap.c:54-76 | tkl 0 gives the empty token; 1-8 succeeds iff 4 + tkl bytes are there and gives bytes 4 .. 4 + tkl; above 8 fails; the only error is TOKEN_TOO_SHORT |
| CoapParse.ParseOption | src/coap.c:79-146 | the errors:<br>- no byte left, or too few bytes for a delta or length extension, fails OPTION_TOO_SHORT_FOR_HEADER;<br>- delta nibble 15 fails OPTION_DELTA_INVALID;<br>- length nibble 15 fails OPTION_LEN_INVALID;<br>- a value running past the buffer fails OPTION_TOO_BIG.<br>On success:<br>- the delta and length are the nibbles decoded with their 1- or 2-byte extensions (+13, +269), in 16 bits;<br>- the value is the `len` bytes after the header and extensions;<br>- the cursor moves past them;<br>- the running number becomes `(running + delta) mod 2^16`, and the option number is its low byte |
| CoapParse.ParseOptions | src/coap.c:160-166 | the loop reads at most its budget of options and stops only at the budget, the end of the buffer or a 0xFF byte; an empty result leaves the cursor where it was; errors are the option errors |
| CoapParse.PayloadAt | src/coap.c:168-177 | the payload is non-empty iff the stop byte is 0xFF with at least one byte after it, and then is everything after the marker |
| CoapParse.OptionsAndPayload | src/coap.c:149-180 | a token running past the buffer fails OPTION_OVERRUNS_PACKET; at most the capacity of options is returned |
| CoapParse.ParseOptionLoop | src/coap.c:160-166 | the while loop with its cursor, running delta and option count computes ParseOptions from the first option |
| CoapParse.NextOption | src/coap.c:162-163 | the loop's call of coap_parseOption: an error is the error of the rest of the loop; a parsed option moves the cursor forward and is the first of the options the rest of the loop reads |
| CoapParse.ParseOptionsAndPayload | src/coap.c:149-180 | the method computes OptionsAndPayload |
| CoapParse.Parse | src/coap.c:207-219 | coap_parse: header, token, then up to MAXOPT options and the payload, stopping at the first error |
| CoapParseFacts.PayloadIsTail | src/coap.c:168-177 | a parsed payload is shorter than the buffer, follows a 0xFF byte and runs to the end of the buffer |
| CoapParseFacts.ParsedPacketShape | src/coap.c:207-219 | a successful parse had at least 4 bytes and gives version 1, a token of tkl <= 8 bytes, at most MAXOPT options and a tail payload after a marker |
| CoapParseFacts.ParseNeverOverruns | src/coap.c:153-157 | coap_parse never reports OPTION_OVERRUNS_PACKET, because the token check already refuses that case |
| CoapParseFacts.ParseHeaderErrors | src/coap.c:40-76 | short buffer, wrong version and token length above 8 give HEADER_TOO_SHORT, VERSION_NOT_1 and TOKEN_TOO_SHORT |
| CoapParseFacts.ParseResponseExample | test/coap_parse/coap_parse_complete.c:17-64 | `62 45 00 01 55 9D C0 FF 77 6F 72 6C 64` parses to an ACK 2.05 with id 1, token `55 9D`, one empty Content-Format option and payload "world" |
| CoapParseFacts.TrailingMarkerExample | src/coap.c:168-177 | a 0xFF as the last byte ends the options and gives no payload and no error |
| CoapOrder.InsertPermutes | src/coap.c:518-525 | one outer pass adds its index and keeps the multiset of the others |
| CoapOrder.InsertKeeps | src/coap.c:518-525 | one outer pass holds exactly the old entries and the new index |
| CoapOrder.InsertionOrderCovers | src/coap.c:509-526 | every index below n occurs in the order |
| CoapOrder.InsertionOrderSorted | src/coap.c:514-526 | the order is strictly sorted by (number, index): numbers ascend and equal numbers keep array order |
| CoapOrder.OrderIsStableSort | src/coap.c:498-527 | the order is a permutation of 0..n-1 along which option numbers never decrease, and options with equal numbers stay in insertion order |
| CoapOrder.SortedInputKeepsOrder | src/coap.c:509-526 | options already ascending keep the identity order |
| CoapOrder.SortedOrderIsUnique | src/coap.c:498-527 | two orders strictly sorted by (number, index) over the same indices are equal |
| CoapOrder.InsertionOrderIsTheStableSort | src/coap.c:498-527 | any order of 0..n-1 sorted by (number, index) is the one coap_order_options computes |
| CoapOrder.OrderOptions | src/coap.c:498-527 | the index array's first n entries become the insertion order, including the n = 1 shortcut, and the rest of the array is unchanged |
| CoapOrder.InsertIndex | src/coap.c:514-526 | one pass of the outer loop turns the sorted prefix into the prefix with index i inserted |
| CoapOrder.ShiftLarger | src/coap.c:521-524 | the inner loop moves every entry whose number is above the key up one place and stops below the gap, at the first entry not above the key |
| CoapOrder.SpliceIsInsert | src/coap.c:521-525 | the array left by the inner loop and the final store is the inserted order |
| CoapOrder.ReversedOptionsExample | test/coap_build/coap_order_options.c:63-71 | options numbered 3, 2, 1 are ordered 2, 1, 0 |
| CoapOrder.EqualOptionsExample | test/coap_build/coap_order_options.c:34-41 | two options with the same number keep their order |
| CoapOrder.TenOptionsExample | test/coap_build/coap_order_options.c:83-97 | the ten options numbered 3, 1, 8, 15, 8, 2, 9, 1, 19, 4 are ordered 1, 7, 5, 0, 9, 2, 4, 6, 3, 8 |
| CoapBuild.OptionNibble | src/coap.c:451-465 | a value up to 65804 gets a nibble below 15; a larger value leaves the nibble as it was |
| CoapBuild.ExtensionBytes | src/coap.c:334-343 | the extension bytes after the nibble have the nibble's length, and reading them back with the nibble gives the value (mod 2^16) |
| CoapBuild.LengthBytes | src/coap.c:344-353 | coap_build's length bytes have the right count, and agree with the intended ones below 269 |
| CoapBuild.LengthEscapeExample | src/coap.c:351-352 | a 269-byte value goes out as length bytes `01 00`, which read back as 525 |
| CoapBuild.LengthEscapeMisread | src/coap.c:351-352 | no length from 269 to 65804 reads back from coap_build's length bytes |
| CoapBuild.EncodeOptionsSplit | src/coap.c:322-358 | encoding a run of options is encoding a prefix, then the rest after the prefix's last number |
| CoapBuild.BuildSpec | src/coap.c:283-373 | the checks in order: buffer below 4 + tkl, version, tkl > 8, token length mismatch; exactly those errors occur; success means version 1, tkl <= 8, a matching token and an image that fits |
| CoapBuild.BuildAsWritten | src/coap.c:322-371 | the source's own capacity checks; its check failures are those of BuildSpec |
| CoapBuild.BuildAsWrittenAgrees | src/coap.c:327-328 | with a payload, or when the image fits, the as-written checks decide like BuildSpec |
| CoapBuild.BuildOverrunExample | src/coap.c:327-328 | without a payload, a 5-byte buffer is reported as holding a 9-byte image |
| CoapBuild.SingleOptionImage | src/coap.c:319-358 | one option without token and payload goes out as the header and that option |
| CoapBuild.OptionHead | src/coap.c:330-353 | the loop body's header byte and extension bytes, branch by branch, are the option prefix |
| CoapBuild.WriteOption | src/coap.c:322-358 | one option is written at the cursor iff it fits; the cursor advances by its length and the buffer outside [p, buflen) is unchanged |
| CoapBuild.WriteHeader | src/coap.c:297-301 | the four header bytes are written and nothing after them |
| CoapBuild.OptionOrder | src/coap.c:319-320 | the index array order_options fills for the packet is its insertion order |
| CoapBuild.WriteOptions | src/coap.c:322-358 | the options in the given order, each after the previous, are written iff they fit; the cursor ends after them |
| CoapBuild.WritePayload | src/coap.c:362-369 | the marker and payload are written iff they fit |
| CoapBuild.WriteBody | src/coap.c:318-371 | the sorted options, then the marker and payload only for a non-empty payload |
| CoapBuild.Build | src/coap.c:283-373 | coap_build's result and buffer are those of BuildSpec: the same error, or the image and its length; nothing at or past buflen changes |
| CoapLookup.FindOptions | src/coap.c:222-243 | no option iff none has the number (count 0); otherwise the first such option and the length of the unbroken run of equal numbers that starts there |
| CoapLookup.SortedRunHoldsAll | src/coap.c:221-224 | on options sorted by number, that run holds every option with the number |
| CoapLookup.UnsortedRunExample | src/coap.c:236-240 | on unsorted options the scan stops at the first mismatch, so only the first of two equal options is counted |
| CoapRoundTrip.SortedOptionsAscending | src/coap.c:498-527 | the sorted options have ascending numbers starting from running delta 0 |
| CoapRoundTrip.ParseEncodedOption | src/coap.c:79-146 | coap_parseOption reads back an option coap_build wrote after a smaller number: the same option, the cursor after it, its number as the running number |
| CoapRoundTrip.ParseRun | src/coap.c:160-166 | the option loop over options that read back one by one returns them all and stops at the end or the marker |
| CoapRoundTrip.ParseEncodedOptions | src/coap.c:149-180 | the option loop reads back a run of ascending encoded options that ends at the end or at a marker |
| CoapRoundTrip.LongOptionMisread | src/coap.c:351-352 | an option of 269 bytes or more, written with coap_build's length bytes, fails or reads back as another option |
| CoapRoundTrip.LongOptionsMisparsed | src/coap.c:322-358 | the option loop does not read back a run whose first long option went out with those length bytes |
| CoapRoundTrip.ParseHeaderOfImage | src/coap.c:297-301 | the four header bytes build writes parse back as the header |
| CoapRoundTrip.ParseImage | src/coap.c:207-219 | a packet image with ascending readable options parses back as that packet |
| CoapRoundTrip.ImageMisparsed | src/coap.c:351-352 | an image with an option of 269 bytes or more, written with coap_build's length bytes, does not parse back |
| CoapRoundTrip.EncodeThenParse | src/coap.c:207-373 | for version 1, a token of tkl <= 8 bytes, at most MAXOPT options and readable values, parsing the image gives the header, token and payload back with the options in stable-sorted order |
| CoapRoundTrip.AsWrittenRoundTrip | src/coap.c:344-353 | with coap_build's length bytes the round trip holds exactly when no option value is 269 bytes or longer |
| CoapRoundTrip.BuildThenParse | src/coap.c:283-373 | what a successful build writes parses back as the packet with sorted options |
| CoapBlockwise.UintValueShort | src/coap.c:413-447 | the value of one, two and three option bytes, most significant first |
| CoapBlockwise.NumFields | src/coap.c:432-446 | NUM below 2^20 is its three shifted, masked fields put back together |
| CoapBlockwise.BlockwiseLayout | src/coap.c:405-449 | the argument check:<br>- the packer rejects exactly an szx outside 0..6 or a num above the bound.<br>Otherwise:<br>- it writes 1, 2 or 3 bytes for num below 16, below 4096, and above;<br>- the written value is NUM (mod 2^20), then M, then SZX |
| CoapBlockwise.MakeOptionBlockwise | src/coap.c:405-449 | the returned length and the bytes written are those of BlockwiseBytes; the rest of the buffer is unchanged |
| CoapBlockwise.GetSzx | src/coap.c:245-248 | the low three bits of the option's value |
| CoapBlockwise.GetM | src/coap.c:268-272 | bit 3 of the option's value |
| CoapBlockwise.BitAndApart | src/coap.c:259-263 | a multiple of 2^k and a number below 2^k share no set bit |
| CoapBlockwise.GetNumAsWritten | src/coap.c:250-266 | for a one-byte value, NUM is the value without its low four bits |
| CoapBlockwise.GetNumAsWrittenDropsNum | src/coap.c:257-264 | the source's `&` of the shifted bytes is 0 for every value of two or more bytes |
| CoapBlockwise.BlockNum | src/coap.c:250-266 | the intended getter: the value of the first three bytes at most, without its low four bits, below 2^20 |
| CoapBlockwise.BlockwiseRoundTrip | src/coap.c:245-272 | every accepted (szx, m, num) with num below 2^20 reads back through GetSzx, GetM and BlockNum |
| CoapBlockwise.AsWrittenNumRoundTrip | src/coap.c:250-266 | the source's getter reads back num exactly when num < 16 |
| CoapBlockwise.BoundaryNumAccepted | src/coap.c:407 | the source's bound accepts 2^20 and writes `00 00` plus the flags, whose NUM is 0; the 20-bit bound rejects it |
| CoapBlockwise.BlockwiseExamples | test/coap_make_option/coap_make_option_blockwise.c:7-86 | the expected bytes `00`, `04`, `0C`, `6C`, `53 9C` and `F1 20 6C` |
| CoapBlockwise.GetterExamples | test/coap_parse/coap_get_blockwise_option_information.c:26-45 | block 6 of 16 bytes with M reads back with every getter; `53 9C` reads as 0 with the source's getter and as 1337 with the intended one |
| CoapPacket.PacketRecord.constructor | src/coap.h:75-83 | the zero-initialised packet with an option array of MAXOPT entries |
| CoapPacket.PacketRecord.HeaderInit | src/coap.c:375-387 | succeeds exactly for types 0..3 and then sets version 1, type, code and id, keeping tkl; on failure nothing changes |
| CoapPacket.PacketRecord.AddToken | src/coap.c:389-394 | tkl becomes the token length mod 256 and the token is stored; nothing else changes |
| CoapPacket.PacketRecord.AddOption | src/coap.c:397-403 | the packet's options gain the new option at the end; the other entries are unchanged |
| CoapPacket.PacketRecord.MakeResponse | src/coap.c:467-496 | an ACK with the code, id and token. The cases:<br>- no content type: no option, `opts[0]` untouched, and the payload set;<br>- a scratch buffer under 2 bytes: BUFFER_TOO_SMALL after one Content-Format option was counted, with the payload untouched;<br>- otherwise: one Content-Format option holding the two network-order bytes of the content type, written to scratch |
| CoapPacket.BufferToString | src/coap.c:274-281 | succeeds iff the bytes and a terminating 0 fit; then the buffer begins with them; on failure it is unchanged |
| CoapScenarios.AlreadySorted | src/coap.c:509-526 | options already ascending are encoded in array order |
| CoapScenarios.BareImage | src/coap.c:283-373 | a packet without options and payload is its header and token |
| CoapScenarios.BuildOfImage | src/coap.c:283-373 | build succeeds with the image when the checks pass and the image fits |
| CoapScenarios.BareHeaderExample | test/coap_build/coap_build_header.c:22-29 | a bare CON header nets a 4-byte image |
| CoapScenarios.HeaderErrorExamples | test/coap_build/coap_build_header.c:31-70 | the first build succeeds with a 4-byte image; versions 2 and 10 with the 4-byte buflen it leaves give VERSION_NOT_1; tkl 1 without a token and a 9-byte token give TOKEN_LENGTH_MISMATCH and TOKEN_TOO_LONG |
| CoapScenarios.ShortTokenExamples | test/coap_build/coap_build_header.c:72-111 | a 1-, 2- or 3-byte token makes a 5-, 6- or 7-byte image whose bytes from index 4 are the token |
| CoapScenarios.TokenExample | test/coap_build/coap_build_header.c:114-132 | an 8-byte token follows the header byte for byte |
| CoapScenarios.MessageIdExample | test/coap_build/coap_build_header.c:134-143 | message id 0xBEEF is written as `BE EF` |
| CoapScenarios.BlockRequestPieces | test/coap_parse/coap_get_blockwise_option_information.c:26-33 | the request header is `40 01 00 05` and its Block2 option `D1 0A 68` |
| CoapScenarios.BlockRequestBuild | test/coap_parse/coap_get_blockwise_option_information.c:26-33 | the request goes out as `40 01 00 05 D1 0A 68` |
| CoapScenarios.BlockRequestImage | test/coap_parse/coap_get_blockwise_option_information.c:26-38 | that image parses back as the request |
| CoapScenarios.BlockRequestScenario | test/coap_parse/coap_get_blockwise_option_information.c:26-45 | record, header_init, make_option_blockwise, add_option, build, parse, findOptions and the getters give SZX 16, M set and NUM 6 |
| CoapScenarios.QueryRequestPieces | test/coap_parse/coap_get_blockwise_option_information.c:49-58 | Uri-Path "path", Uri-Query "query=123455" and Block2 after them encode as `B4 70 61 74 68`, `4C` plus the 12 query bytes, and `81 68` |
| CoapScenarios.QueryOptionsSorted | src/coap.c:509-526 | those three options are already ascending and keep their order |
| CoapScenarios.QueryOptionsEncode | src/coap.c:322-358 | the three options encode one after the other, each delta taken from the previous number |
| CoapScenarios.QueryValuesShort | src/coap.c:330-331 | the three values are short enough for one nibble each and for the parser |
| CoapScenarios.QueryRequestEncode | test/coap_parse/coap_get_blockwise_option_information.c:49-59 | the request's image is `40 01 00 05` followed by those option bytes |
| CoapScenarios.QueryRequestBuild | test/coap_parse/coap_get_blockwise_option_information.c:59-60 | coap_build with a 256-byte buffer succeeds with that image |
| CoapScenarios.QueryRequestImage | test/coap_parse/coap_get_blockwise_option_information.c:59-63 | that image parses back as the request, options in the same order |
| CoapScenarios.QueryRequestRecord | test/coap_parse/coap_get_blockwise_option_information.c:10-13 | header_init, then Uri-Path, Uri-Query and Block2 added with add_option, give the three-option request |
| CoapScenarios.QueryBlockFirst | test/coap_parse/coap_get_blockwise_option_information.c:65 | in that request the run of Block2 options is the single option at index 2 |
| CoapScenarios.QueryRequestScenario | test/coap_parse/coap_get_blockwise_option_information.c:47-72 | build, parse, findOptions and the getters give Block2 at index 2, SZX 16, M set and NUM 6 |
| CoapScenarios.ResponsePieces | src/coap.c:467-496 | the response header is `60 45 00 01` and its Content-Format option `C2 00 00` |
| CoapScenarios.ResponseBuild | src/coap.c:467-496 | the 2.05 acknowledgement with body "hi" goes out as `60 45 00 01 C2 00 00 FF 68 69` |
| CoapScenarios.ResponseImage | src/coap.c:467-496 | that image parses back as the acknowledgement |
| CoapScenarios.ResponseScenario | src/coap.c:467-496 | make_response, build and parse give that image and the same packet back |

## Left out

- The DEBUG dump routines (`coap_dumpHeader`, `coap_dump`, `coap_dumpOptions`, `coap_dumpPacket`). They only print to stdout.
- Request routing (`coap_endpoint_t`, `coap_handle_req`). It is only declared in `coap.h` and is application dispatch.
- The borrowed pointers for the token, option values and payload are copied sequences. Aliasing between these buffers and the caller's memory, and pointer lifetime, are not modelled.
- `ByteOrder.Store16`: it models `memcpy` on a little-endian host, where the swap leaves the value in network order. A big-endian host is not modelled; `Store32` and `Store64` are the same.
- `CoapParse.Parse`: on an error it returns only the error. The packet fields that `coap_parse` filled in before failing are not modelled.
- `CoapBuild.Build`: it checks the room for every option and for the payload before writing any of them. The source checks only before each option, with `>`, and its `memcpy` of the value is unchecked, so it can report success after writing past `buflen`. `BuildAsWritten` models the source's checks; see Findings.
- `CoapBuild.Build`: it requires at most MAXOPT options and values of at most 65804 bytes.
  - With more options, the source overruns its 16-entry index array.
  - With a longer value, it writes an uninitialised length nibble.
  - Neither case has a defined result.
- `CoapBuild.Build`: on error it states only that nothing at or past `buflen` changes. What the source leaves in the buffer below that point is unspecified.
- `CoapOrder.OrderOptions`: it requires at most 129 options. The source's `int8_t` counter `j` starts at `i - 1`, which fits only while `i <= 128`. Build never passes more than 16.
- `CoapLookup.FindOptions`: it requires fewer than 256 options, since `numopts` is a `uint8_t`; so the 8-bit count cannot wrap.
- `CoapPacket.PacketRecord.AddOption`: it requires `numopts < MAXOPT`. The source does not check this and writes past the option array.
- `CoapPacket.PacketRecord.MakeResponse`: when scratch is under 2 bytes, the source points `opts[0]` at the scratch buffer with the stale length. The model keeps the option's old value bytes.
- `CoapBlockwise.GetSzx`: it requires a non-empty value. For an empty one the source reads `p[len - 1]`, one byte before the value (src/coap.c:246).
- `CoapBlockwise.GetM`: it requires a non-empty value, for the same read before the value (src/coap.c:270).
- `CoapBlockwise.GetNumAsWritten`: it requires a non-empty value. For an empty one the source takes the last branch and reads `p[0]`, `p[1]` and `p[2]` past the end of the value (src/coap.c:261-263).
- `CoapBlockwise.BlockNum` has no counterpart in the source: it is the corrected getter, and it keeps the domain of `GetNumAsWritten`.
- `CoapRoundTrip.EncodeThenParse`: with the intended length bytes, it holds only for values shorter than 65536 bytes. Longer values up to 65804 bytes wrap in the parser's `uint16_t` length.
- The Unity harness of the unit tests is not modelled: `setUp`/`tearDown` and the `RUN_TEST` registration in each `main`. The tests that have a member are the ones named in the "## Model" rows citing test/ files; the model covers no other test. `ShortTokenExamples` also states `three_byte_token_set_correct`, which the file defines but does not register with `RUN_TEST`.
  - The ten-option ordering test is not registered in its `main`.
  - Its expectations contradict each other: it wants index 0 at position 5 and also wants 2 or 4 there. `TenOptionsExample` states the order the sort actually computes.
  - The blockwise packer test registers only two of its cases; the rest are valid expected values and appear in `BlockwiseExamples`.

## Findings

| source | as written | input that shows it | evidently intended | confidence | as-written member | corrected member |
|---|---|---|---|---|---|---|
| src/coap.c:351-352 | for a length nibble of 14, the high extension byte is `len >> 8` | a 269-byte option value goes out as length bytes `01 00`, which read back as 525 | the high byte of `len - 269`, as the delta escape at line 341 writes it | high (not executed) | CoapRoundTrip.AsWrittenRoundTrip | CoapRoundTrip.EncodeThenParse |
| src/coap.c:327-328 | the cursor is compared with `buflen` once per option, with `>`, and the value `memcpy` is unchecked | a packet without payload and with one 4-byte Uri-Path option, in a 5-byte buffer: success with a 9-byte image | fail with BUFFER_TOO_SMALL when the image does not fit | high (not executed) | CoapBuild.BuildOverrunExample | CoapBuild.Build |
| src/coap.c:259, 263 | the shifted bytes are combined with `&`, using the shifts 8 and 16 | the value `53 9C` (block 1337) gives NUM 0 | `(p0 << 4) \| (p1 >> 4)` and `(p0 << 12) \| (p1 << 4) \| (p2 >> 4)` | high (not executed) | CoapBlockwise.GetNumAsWrittenDropsNum | CoapBlockwise.BlockwiseRoundTrip |
| src/coap.c:407 | `num > 1048576` rejects numbers above 2^20 only | num = 1048576 is accepted and written as `00 00` plus the flags, which reads back as NUM 0 | `num > 1048575`, the 20 bits of RFC 7959 section 2.2 | high (not executed) | CoapBlockwise.BoundaryNumAccepted | CoapBlockwise.BlockwiseRoundTrip |
