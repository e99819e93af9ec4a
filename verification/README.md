# Verification model of ipchub

ipchub is a streaming media server written in Go, with a JavaScript player. This
project models the parts of it that compute something, and proves what they are
meant to compute.

- **Multi-precision integers** of the player (`JsNumber`, `Modular`, `PowersOfTwo`,
  `Positional`, `BigInteger`, `ModularPower`): digit arrays in base 2^28 with a
  two's-complement sign digit, updated in place, on JavaScript's 32-bit and 53-bit
  arithmetic. Add, subtract, compare, shift, multiply, square, Montgomery reduction
  and modular power agree with integer arithmetic.
- **Bitstream decoding** (`BitStrings`, `BitReader`, `ExpGolomb`, `Emulation`,
  `SpsSyntax`, `SpsDecoder`, `SpsPrinter`, `SpsRoundTrip`, `SpsProfiles`,
  `SpsExamples`): the bit reader, Exp-Golomb codes, emulation prevention and the H.264
  sequence parameter set. The syntax tables of ITU-T H.264 are written as a printer,
  and the decoder inverts it.
- **Live fan-out** (`H264Cache`, `Fanout`, `FanoutStream`): one stream feeds a cache
  and many consumers, each with a queue that starts and stops dropping only at a
  keyframe. Writing, joining, reading, leaving and closing are steps of a machine.
- **RTP and MP4** of the player (`ByteStrings`, `RtpPayload`, `NaluAssembler`, `Mp4`,
  `Mp4Reader`, `Remuxer`, `RemuxLaws`): reassembly of H.264 units and fragmented MP4,
  read back by a reader of its own.
- **Control protocols** (`Text`, `TextLaws`, `Scanner`, `Wsp`, `WspPlayer`, `WspRoundTrip`,
  `WspLaws`, `RtspTransport`, `TransportLaws`, `RtspSession`): both sides of the WSP
  text protocol and the state machine of an RTSP server session.
- **Route table** (`CanonicalPath`, `PathLaws`, `RouteTable`): lookup by longest prefix and
  the journal of changes since the last flush.

## How the model is built

A Go struct or JavaScript object whose methods change it is a class with the same
fields; a loop in the source is a loop here. Each such method is proved against a
function on its inputs and old state, and the lemmas are about that function. Ghost
fields record history (all packets written, all answers given), so that a class
invariant is a statement about every run.

A Go panic and a JavaScript exception are the result `Panic`. Outcomes that the
outside decides are parameters: the user's permissions, the result of the URL and
session description parsers, whether a write succeeds, whether a consumer panics,
whether a provider takes a flush, and the order in which a map is walked.

## Where the code differs from what is expected of it

Each of these is a statement in the model, with the exact condition where the
expected property holds.

- `ReadSe` (utils/bits/reader.go:67-75) computes from its unset result and always
  returns 0; it agrees with ITU-T H.264 iff the value is 0.
- The decoder reads chroma fields for eight of the thirteen profiles that
  section 7.3.2.1.1 of ITU-T H.264 lists; sets of profiles 128, 138, 139, 134 and 135
  are misread, and all others are read right.
- A scaling list is read to its full length, although the standard ends it at the
  first code that makes its next entry 0.
- Decoding a parameter set into a structure that was used before keeps fields that
  are not coded, for example an old crop.
- `Width` and `Height` count the crop in units of 2, which is right for 4:2:0 frames
  only: in 4:4:4 and monochrome the true unit is 1, in 4:2:2 it is 1 vertically, and it
  doubles vertically when fields may be coded. Both wrap at 16 bits.
- An IDR picture in one aggregation packet with a parameter set is no keyframe, and the
  order number of a STAP-B packet is taken for a size (media/cache/h264cache.go:116-152).
  For a number that ends inside a unit, the condition is on the scan from there on.
- A consumer that joins after the stream closed is never closed by it.
- The suffix test of SETUP (service/rtsp/session.go:329-332) accepts any control path
  one character longer than the address; `mode="RECORD"` is taken for play; a PLAY
  whose transport cannot be served is refused and yet leaves the session playing,
  without a consumer; a second PLAY is not answered.
- `CanonicalPath` is not idempotent: white space in front of a last "." survives it.
- A route with an empty address, which can be saved, makes a prefix match panic.
- The player cuts header values at a second colon and cannot store a field named
  `__proto__`; the reassembler does not notice lost fragments; after a skipped last
  sample, which takes two or more samples ahead of the expected time, the next fragment
  is expected too early.

## Model

| member | source | states |
|---|---|---|
| BigIntegers.BigInteger.Am3 | demos/wsp/free.player.3.3.js:5550-5561 | the inner multiply-accumulate adds x times a block of digits to another block, exactly, and hands on a carry below three digits, or below one when x is a single digit |
| BigIntegers.Am3Ranges | demos/wsp/free.player.3.3.js:5550-5561 | for all digits, and for x up to the doubled digit that squaring passes, every intermediate of one `am3` turn is below 2^31, so that neither the masks nor the signed shifts lose a bit |
| BigIntegers.BigInteger.CopyTo | demos/wsp/free.player.3.3.js:5602-5606 | the copy has the same value, length and sign |
| BigIntegers.BigInteger.Clamp | demos/wsp/free.player.3.3.js:5660-5663 | the value is kept and no superfluous top digit is left |
| BigIntegers.CanonicalForm | demos/wsp/free.player.3.3.js:5660-5663 | two clamped numbers with the same value have the same sign, length and digits |
| BigIntegers.BigInteger.Negate | demos/wsp/free.player.3.3.js:5696 | a fresh number with the opposite value |
| BigIntegers.BigInteger.Abs | demos/wsp/free.player.3.3.js:5699 | the absolute value; the object itself when it is not negative |
| BigIntegers.BigInteger.CompareTo | demos/wsp/free.player.3.3.js:5702-5710 | the sign of the result is that of the difference, for all signs and lengths of clamped numbers |
| BigIntegers.BigInteger.DLShiftTo | demos/wsp/free.player.3.3.js:5730-5736 | multiplication by a power of the digit base, also in place |
| BigIntegers.BigInteger.DRShiftTo | demos/wsp/free.player.3.3.js:5739-5743 | division by a power of the digit base rounding down, negative numbers and shifts past the top included, also in place |
| BigIntegers.BigInteger.SubTo | demos/wsp/free.player.3.3.js:5781-5811 | the exact integer difference for every combination of signs and lengths, clamped, also when the result is an operand |
| BigIntegers.BigInteger.AddTo | demos/wsp/free.player.3.3.js:6303-6333 | the exact integer sum for every combination of signs and lengths, clamped, also when the result is an operand |
| BigIntegers.TopDigit | demos/wsp/free.player.3.3.js:5806-5808 | the last carry of an addition or subtraction, whatever it is, becomes a sign and at most one more digit without changing the number |
| BigIntegers.BigInteger.MultiplyTo | demos/wsp/free.player.3.3.js:5815-5824 | the exact signed product, clamped |
| BigIntegers.RowsProduct | demos/wsp/free.player.3.3.js:5815-5824 | the rows that schoolbook multiplication adds up make the product |
| BigIntegers.BigInteger.SquareRow | demos/wsp/free.player.3.3.js:5827-5841 | one turn of the half-work squaring: the diagonal product and the doubled rest of the row, with at most one carry more than a digit holds |
| BigIntegers.SquareCarry | demos/wsp/free.player.3.3.js:5833-5836 | the digit that receives a row's carry stays below two digits, so that the single correction by DV is enough |
| BigIntegers.SquaresProduct | demos/wsp/free.player.3.3.js:5827-5841 | the diagonal and the doubled off-diagonal terms of the rows done so far are a(2v - a), for a the part of v they cover |
| BigIntegers.SquareOfVal | demos/wsp/free.player.3.3.js:5827-5841 | all rows together are the square |
| BigIntegers.BigInteger.SquareTo | demos/wsp/free.player.3.3.js:5827-5841 | the exact square, clamped: the value that multiplication yields for x times x |
| ModularPower.DivRemTo | demos/wsp/free.player.3.3.js:5845-5890 | the remainder with the sign of the dividend, also in place (by plain long division) |
| ModularPower.Mod | demos/wsp/free.player.3.3.js:5893-5898 | the remainder in 0..m-1 for operands of either sign |
| ModularPower.InvDigit | demos/wsp/free.player.3.3.js:5931-5944 | for an odd lowest digit x the result r has x*r = -1 modulo the digit base; otherwise 0 |
| ModularPower.NewtonStep | demos/wsp/free.player.3.3.js:5922-5930 | a step y(2 - xy) doubles the number of correct low bits |
| ModularPower.NewtonLast | demos/wsp/free.player.3.3.js:5939-5941 | the last step, on JavaScript's truncating remainder and numbers up to 2^53, yields the inverse modulo the digit base |
| ModularPower.NewMontgomery | demos/wsp/free.player.3.3.js:5947-5956 | the prepared halves of -1/m are those the reduction needs, when m is odd |
| ModularPower.U0Correct | demos/wsp/free.player.3.3.js:5980-5982 | the 15-bit-split product is digit * mp modulo the digit base, in exact JavaScript arithmetic |
| ModularPower.DigitCleared | demos/wsp/free.player.3.3.js:5979-5985 | adding u0 times the modulus clears the lowest digit that is left |
| ModularPower.Propagate | demos/wsp/free.player.3.3.js:5986-5987 | the carry moves up without changing the number and stays inside the padded digits |
| ModularPower.RoomForCarry | demos/wsp/free.player.3.3.js:5976-5987 | what has been added in stays below what the padded digits can hold |
| ModularPower.MontTurn | demos/wsp/free.player.3.3.js:5979-5988 | one turn keeps the number congruent modulo m, clears one more low digit and bounds what was added |
| ModularPower.ExactQuotient | demos/wsp/free.player.3.3.js:5989-5991 | dropping the cleared digits is an exact division by R, with a result below 2m |
| ModularPower.MontReduce | demos/wsp/free.player.3.3.js:5976-5992 | for odd m and 0 <= x < mR, in place: the result v is in 0..m-1 and v*R is congruent to x modulo m |
| ModularPower.CConvert | demos/wsp/free.player.3.3.js:5906-5909 | the residue modulo m, the operand itself if it is one already |
| ModularPower.MontConvert | demos/wsp/free.player.3.3.js:5959-5965 | x*R modulo m, in 0..m-1, negative x included |
| ModularPower.Reduce | demos/wsp/free.player.3.3.js:5976-5992 | either reducer turns the product of two forms into the form of a residue |
| ModularPower.SqrTo | demos/wsp/free.player.3.3.js:5995 | the form of the square, for either reducer |
| ModularPower.MulTo | demos/wsp/free.player.3.3.js:5998 | the form of the product, for either reducer |
| ModularPower.Revert | demos/wsp/free.player.3.3.js:5968-5973 | the residue that a form stands for |
| ModularPower.NBits | demos/wsp/free.player.3.3.js:5713-5721 | the number of bits of any number from 1 to 2^32-1 |
| ModularPower.ExpLoop | demos/wsp/free.player.3.3.js:6014-6018 | squaring and multiplying from the top bit down computes the form of the power |
| ModularPower.TopStep | demos/wsp/free.player.3.3.js:6014-6017 | one more bit of the exponent squares the power and multiplies by the base if it is set |
| ModularPower.Exp | demos/wsp/free.player.3.3.js:6010-6020 | base^e mod m for 1 <= e < 2^32, the same for the classic and the Montgomery reducer, any sign of the base; 1 for every other e |
| ModularPower.IsEven | demos/wsp/free.player.3.3.js:6007 | parity of the number |
| ModularPower.ModPowInt | demos/wsp/free.player.3.3.js:6023-6027 | base^e mod m for every integer base, every m > 0 and 0 <= e < 2^32, whichever reducer is chosen; the one exception is e = 0 with m = 1, where the result is 1 |
| BitReader.Reader.ReadUint64 | utils/bits/reader.go:146-169 | n bits at any offset, read byte by byte, are what reading bit by bit gives, with the same position and the same index panic; n <= 0 or too large reads nothing |
| BitReader.UAtNum | utils/bits/reader.go:146-169 | reading bit by bit yields the number those bits spell, and runs out exactly behind the last bit |
| BitReader.TakeChunk | utils/bits/reader.go:157-168 | or-ing in the chunk of one byte extends the number by those bits |
| BitReader.Reader.ReadBit | utils/bits/reader.go:43-49 | the bit at the position, one further on, or the index panic at the end |
| BitReader.Reader.Skip | utils/bits/reader.go:23-29 | moves on like reading that many bits, and panics exactly when reading them would |
| BitReader.Reader.Peek | utils/bits/reader.go:32-35 | what reading would give, and the reader stays where it is |
| BitReader.Reader.BitsLeft | utils/bits/reader.go:130-132 | exactly that many bits can still be read |
| BitReader.Reader.SkipZeros | utils/bits/reader.go:53-59 | zero bits are counted up to the first one bit, but at most 32 |
| BitReader.Reader.ReadUe | utils/bits/reader.go:52-64 | one Exp-Golomb code, in 32-bit arithmetic, or the index panic |
| BitReader.Reader.ReadSe | utils/bits/reader.go:67-75 | consumes the bits of one code and returns 0 whatever it was |
| ExpGolomb.UAtSplit | utils/bits/reader.go:146-169 | reading a + b bits is reading a bits and then b bits, the first in front |
| ExpGolomb.UHas | utils/bits/reader.go:146-169 | an n-bit field of section 7.2 of ITU-T H.264 is read back as its value |
| ExpGolomb.UeHas | utils/bits/reader.go:52-64 | the code of every k < 2^32, as section 9.1 of ITU-T H.264 prints it, is read back as k and exactly its bits are consumed |
| ExpGolomb.UeWraps | utils/bits/reader.go:52-64 | a code of up to 32 leading zeros whose k does not fit 32 bits is read as k modulo 2^32 |
| ExpGolomb.UeListRoundTrip | utils/bits/reader.go:52-64 | codes printed back to back are read back as that list, and exactly their bits are consumed |
| ExpGolomb.SignedReadAgrees | utils/bits/reader.go:67-75 | a signed code is read as its value of section 9.1.1 of ITU-T H.264 iff that value is 0 |
| BitStrings.BitsOfPack | utils/bits/reader.go:10-20 | bits packed into bytes, first bit highest, are the bits the reader sees |
| BitStrings.GolombForm | utils/bits/reader.go:52-64 | the recursive code of k is as many zeros as k has bits behind its first, then k |
| Emulation.RemoveEmulationBytes | utils/h264or5.go:11-40 | the two-index loop gives what replacing 0 0 3 by 0 0 from left to right gives, on every input, behind an optional start code |
| Emulation.UnescapeAfter | utils/h264or5.go:11-40 | replacing undoes the escaping of section 7.3.1 of ITU-T H.264 in every state of it, that is after none, one or two zero bytes, up to the 3 that ends data with a zero byte behind it |
| Emulation.EscapeRoundTrip | utils/h264or5.go:11-51 | every byte string comes back from its escaped form, with a 3-byte, a 4-byte or no start code in front; a 3 stays behind it iff it ends in an odd number of zero bytes, which the data of a NAL unit never does |
| SpsDecoder.RawSPS.DecodeUnitHeader | av/codec/h264/sps.go:446-457 | the three fields of the unit header, and nothing else, are set |
| SpsDecoder.RawSPS.DecodeProfile | av/codec/h264/sps.go:284-297 | the profile, constraint and level fields and the identifier |
| SpsDecoder.RawSPS.ScanList | av/codec/h264/sps.go:423-444 | a scaling list of the right size is read, and every entry becomes 0 |
| SpsDecoder.RawSPS.DecodeChroma | av/codec/h264/sps.go:299-343 | the chroma fields are read for the eight profiles of the code and inferred for the others, with 8 or 12 scaling lists (SpsRoundTrip, ProfilesRead and UnknownSet say for which profiles that is right) |
| SpsDecoder.RawSPS.DecodePoc | av/codec/h264/sps.go:348-369 | the picture order fields of the coded type; the others keep what they had |
| SpsDecoder.RawSPS.DecodeFrame | av/codec/h264/sps.go:371-392 | the frame size fields, the field flag only when frames may be fields |
| SpsDecoder.RawSPS.DecodeCrop | av/codec/h264/sps.go:394-406 | the crop offsets when they are coded; otherwise they keep what they had |
| SpsDecoder.RawSPS.Decode | av/codec/h264/sps.go:262-421 | all of it on the unit's bytes without start code and emulation bytes: too short, other unit, truncated (the recovered panic) or decoded, with the fields that go with it |
| SpsRoundTrip.SpsRoundTrip | av/codec/h264/sps.go:262-421 | every well-formed parameter set printed by section 7.3.2.1.1 of ITU-T H.264 with its own list of thirteen profiles, with scaling lists and offset cycles, escaped by section 7.3.1 and optionally behind a start code, is decoded to the same fields, unless it is of one of the five profiles that the code lacks; signed fields come out as 0, and fields that are not coded keep what the structure held |
| SpsProfiles.ProfilesRead | av/codec/h264/sps.go:299-302 | a set is decoded to what was printed, whatever its other fields are, iff its profile is none of 128, 138, 139, 134 and 135, which section 7.3.2.1.1 of ITU-T H.264 lists and the code does not |
| SpsExamples.UnknownSet | av/codec/h264/sps.go:299-302 | a failing input for each of these five profiles: its chroma fields are read as what comes behind them |
| SpsExamples.HighSet | av/codec/h264/sps.go:299-343 | a concrete High profile set of 1920 by 1080, byte by byte, and what is decoded from it |
| SpsRoundTrip.ListEnds | av/codec/h264/sps.go:423-444 | behind a scaling list the decoder stands where section 7.3.2.1.1.1 of ITU-T H.264 ends it iff the list is coded to its full length |
| SpsSyntax.Refused | av/codec/h264/sps.go:270-282 | what is refused, told from the bytes alone: fewer than 4, the unit types 14, 20 and 21, any other type but 7, and a set that is cut off behind its fourth byte |
| SpsRoundTrip.UsedStructure | av/codec/h264/sps.go:262-421 | decoding into a structure that was used before gives the same fields iff what it held agrees with them wherever nothing is coded |
| SpsExamples.StaleCrop | av/codec/h264/sps.go:394-406 | a second well-formed set decoded into the same structure keeps the crop of the first: 1080 rows are reported where a new structure reports 1088 |
| SpsSyntax.WidthExact | av/codec/h264/sps.go:228-231 | the 16-bit width is the unbounded one of section 7.4.2.1.1 of ITU-T H.264, for every chroma format, iff that fits 16 bits and the horizontal crop unit is 2 (4:2:0 and 4:2:2) or the crop takes away nothing (modulo 2^16) |
| SpsSyntax.ChromaTable | av/codec/h264/sps.go:228-237 | the crop units in which the true sizes are measured are those of table 6-1 and section 7.4.2.1.1 of ITU-T H.264 |
| SpsSyntax.HeightExact | av/codec/h264/sps.go:234-237 | the 16-bit height is the unbounded one, for every chroma format and for frames and fields, iff that fits 16 bits and the vertical crop unit is 2 (4:2:0 frames, fields in other formats) or the crop takes away nothing (modulo 2^16, or 2^15 for 4:2:0 fields) |
| SpsSyntax.SmallPicture | av/codec/h264/sps.go:228-237 | up to 1055 macroblocks a side, with a crop that leaves something, the width is right iff its crop unit is 2 or nothing is cropped across, and the height likewise |
| SpsExamples.FieldCropUnit | av/codec/h264/sps.go:234-237 | a failing input of the height: a decoded 1080-row interlaced 4:2:0 set reports 1084 rows |
| SpsExamples.ChromaCropUnit | av/codec/h264/sps.go:228-237 | a failing input of both: a decoded 4:4:4 set of 15 by 15 reports 14 by 14 |
| H264Cache.PayloadType | media/cache/h264cache.go:104-205 | the scan of a payload sets its flags as the recursive reading does, or panics at the same place (what the flags are for each kind of packet is in the rows that follow) |
| H264Cache.SingleUnitFlags | media/cache/h264cache.go:177-190 | a single NAL unit packet of three bytes or more, of any type from 1 to 23, sets exactly the flag of its type: 7, 8 or 5 |
| H264Cache.SingleUnitKinds | media/cache/h264cache.go:32-64 | such a packet on the video channel is taken for a parameter set or a keyframe iff its type is 7, 8 or 5 |
| H264Cache.NothingNoticed | media/cache/h264cache.go:104-108 | packets of fewer than three bytes and of types 0, 30 and 31 set nothing |
| H264Cache.OtherChannel | media/cache/h264cache.go:32-36 | packets of other channels are no video |
| H264Cache.OrdinaryStream | media/cache/h264cache.go:32-64 | after any packets, an SPS, a PPS and an IDR unit in packets of their own, of whatever bytes, and ordinary packets behind them: the cache holds just these three and the video packets behind them |
| H264Cache.SizeOnWire | av/format/rtp/packet.go:137-139 | the size that is counted is the number of bytes on the wire |
| H264Cache.ScanUnits | media/cache/h264cache.go:135-152 | the scan of well-formed units stays in bounds and ends, from any position and any flags so far |
| H264Cache.StapAFlags | media/cache/h264cache.go:104-205 | a single-time aggregation packet of section 5.7.1 of RFC 6184 sets each flag iff one of its units has that type |
| H264Cache.FragmentFlags | media/cache/h264cache.go:153-176 | of the fragments of a unit (section 5.8 of RFC 6184) only the first one sets the flag of the unit's type |
| H264Cache.OrderNumberRead | media/cache/h264cache.go:116-152 | what any packet with decoding order numbers (types 25 to 27 of RFC 6184) is taken for, whatever follows the number: nothing for number 0, the high byte of the first size for a number past the end, and for every other number the scan from that far on |
| H264Cache.StapBFlags | media/cache/h264cache.go:116-152 | in a STAP-B packet, order number 0 hides all units, and one that is the length of the first k units, or more than all of them, hides these and makes up one type |
| H264Cache.StapBExact | media/cache/h264cache.go:116-152 | such a packet is read right iff, for number 0, no unit has a type of interest, for a number that skips whole units, iff every type hidden is made up or comes again and the type made up is there, and for any other iff the scan from there on finds the same types, for which the type made up must be there too |
| H264Cache.StapBMissed | media/cache/h264cache.go:116-152 | a concrete STAP-B packet whose parameter set is not seen, and one on which the scan panics |
| H264Cache.KeyInAggregate | media/cache/h264cache.go:32-64 | an aggregate is a keyframe iff it holds an IDR unit and no parameter set; with both parameter sets it is kept as the first kind |
| H264Cache.Cache.CachePack | media/cache/h264cache.go:32-64 | after any packets since the last reset, the parameter sets are the last such packets and the group of pictures is exactly the pictures from the last keyframe on; a packet whose scan panics changes nothing |
| H264Cache.GopStep | media/cache/h264cache.go:55-63 | appending or starting over agrees with the definition of the group by the position of its keyframe |
| H264Cache.Cache.Reset | media/cache/h264cache.go:67-74 | as if no packet had come |
| H264Cache.Cache.PushTo | media/cache/h264cache.go:77-102 | the parameter sets and then the group go behind the queue in order, and their total size is returned |
| Fanout.NewCID | media/cid.go:39-46 | type and sequence number can be read back, and numbers count up until 2^30-1 |
| Fanout.Consumption.Send | media/consumption.go:55-69 | dropping starts only at a keyframe that finds more than 1000 packets waiting and ends only at one that finds fewer; what is sent and what is dropped, and the byte count, add up |
| Fanout.Consumption.SendGop | media/consumption.go:72-76 | a new consumer is given the cached packets and their bytes are counted |
| Fanout.Consumption.Pop | media/consumption.go:97-109 | the first waiting packet is handed over and counted, unless the consumer panics |
| Fanout.Consumption.Close | media/consumption.go:44-52 | closed, once |
| Fanout.OneFate | media/consumption.go:55-69 | the packets from one keyframe up to the next share one fate, and all in front of the first keyframe are kept |
| Fanout.SpacedGap | media/consumption.go:55-69 | when of any g packets in a row one is a keyframe, no two neighbouring keyframes, nor the start, nor the end, are more than g apart |
| Fanout.Consumptions.SendToAll | media/consumptions.go:18-24 | every consumer takes the packet, in whatever order the map is walked |
| Fanout.Consumptions.RemoveAndCloseAll | media/consumptions.go:26-35 | no consumer is left, the count is 0, and all that were there are closed |
| Fanout.Consumptions.Add | media/consumptions.go:37-40 | the identifier maps to the consumer, in the place of another one if it was in use, and the count goes up |
| Fanout.Consumptions.Remove | media/consumptions.go:42-50 | the consumer is taken out and counted down, or nothing changes |
| FanoutStream.Stream.WriteRtpPacket | media/stream.go:202-215 | a packet goes through the cache to every consumer and to nobody else; a closed stream refuses it with the matching error and never indexes past the error table; the whole fan-out invariant is kept |
| FanoutStream.Stream.StartConsume | media/stream.go:252-288 | a fresh consumer with the cache contents of this moment, if it wants them; the status is not looked at; identifiers are not reused while fewer than 2^30-1 were given out |
| FanoutStream.Stream.StopConsume | media/stream.go:301-311 | that consumer is out and closed, nobody else is touched |
| FanoutStream.Stream.Close | media/stream.go:170-199 | the first close settles the status, empties the cache and closes every consumer; any later one changes nothing, so that whoever joined in between stays open |
| FanoutStream.Stream.ConsumeTurn | media/consumption.go:78-110 | one turn of a consumer's routine: wait, hand over the next packet, or end and leave |
| FanoutStream.WholeGopsOnly | media/stream.go:202-215 | in every run, what a consumer popped and what it has queued is the cache snapshot at its join followed by all later packets in order, minus runs that each begin at a keyframe and end just before one, or now |
| FanoutStream.CountIsRight | media/consumptions.go:13-54 | in every run the count is the number of consumers, while no identifier was given out twice |
| FanoutStream.PrefixRead | media/consumption.go:78-110 | every consumer there ever was read a prefix of such a sequence |
| FanoutStream.QueueBound | media/consumption.go:55-69 | when of any g packets in a row one is a keyframe, no queue ever holds more than 1000 + g packets, for any pop schedule |
| FanoutStream.FitsStep | media/consumption.go:55-69 | the queue bound in terms of the distance to the last keyframe is kept by every packet, dropped or not |
| FanoutStream.SnapshotLength | media/cache/h264cache.go:77-102 | a snapshot has at most two packets more than came since the last keyframe |
| NaluAssembler.ParsedData | demos/wsp/free.player.3.3.js:1890-1901 | a unit whose forbidden bit is 0 is handed on as its 4-byte length and its own bytes, with its type and times |
| NaluAssembler.NaluAsm.ParseAggregationPacket | demos/wsp/free.player.3.3.js:3676-3696 | the units of an aggregate as the recursive reading finds them, or the RangeError at the same place |
| NaluAssembler.NaluAsm.ParseFragmentationUnit | demos/wsp/free.player.3.3.js:3698-3727 | what is under assembly and the finished unit after a fragment, or an unchanged state and the RangeError |
| NaluAssembler.NaluAsm.OnNaluFragment | demos/wsp/free.player.3.3.js:3729-3754 | every kind of payload: single units, aggregates, fragments, undefined types and empty ones |
| NaluAssembler.SingleUnit | demos/wsp/free.player.3.3.js:3738-3750 | of a single NAL unit packet, of any type from 1 to 23 and from any assembler state, exactly that unit comes out, with the times of the packet, and the assembly is left alone |
| NaluAssembler.OtherTypes | demos/wsp/free.player.3.3.js:3744-3748 | types 0, 26, 27, 30 and 31 give nothing and change nothing |
| NaluAssembler.TooShort | demos/wsp/free.player.3.3.js:3733-3742 | of payloads other than aggregates exactly the empty ones and the fragments without their headers are RangeErrors |
| NaluAssembler.ShortAggregate | demos/wsp/free.player.3.3.js:3676-3696 | one or two bytes behind the units of an aggregate are a RangeError |
| NaluAssembler.CutOff | demos/wsp/free.player.3.3.js:3684-3692 | an aggregate that ends inside a unit gives that unit as far as it goes |
| NaluAssembler.FragmentsRoundTrip | demos/wsp/free.player.3.3.js:3698-3727 | from any assembler state, a unit cut into two or more fragments of section 5.8 of RFC 6184, of either kind, comes out exactly once, at the last one, with its bytes and the time of the first |
| NaluAssembler.AggregateRoundTrip | demos/wsp/free.player.3.3.js:3676-3696 | a single-time aggregation packet comes out as its list of units and leaves the assembly alone |
| NaluAssembler.StapBRoundTrip | demos/wsp/free.player.3.3.js:3676-3696 | the same with a decoding order number in front of the units |
| NaluAssembler.FragmentsTaken | demos/wsp/free.player.3.3.js:3698-3727 | whichever fragments of a unit arrive, in order and from any assembler state: their bytes go to a new unit if the first is among them, else to a unit of the same type under assembly, else nowhere; it comes out at the last fragment and else stays |
| NaluAssembler.LostFragments | demos/wsp/free.player.3.3.js:3713-3725 | when the first and the last fragment arrive, those that arrive come out as a unit, which is the unit that was sent iff all fragments lost were empty |
| NaluAssembler.LostStart | demos/wsp/free.player.3.3.js:3713-3725 | when the first fragment is lost, the others are added to a unit of the same type under assembly, with which they come out, and are dropped otherwise |
| Remuxer.H264Remuxer.Remux | demos/wsp/free.player.3.3.js:2278-2310 | units of one time are merged and queued when the next time starts; the track length equals what is queued and out, and no byte is lost between the group and the queue |
| Remuxer.MergedSize | demos/wsp/free.player.3.3.js:2283-2292 | merging the slices of a picture keeps the total size |
| RemuxLaws.OnePicture | demos/wsp/free.player.3.3.js:2284-2292 | slices of one time become the first one, with a start code, the header and the data of each other one behind it, in order |
| RemuxLaws.PicturesApart | demos/wsp/free.player.3.3.js:2284-2292 | slices of different times are not mixed |
| RemuxLaws.QueuedAre | demos/wsp/free.player.3.3.js:2295-2302 | each merged unit is queued with its own times |
| RemuxLaws.SortStable | demos/wsp/free.player.3.3.js:1407-1409 | elements of one time stay in the order in which they came |
| Remuxer.SortOrders | demos/wsp/free.player.3.3.js:1407-1409 | the queue is in order of time after sorting |
| Remuxer.SortKeeps | demos/wsp/free.player.3.3.js:1407-1409 | sorting keeps every sample and the total size |
| Remuxer.H264Remuxer.Init | demos/wsp/free.player.3.3.js:1393-1398 | the time origin is not behind the first sample |
| Remuxer.H264Remuxer.GetPayload | demos/wsp/free.player.3.3.js:2312-2434 | the payload is the units that are taken, back to back, and the track length is its length; the samples, the average duration and the next expected time go with them; nothing is written outside the payload |
| Remuxer.H264Remuxer.Place | demos/wsp/free.player.3.3.js:2335-2381 | whether a sample is taken and at what times, with all its side effects on the track |
| Remuxer.H264Remuxer.Flush | demos/wsp/free.player.3.3.js:1400-1404 | the next fragment starts empty with the next number |
| Remuxer.PlanForward | demos/wsp/free.player.3.3.js:2335-2381 | decoding times never go back, and no sample is shown before it is decoded |
| RemuxLaws.FirstTaken | demos/wsp/free.player.3.3.js:2357-2380 | the first sample, where another one was expected: moved there when it is less than 599.5 ms away, or just that much too early; taken as it is when it is later than that, and skipped when it is earlier |
| RemuxLaws.FirstOfAll | demos/wsp/free.player.3.3.js:2357-2380 | with nothing expected, or time 0, the first sample is taken at its own time |
| RemuxLaws.LaterTaken | demos/wsp/free.player.3.3.js:2335-2356 | a later sample is taken, at its own time, iff it is not due before the last one taken |
| Remuxer.LastHundred | demos/wsp/free.player.3.3.js:2352-2356 | the last hundred durations are kept, over any number of fragments |
| Remuxer.AverageIsMean | demos/wsp/free.player.3.3.js:2413 | the average is the mean of these, rounded down, while their total has 31 bits |
| Remuxer.NothingSkipped | demos/wsp/free.player.3.3.js:2335-2381 | in an ordered queue with sane times and no expected time, every sample is taken at its own times |
| Remuxer.DurationsAdd | demos/wsp/free.player.3.3.js:2343-2356 | all durations but the last add up to the time from the first to the last sample |
| Remuxer.H264Remuxer.Feed | demos/wsp/free.player.3.3.js:2621-2629 | one turn of the caller: from an idle track to an idle track, everything queued is consumed, and what was taken is a fragment with its own number, samples, times and payload, or there is none; durations, average and next expected time are reckoned from what was taken (EntriesDescribe says what the fragment holds) |
| Remuxer.LastDtsNeverLate | demos/wsp/free.player.3.3.js:2421-2429 | for every queue the next time is reckoned from the last sample taken or from a skipped one before it, never from a later time |
| Remuxer.LastDtsJoins | demos/wsp/free.player.3.3.js:2421-2429 | for a sorted queue with sane times it is reckoned from the last sample taken unless, with an expected time, the last sample comes before that and the last but one is within 600 ms of it; then a single sample is taken, and the next expected time is too early by what the last sample was too early |
| Remuxer.LastSkipped | demos/wsp/free.player.3.3.js:2421-2429 | a queue of two early samples, of which the second is skipped and the next fragment expected 42000 ticks too early |
| Remuxer.SamplesDescribe | demos/wsp/free.player.3.3.js:2383-2429 | of the samples handed over, the sizes add up to the payload length, all durations but the last to the time from first to last, and no composition offset is negative |
| Remuxer.UnitsInPlace | demos/wsp/free.player.3.3.js:2312-2434 | whoever reads the fragment through its run table finds each unit in its place, with its length in front |
| Remuxer.EntriesDescribe | demos/wsp/free.player.3.3.js:2383-2429 | a reader of section 8.8 of ISO/IEC 14496-12 finds in that fragment its number, track and base time, its data, and for each sample the duration up to the next one, the length, the flags of a place to start or not, and the composition offset |
| Mp4.MakeBox | demos/wsp/free.player.3.3.js:415-433 | the size, the type and the parts, back to back |
| Mp4.SizeField | demos/wsp/free.player.3.3.js:415-433 | a box's size field is its length iff that is below 2^32 |
| Mp4.MakeTrun | demos/wsp/free.player.3.3.js:824-872 | the run table with its offset, as a box (TableReads and SampleReads say what a reader finds in it) |
| Mp4.FragmentBoxes | demos/wsp/free.player.3.3.js:489-491 | a fragment reads as nested boxes of the right kinds whose size fields equal their lengths |
| Mp4.TrafBoxes | demos/wsp/free.player.3.3.js:767-796 | the track part reads as its four boxes, with the offset argument that the run table needs |
| Mp4.DataOffset | demos/wsp/free.player.3.3.js:787-794 | the data offset of the run table is the index of the first payload byte |
| Mp4.SamplesInPlace | demos/wsp/free.player.3.3.js:787-794 | following the offset and the sizes of the run table, a reader finds the i-th part of the data |
| Mp4.TrunReads | demos/wsp/free.player.3.3.js:841-868 | the size of the i-th sample is where a reader looks for it |
| Mp4Reader.TableReads | demos/wsp/free.player.3.3.js:830-840 | the run table has the flags of section 8.8.8 of ISO/IEC 14496-12 for its layout, and the number of samples |
| Mp4Reader.SampleReads | demos/wsp/free.player.3.3.js:841-868 | in the i-th entry stand the duration, the size, the flags and the composition offset of the i-th sample, each at its offset |
| Mp4Reader.DependenciesRead | demos/wsp/free.player.3.3.js:690-708 | the dependency table has for each sample what it depends on, in the bits of section 8.6.4 of ISO/IEC 14496-12 |
| Mp4Reader.FragmentReads | demos/wsp/free.player.3.3.js:489-491 | a reader that finds boxes by their types reads from a fragment its number, track, base time, tables and data |
| ByteStrings.ReadBits | demos/wsp/free.player.3.3.js:415-433 | a number read from two or four bytes is the one its bits spell, most significant first |
| CanonicalPath.CanonicalForm | utils/path.go:13-37 | a canonical path is elements, none of them empty, "." or "..", behind slashes, with one more slash at the end only if the given path had it there (NoCapitals and CaseBlind say that it is lower-case) |
| CanonicalPath.SingleSlashes | utils/path.go:13-37 | it starts with a slash and never has two in a row |
| CanonicalPath.CanonicalTwice | utils/path.go:13-37 | making a path canonical a second time changes nothing iff the last element that cleaning leaves does not end in white space, or a slash was behind it |
| CanonicalPath.CanonicalTwiceDiffers | utils/path.go:13-37 | a path for which it does change something |
| PathLaws.NoCapitals | utils/path.go:14 | there is none of the letters A to Z in a canonical path |
| PathLaws.CaseBlind | utils/path.go:14 | paths that differ only in the case of these letters have the same canonical path |
| PathLaws.SpaceBlind | utils/path.go:14 | white space around a path does not matter |
| PathLaws.CleaningRules | utils/path.go:24 | several slashes are one, a "." goes, and a ".." goes with the element in front of it or alone at the root, for any front and rear of a path |
| PathLaws.FrontSlash | utils/path.go:20-22 | a path without a slash in front is taken as if it had one |
| PathLaws.RearSlash | utils/path.go:25-34 | a slash at the end is kept unless nothing else is left |
| PathLaws.CleanStays | utils/path.go:13-37 | a clean path without capitals stays as it is |
| RouteTable.Route.Init | provider/route/route.go:20-27 | the pattern becomes canonical, even if the address does not parse |
| RouteTable.Route.CopyFrom | provider/route/route.go:30-33 | address and keep-alive are taken over, the pattern stays |
| RouteTable.Table.Match | provider/route/routetable.go:99-138 | no match for a path with a slash at its end; else the exact pattern; else the longest pattern with a slash at its end that prefixes the path, for every iteration order; the index panic iff that route's address is empty |
| RouteTable.MatchMeans | provider/route/routetable.go:99-138 | the answer told from the patterns alone: the target at the canonical path, else the longest pattern with a slash at its end that leads to it, with the rest of the path behind its address and one slash in between, else none |
| RouteTable.MatchCaseBlind | provider/route/routetable.go:103 | requests that differ only in the case of letters get the same answer |
| RouteTable.OneLongest | provider/route/routetable.go:114-125 | two longest matches are the same pattern |
| RouteTable.OneSlash | provider/route/routetable.go:127-136 | the rewritten address is the base, exactly one slash and the unmatched rest |
| RouteTable.Table.Reset | provider/route/routetable.go:69-97 | the table is what the provider loaded and could parse; it is valid iff the loaded patterns are distinct once canonical; a failing provider leaves it empty |
| RouteTable.Table.ParsedAre | provider/route/routetable.go:88-96 | exactly those routes are listed whose address parses, each as often as it was loaded |
| RouteTable.Table.Del | provider/route/routetable.go:149-178 | exactly that pattern is gone, and the journal invariant is kept |
| RouteTable.Table.Save | provider/route/routetable.go:180-221 | exactly that pattern has the new target, also through aliases, and the journal invariant is kept; an address that does not parse changes nothing in the table |
| RouteTable.Table.Flush | provider/route/routetable.go:223-239 | an empty journal succeeds without the provider; otherwise its answer decides, and only a success empties the journal |
| RouteTable.JournalDel | provider/route/routetable.go:149-178 | the journal invariant through a removal |
| RouteTable.JournalSave | provider/route/routetable.go:180-221 | the journal invariant through a save |
| RouteTable.JournalRebuilds | provider/route/routetable.go:149-239 | after any run, what was last flushed, minus the removes, overlaid with the saves, is the table; the list has each route once, saves are within the table, removes outside of it, and neither has duplicates |
| Wsp.DecodeStringRequest | service/wsp/protocol.go:85-122 | the request, or which part of it is malformed, as the line-by-line reading gives it |
| WspRoundTrip.RequestRoundTrip | service/wsp/protocol.go:85-122 | the server inverts the player's message for every valid command, well-formed fields and arbitrary body |
| WspLaws.FirstLineDecides | service/wsp/protocol.go:99-109 | for any two words in the first line and any well-formed fields: refused for the first unless it is WSP/1.1, for the second unless it is one of the five commands, and taken in otherwise |
| WspLaws.OneWord | service/wsp/protocol.go:103-109 | a first line of one word names no command |
| WspLaws.NoBlankLineAnywhere | service/wsp/protocol.go:86-89 | refused for a missing blank line iff there is none anywhere |
| WspLaws.SingleLine | service/wsp/protocol.go:98-101 | a request of one line is refused |
| WspLaws.FieldStored | service/wsp/protocol.go:112-119 | any line with a colon stores what is behind the first one under what is in front of it, both without white space and quotes around them, in place of an earlier field of that name |
| WspLaws.LineSkipped | service/wsp/protocol.go:112-119 | a line without a colon is skipped |
| WspRoundTrip.HeadersRead | service/wsp/protocol.go:112-119 | the header lines are read field by field, added to what is there already |
| Wsp.ResponseTo | service/wsp/protocol.go:155-172 | the answer is printed with every field of the header once, in some order, and the request's sequence number |
| WspLaws.Spelled | service/wsp/protocol.go:155-172 | messages without, with one and with two fields, and the status line, character by character |
| WspPlayer.WspProtocol.Build | demos/wsp/free.player.3.3.js:9190-9199 | the fields get the next sequence number if they have none, and are printed in order |
| WspRoundTrip.WithSeqKeeps | demos/wsp/free.player.3.3.js:9192-9194 | numbering keeps the fields well-formed and distinct, and there is at least one |
| WspPlayer.ParseResponse | demos/wsp/free.player.3.3.js:9201-9225 | the answer as the player reads it: no match, the TypeError for a line without a colon, or the parts |
| WspRoundTrip.ResponseRoundTrip | demos/wsp/free.player.3.3.js:9201-9225 | the player inverts the server's answer for every order of the header: code, text and payload as they were, values up to their first colon, trimmed, and all names but __proto__ |
| WspRoundTrip.SeenUnchanged | demos/wsp/free.player.3.3.js:9215-9216 | a value arrives as it was sent iff it has no colon and no white space around it |
| WspRoundTrip.StatusReads | demos/wsp/free.player.3.3.js:9204 | the status line's pattern takes in the code and the whole text |
| WspLaws.StatusLineRead | demos/wsp/free.player.3.3.js:9204 | the same for every line the pattern of the status line admits: anything without a W in front, any character for the dot, any white space, any digits, and the text to the end of its line |
| WspLaws.BlankText | demos/wsp/free.player.3.3.js:9204 | when only white space is behind the code, the text is its last character that does not end a line |
| WspLaws.NoMatch | demos/wsp/free.player.3.3.js:9204 | without the protocol and its major version there is no match |
| WspLaws.NoBlankLineNoAnswer | demos/wsp/free.player.3.3.js:9201-9204 | a text without a blank line is no answer |
| WspLaws.OtherFirstLine | demos/wsp/free.player.3.3.js:9202-9205 | nor is one whose first line does not match |
| WspLaws.FieldAssigned | demos/wsp/free.player.3.3.js:9215-9216 | of any line with a colon, the part up to a second colon is stored under the part in front of the first, both trimmed, except under __proto__ |
| WspLaws.OtherLines | demos/wsp/free.player.3.3.js:9212-9219 | a line without a colon throws, and an empty one ends the fields |
| WspRoundTrip.SeqEchoed | service/wsp/protocol.go:155-172 | the player finds its own sequence number in the answer |
| WspRoundTrip.MessageParts | service/wsp/protocol.go:85-94 | the first blank line of a message is the one behind its fields, whatever the body is |
| TextLaws.BlankLineFirst | service/wsp/protocol.go:86 | what is found is the first blank line, or there is none |
| TextLaws.SplitAtBreaks | demos/wsp/free.player.3.3.js:9203 | the lines put together with line breaks are the text, and none of them has a line break in it |
| TextLaws.TrimTakes | utils/scan/scanner.go:46-53 | trimming takes away characters of the given kind from both ends, and all of them |
| RtspTransport.ParseRange | service/rtsp/rtptransport.go:52-78 | both ends of a range, -1 for one that is missing or no 64-bit number |
| TransportLaws.AtoiMeans | service/rtsp/rtptransport.go:64-75 | a decimal number with at most one sign is read as it stands iff it has 64 bits |
| TransportLaws.NoNumber | service/rtsp/rtptransport.go:64-75 | anything else is no number |
| TransportLaws.RangeEnds | service/rtsp/rtptransport.go:52-78 | the ends of a range lie around its first dash; white space around them goes |
| RtspTransport.RangeRoundTrip | service/rtsp/rtptransport.go:52-78 | two numbers printed with a dash are read back |
| RtspTransport.ParseTransport | service/rtsp/rtptransport.go:81-164 | the settings after all parameters and whether all were well-formed; a malformed header changes them as well |
| RtspTransport.TokensRoundTrip | utils/scan/scanner.go:46-53 | tokens joined by semicolons are read back one by one |
| RtspTransport.PairReads | utils/scan/pair.go:49-61 | key and value of a token, with quotes and white space off |
| RtspTransport.HeaderRoundTrip | service/rtsp/rtptransport.go:87-107 | a header of well-formed tokens is applied parameter by parameter |
| RtspTransport.TcpRoundTrip | service/rtsp/rtptransport.go:94-139 | an interleaved transport of section 12.39 of RFC 2326 sets the kind, that medium's two channels and the mode, and nothing else |
| RtspTransport.UdpRoundTrip | service/rtsp/rtptransport.go:96-144 | a UDP transport sets the kind, that medium's two ports and the mode, and nothing else |
| TransportLaws.Kinds | service/rtsp/rtptransport.go:87-102 | a header is taken for TCP when it starts with RTP/AVP/TCP, and for multicast when it starts with RTP/AVP or RTP/AVP/UDP; everything else is malformed, as is a header without a parameter, and leaves only the mode settled |
| TransportLaws.Words | service/rtsp/rtptransport.go:108-119 | unicast turns multicast into UDP, multicast is malformed over TCP, append is noted |
| TransportLaws.ClientPorts | service/rtsp/rtptransport.go:140-144 | client_port sets the two client ports of the medium and nothing else, to -1 where there is no number, and is malformed without a first one |
| TransportLaws.ServerPorts | service/rtsp/rtptransport.go:145-149 | the same for server_port |
| TransportLaws.MulticastPorts | service/rtsp/rtptransport.go:150-154 | the same for port |
| TransportLaws.Channels | service/rtsp/rtptransport.go:129-139 | interleaved sets the two channels of the medium and nothing else, and leaves one for which there is no number as it was |
| TransportLaws.Addresses | service/rtsp/rtptransport.go:155-158 | destination and source set their addresses |
| TransportLaws.TimeToLive | service/rtsp/rtptransport.go:159-160 | ttl is the number, or 0, and never malformed |
| TransportLaws.UnknownPairs | service/rtsp/rtptransport.go:121-161 | unknown parameters are skipped |
| TransportLaws.OneByOne | service/rtsp/rtptransport.go:106-163 | parameters are applied one by one, and all have to be well-formed |
| RtspTransport.ModeByExactWord | service/rtsp/rtptransport.go:123-128 | only the exact lower-case word asks for recording, so that RFC 2326's upper-case RECORD is taken for play |
| RtspTransport.ParsedSettled | service/rtsp/rtptransport.go:81-164 | the mode is settled by every header, and the kind by every header that is taken |
| RtspSession.NamesWhat | service/rtsp/session.go:329-332 | an address passes for a control path iff it ends in it or is exactly one shorter than it |
| RtspSession.ChannelMeans | service/rtsp/session.go:328-338 | a SETUP is for channel 2 when the address ends in the control path of the audio, and for channel 0 when it ends in that of the video only; a control path that is an address itself, in any case of letters, is parsed first |
| RtspSession.LastControlIs | service/rtsp/session.go:629-640 | the control path of a kind is that of its last medium |
| RtspSession.Session.ParseSdp | service/rtsp/session.go:623-643 | the controls of the last video and audio; a medium without a format panics |
| RtspSession.Session.OnDescribe | service/rtsp/session.go:236-270 | the answer code for every outcome, and play mode with the description's controls iff it is 200 |
| RtspSession.Session.OnAnnounce | service/rtsp/session.go:272-296 | the answer code for every outcome, and record mode with the description's controls iff it is 200 |
| RtspSession.Session.OnSetup | service/rtsp/session.go:298-408 | the answer code for every outcome; ready iff it is 200; the mode never changes |
| RtspSession.SetupAnswers | service/rtsp/session.go:298-408 | for each answer code the exact condition on the address, the transport, the permissions and the stream |
| RtspSession.Session.NamedIsDescribed | service/rtsp/session.go:328-349 | no SETUP finds its control path without an earlier description, so that it never has to choose the mode |
| RtspSession.Session.OnRecord | service/rtsp/session.go:410-428 | recording with a push stream iff the mode is record, the transport TCP and pushing allowed |
| RtspSession.Session.AsConsumer | service/rtsp/session_roles.go:220-310 | the answer code and the consumer for each kind of transport |
| RtspSession.Session.OnPlay | service/rtsp/session.go:430-466 | the answer code for every outcome; playing iff the request was granted and the answer written; without a consumer iff the transport could not be served; a second PLAY is not answered |
| RtspSession.PlayAnswers | service/rtsp/session.go:430-466 | for each answer code the exact condition on the mode, the transport, the stream, the permission and the socket |
| RtspSession.Session.OnPreprocess | service/rtsp/session.go:521-568 | which requests go on, the answer code for those that do not, and that TEARDOWN closes |
| RtspSession.AllowedWhen | service/rtsp/session.go:538-553 | the methods allowed in each state, listed |
| RtspSession.Session.OnRequest | service/rtsp/session.go:207-234 | the status never moves back and each change has its method and exact conditions; every request but a repeated PLAY, or one that ends the session, is answered exactly once with its CSeq |
| RtspSession.ModeMeans | service/rtsp/session.go:207-234 | the mode is that of the last description answered with 200 |
| RtspSession.StatusMeans | service/rtsp/session.go:207-234 | in every run, a session that is ready, playing or recording has answered a DESCRIBE or ANNOUNCE with 200, later a SETUP with 200, and, to play or record, later still the PLAY or RECORD; playing means play mode, a known transport and no push stream; recording means record mode, TCP and a push stream |
| RtspSession.Session.Finish | service/rtsp/session.go:150-167 | the initial state after the end |

## Left out

- ModularPower.DivRemTo: plain long division on integers stands for the floating-point quotient estimate of the source, so that estimate and its corrections are not modelled; the quotient is not returned either.
- BigInteger.ZERO and BigInteger.ONE, the shared constants, are fresh objects here; that no routine changes them is not stated.
- The digit routines for other digit sizes (`am1`, `am2`), bit-wise operations, radix conversion, byte arrays, key generation, primality tests, padding, ASN.1 and MD5 of the player.
- SpsDecoder.RawSPS.Decode: does not read the VUI and HRD syntax behind `vui_parameters_present_flag`, nor their defaults, frame rate and base64 input; the fields left behind by a failed decode are described but not related to the stream.
- BitReader.Reader.ReadSe: the value is stated as the code computes it, not as the standard defines it, because the two differ.
- The HEVC cache, HEVC parameter sets and the FLV cache, muxers and consumers; FLV consumers share the identifier counter of the stream and nothing else that is modelled.
- FanoutStream.Stream.WriteRtpPacket: one packet, one join, one pop, one leave and one close are each a single step, because the source holds no lock across their halves and finer interleavings do lose these properties; the demultiplexer that also gets the packet is not modelled, nor is the 64-bit wrap of the received size and the 32-bit wrap of the consumer count.
- Fanout.Consumption.Pop: the blocking queue is a sequence; waiting and waking are not modelled.
- NaluAssembler.NaluAsm.OnNaluFragment: units are values, so that the identity of the unit objects is not captured; none is shared while it grows. The near-copy of the player in demos/rtsp/rtsp.dev.js is not modelled.
- Remuxer.H264Remuxer.Remux: whether the parser keeps a unit, and whether it belongs to a keyframe, are parameters; parsing slice headers, and parameter sets on the player's side, is not modelled. Discontinuity marks, which nothing inserts, are left out. The scale factor is the 1 that the player uses for H.264.
- Mp4.FragmentBoxes: only the boxes of a fragment; the initialisation segment, the audio track and the media source buffers are not modelled.
- Wsp.DecodeStringRequest: characters are characters, not UTF-8 bytes or UTF-16 units; reading from the socket into 8 KB is not modelled.
- CanonicalPath.CanonicalForm: lower-casing covers ASCII letters, and cleaning a path is defined by its elements rather than by the library's in-place algorithm.
- RouteTable.Table.Save: a route that is in the table already may be saved again only under a pattern that is canonical and stays so; the source has no such check, and such a route would then be listed under a pattern it no longer has. The JSON provider is not modelled.
- RouteTable.Table.Reset: the loaded routes are separate objects, as a provider that decodes them makes them.
- Remuxer.H264Remuxer.GetPayload: is called on a track whose last samples were flushed, which Feed, the player's only caller, keeps to.
- Remuxer.H264Remuxer.Flush: is called when the queue is empty, which Feed keeps to.
- RtspSession.Session.OnSetup: the address and a parsed control address are not empty, since the source writes a port into both.
- RtspTransport.ParseTransport: the fixed-size arrays in the settings are sequences of the same length, since the settings are a value in the session.
- RtspSession.Session.OnRequest: headers other than those that decide something are left out, as are the digest and basic authentication values, WebSocket framing, time-outs, the packets a pushing client sends and what the three consumers send.
- Configuration, logging, plug-ins, statistics, HTTP, HLS, AAC packing, the multicast address counter and the user interface of the player, which are input and output or would only add easy members.
