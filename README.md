# DCA1000 capture link and hand detection, modelled in Dafny

The modelled system reads radar frames from a TI DCA1000 capture board. It also
sends the board its configuration commands, and it decides from a range profile
whether a hand is in front of the radar. The model covers the parts of
`auto_lua/src/data_fetching.py` that do not touch the network, plus
`RadarProcessor.detect_hand` from `auto_lua/src/data_handling.py`:

- `wrappers.dfy`: `Option` and `Result`.
- `arith.dfy` (module `Arith`): facts about products and remainders that the other modules share.
- `byte_codec.dfy` (module `ByteCodec`): the byte-level conversions the link uses:
  - `struct`'s little-endian `'<l'` and big-endian `'>Q'` integers
  - numpy's uint16 → float32 → int16 cast of lines 128-129, taken as two's-complement wrap-around
  - the `'hex'` codec of `codecs.decode`
- `capture_packet.dfy` (module `CapturePacket`): `_read_data_packet`. A datagram decodes
  into a sequence number, a byte counter and signed 16-bit samples. The module also has
  the sender's encoding, which is the decoder's inverse.
- `command_frame.dfy` (module `CommandFrame`): the control frames `send_command` builds
  (header, code, length, body, footer as hex text) and the four frames `configure` sends.
- `frame_reader.dfy` (module `FrameReader`): `DCA1000.read`. Class `Dca1000` keeps
  `lost_packets` as a field. It reassembles a frame in an `array<int>` with the two loops
  of the source. Each step is proved against the specification functions
  `Open`/`Collect`/`ReadFrame`, and end-to-end lemmas characterise those functions.
  The socket is replaced by the sequence of already decoded packets it would deliver.
  Running out of packets stands for the socket timeout.
- `lvds_layout.dfy` (module `LvdsLayout`): `dp_reshape2LaneLVDS`, `generate_frame_data`
  and `organize`. It models numpy's C-order reshapes, Fortran-order flattening,
  `transpose(0, 2, 1)`, strided slices and the broadcasting of slice assignment.
- `hand_detection.dfy` (module `HandDetection`): `detect_hand` over real-valued range
  profiles.

Three behaviours of the code that the model keeps as written:

- The byte counter in the packet header is read little-endian: the code reverses the six
  bytes and then reads them big-endian.
- A frame whose packets never arrive ends in the socket timeout, which `read` lets
  propagate; no zero-filled frame is returned.
- The lost-packet count is `PACKETS_IN_FRAME_CLIPPED - packets_read`, not clamped. It is
  -1 for a frame with no loss: the opening packet, P - 1 more packets, then the closing
  packet (P is `PACKETS_IN_FRAME_CLIPPED`). Because `packets_read` is reset to 0 once it
  passes P, it counts modulo P + 1: for brackets at packets o and e the count is
  P - 1 - ((e - o) mod (P + 1)), always in [-1, P).

## Model

| member | source | states |
|---|---|---|
| ByteCodec.LittleEndian | auto_lua/src/data_fetching.py:126 | the little-endian value of n bytes is below 256^n |
| ByteCodec.BigEndian | auto_lua/src/data_fetching.py:127 | the big-endian value of n bytes is below 256^n |
| ByteCodec.ToLittleEndian | auto_lua/src/data_fetching.py:126 | the width bytes of n read back little-endian give n |
| ByteCodec.LittleEndianInjective | auto_lua/src/data_fetching.py:126-127 | two equal-width byte strings with the same little-endian value are equal |
| ByteCodec.Reverse | auto_lua/src/data_fetching.py:127 | the `[::-1]` slice: same length, element i is element len-1-i of the input |
| ByteCodec.BigEndianOfReverse | auto_lua/src/data_fetching.py:127 | reading the reversed bytes big-endian equals reading the bytes little-endian |
| ByteCodec.BigEndianZeroPrefix | auto_lua/src/data_fetching.py:127 | the two zero bytes padded in front do not change the '>Q' value |
| ByteCodec.Int16 | auto_lua/src/data_fetching.py:129 | the int16 cast gives a value in [-2^15, 2^15) congruent to the uint16 word modulo 2^16 |
| ByteCodec.Int32 | auto_lua/src/data_fetching.py:126 | '<l' gives a value in [-2^31, 2^31) congruent to the unsigned 4-byte value modulo 2^32 |
| ByteCodec.Int16OfPattern | auto_lua/src/data_fetching.py:129 | every int16 value is recovered from its 16-bit pattern |
| ByteCodec.Int32OfPattern | auto_lua/src/data_fetching.py:126 | every int32 value is recovered from its 32-bit pattern |
| ByteCodec.HexDecode | auto_lua/src/data_fetching.py:136 | a decoded hex text has half as many bytes as the text has digits |
| ByteCodec.HexDecodeDefined | auto_lua/src/data_fetching.py:136 | the hex codec succeeds exactly on even-length strings of hex digits |
| ByteCodec.HexDecodeAt | auto_lua/src/data_fetching.py:136 | byte k is 16 * digit 2k + digit 2k+1 |
| ByteCodec.HexDecodeIs | auto_lua/src/data_fetching.py:136 | a hex text decodes to exactly the bytes its digit pairs spell |
| ByteCodec.HexRoundTrip | auto_lua/src/data_fetching.py:136 | decoding the hex text of any byte string gives it back |
| ByteCodec.HexDecodeAppend | auto_lua/src/data_fetching.py:136 | joining hex text at an even position joins the decoded bytes, and decoding fails iff a piece fails |
| ByteCodec.HexDecodeJoin | auto_lua/src/data_fetching.py:136 | the five joined pieces of a command decode piecewise |
| CapturePacket.SequenceNumber | auto_lua/src/data_fetching.py:126 | the sequence number is the signed 32-bit reading of bytes 0-3 little-endian |
| CapturePacket.ByteCounter | auto_lua/src/data_fetching.py:127 | the byte counter equals the little-endian value of bytes 4-9, below 2^48 |
| CapturePacket.Words | auto_lua/src/data_fetching.py:128-129 | half as many samples as payload bytes |
| CapturePacket.WordAt | auto_lua/src/data_fetching.py:128-129 | sample k is the int16 whose pattern is byte 2k + 256 * byte 2k+1 |
| CapturePacket.DecodePacket | auto_lua/src/data_fetching.py:124-130 | decoding fails iff the datagram is shorter than 10 bytes (struct.error) or has an odd payload (ValueError); otherwise it gives the header fields and (len-10)/2 samples |
| CapturePacket.PayloadInt16 | auto_lua/src/data_fetching.py:128-129 | every decoded sample is a signed 16-bit value with the payload bytes as its pattern |
| CapturePacket.EncodeWords | auto_lua/src/data_fetching.py:128-129 | the sender writes two bytes per sample |
| CapturePacket.EncodePacket | auto_lua/src/data_fetching.py:124-130 | the wire length is the 10 header bytes plus two per sample |
| CapturePacket.WordsOfEncodeWords | auto_lua/src/data_fetching.py:128-129 | decoding encoded samples gives them back |
| CapturePacket.EncodeWordsOfWords | auto_lua/src/data_fetching.py:128-129 | encoding decoded samples gives the bytes back |
| CapturePacket.DecodeEncode | auto_lua/src/data_fetching.py:124-130 | every well-formed packet survives encode then decode |
| CapturePacket.EncodeDecode | auto_lua/src/data_fetching.py:124-130 | every datagram that decodes is the encoding of its decoded packet: no byte is ignored |
| CommandFrame.CodeText | auto_lua/src/data_fetching.py:7-24 | every command code is four hex digits whose high byte is 00 |
| CommandFrame.CodeNumber | auto_lua/src/data_fetching.py:7-21 | every command number lies in 1..14 |
| CommandFrame.CodeTextBytes | auto_lua/src/data_fetching.py:7-24 | every code text decodes to the command number as two little-endian bytes |
| CommandFrame.CodeTextInjective | auto_lua/src/data_fetching.py:7-21 | distinct commands have distinct codes |
| CommandFrame.CommandMessage | auto_lua/src/data_fetching.py:136 | a built message has one byte per two hex digits of its parts |
| CommandFrame.CommandParts | auto_lua/src/data_fetching.py:136 | the message exists iff header, length, body and footer are hex text, and it is their bytes in order around the code |
| CommandFrame.FramedMessage | auto_lua/src/data_fetching.py:136 | the message is header bytes, code number, 0, length bytes, body bytes, footer bytes |
| CommandFrame.FramedBytes | auto_lua/src/data_fetching.py:136 | with header 5aa5 and footer aaee the message is 5a a5, code, 00, length, body, aa ee |
| CommandFrame.BareCommandBytes | auto_lua/src/data_fetching.py:132-136 | the default length and body give the 8-byte frame 5a a5 code 00 00 00 aa ee |
| CommandFrame.DocumentedBareCommands | auto_lua/src/data_fetching.py:77-83 | SYSTEM_CONNECT and READ_FPGA_VERSION give the bytes in the comments beside them; RECORD_STOP gives 5a a5 06 00 00 00 aa ee |
| CommandFrame.LengthFieldMatchesBodies | auto_lua/src/data_fetching.py:85-91 | the length field 0600 is 6 little-endian, the byte count of both 6-byte bodies |
| CommandFrame.PacketDataCommandBytes | auto_lua/src/data_fetching.py:89-91 | CONFIG_PACKET_DATA gives the 14 bytes in the comment at line 90 |
| CommandFrame.FpgaGenAsWritten | auto_lua/src/data_fetching.py:85-87 | as written, CONFIG_FPGA_GEN carries the packet-data body and differs from the frame the comment documents |
| CommandFrame.FpgaGenCorrected | auto_lua/src/data_fetching.py:85-86 | with the documented body, CONFIG_FPGA_GEN gives the 14 documented bytes |
| CommandFrame.ConfigureMessages | auto_lua/src/data_fetching.py:76-91 | configure builds one message for each of its four commands; ConfigureFrames gives their bytes, with the documented CONFIG_FPGA_GEN body |
| CommandFrame.ConfigureFrames | auto_lua/src/data_fetching.py:76-91 | configure (with the corrected body) sends the four documented frames in order |
| FrameReader.LayoutOf | auto_lua/src/data_fetching.py:63-70 | the clipped frame is a whole number of packets, within one packet of the frame size; the word counts are the byte counts halved |
| FrameReader.Zeros | auto_lua/src/data_fetching.py:99 | the zero buffer has the frame's length and only zeros |
| FrameReader.WriteSlot | auto_lua/src/data_fetching.py:104 | slice assignment succeeds iff the payload fits (or broadcasts); it changes only the slot, and within it puts the payload |
| FrameReader.SlotOf | auto_lua/src/data_fetching.py:115 | the slot is the floored remainder of packet_num - 1, in [0, P) |
| FrameReader.SlotInFrame | auto_lua/src/data_fetching.py:115-117 | every slot lies inside the frame buffer |
| FrameReader.Opening | auto_lua/src/data_fetching.py:99-104 | the opening succeeds iff the payload fits slot 0; the buffer is the payload in slot 0 and zeros elsewhere |
| FrameReader.Written | auto_lua/src/data_fetching.py:115-119 | writing a packet keeps the frame length |
| FrameReader.Apply | auto_lua/src/data_fetching.py:107-119 | writing a packet sequence keeps the frame length |
| FrameReader.IsBracket | auto_lua/src/data_fetching.py:102 | a packet whose byte counter is 0 opens or closes a frame; one whose counter is below the clipped frame size does not |
| FrameReader.Collect | auto_lua/src/data_fetching.py:107-122 | the second loop fails only by timeout, because numpy's error is swallowed; a completed frame keeps the buffer length and consumes packets past i |
| FrameReader.Open | auto_lua/src/data_fetching.py:100-122 | the first loop fails only by timeout or a broadcast error of the opening packet; a completed frame has UINT16_IN_FRAME entries and consumes packets past i |
| FrameReader.ReadFrame | auto_lua/src/data_fetching.py:97-122 | read always fails when the clipped frame size is 0, and otherwise only by timeout or the opening broadcast error; a completed frame has UINT16_IN_FRAME entries and consumes 1 to all packets |
| FrameReader.FirstBracket | auto_lua/src/data_fetching.py:100-102 | the first packet at or after from whose byte counter is a multiple of the clipped frame size, or none |
| FrameReader.WrittenAt | auto_lua/src/data_fetching.py:115-119 | a packet changes exactly the entries of its slot when its payload fits, and nothing otherwise |
| FrameReader.ApplySnoc | auto_lua/src/data_fetching.py:107-119 | packets are written in arrival order |
| FrameReader.LastWriter | auto_lua/src/data_fetching.py:115-117 | the last packet of a sequence writing entry k, or none |
| FrameReader.ApplyAt | auto_lua/src/data_fetching.py:107-119 | last writer wins on every entry; entries no packet hits keep their old value |
| FrameReader.ApplyOutside | auto_lua/src/data_fetching.py:115-117 | entries past the P slots are never written |
| FrameReader.CollectEnds | auto_lua/src/data_fetching.py:107-122 | the second loop ends at the next bracket with the packets before it written, or times out; the lost count is P - 1 - ((packetsRead + n) mod (P + 1)) for the n packets before the bracket, so it lies in [-1, P) |
| FrameReader.CollectLost | auto_lua/src/data_fetching.py:107-122 | when a bracket follows, the lost count is P - 1 minus the counter after n more packets, counted modulo P + 1 |
| FrameReader.CounterStep | auto_lua/src/data_fetching.py:109-122 | the increment-and-reset of packets_read is counting modulo P + 1 |
| FrameReader.OpenEnds | auto_lua/src/data_fetching.py:100-105 | the first loop discards packets until the first bracket and opens the frame with its payload, or times out |
| FrameReader.ReadFrameBracketed | auto_lua/src/data_fetching.py:97-122 | read end to end: the result is fixed by the first two brackets, the packets between them and the opening payload, with a lost count in [-1, P) |
| FrameReader.ReadFrameLost | auto_lua/src/data_fetching.py:97-122 | for brackets at o and e, read reports lost_packets = P - 1 - ((e - o) mod (P + 1)) |
| FrameReader.CollectLostFrom | auto_lua/src/data_fetching.py:103-122 | the second loop, started as read starts it (packets_read = 1 after the opening packet), ends with lost count P - 1 - ((e - o) mod (P + 1)) |
| FrameReader.ReadFrameShape | auto_lua/src/data_fetching.py:97-122 | a zero clipped frame size always fails; a completed frame has UINT16_IN_FRAME entries, a lost count in [-1, P) and a consumed count in 1..len |
| FrameReader.ReadFrameZeroTail | auto_lua/src/data_fetching.py:99-117 | the entries past the P slots of a completed frame are zero |
| FrameReader.OpenSkip | auto_lua/src/data_fetching.py:100-102 | a packet that is not a bracket is discarded by the first loop |
| FrameReader.OpenAt | auto_lua/src/data_fetching.py:102-105 | a bracket packet opens the frame, or fails when numpy cannot broadcast it |
| FrameReader.CollectSkip | auto_lua/src/data_fetching.py:107-122 | a packet that is not a bracket is written and counted by the second loop |
| FrameReader.CollectAt | auto_lua/src/data_fetching.py:110-113 | a bracket packet ends the frame with lost = P - packets_read |
| FrameReader.CopySlot | auto_lua/src/data_fetching.py:117 | the in-place slice assignment succeeds iff the payload fits, and the array becomes WriteSlot of its old contents |
| FrameReader.Dca1000.constructor | auto_lua/src/data_fetching.py:55-70 | the frame constants are those of LayoutOf, and lost_packets starts as None |
| FrameReader.Dca1000.Start | auto_lua/src/data_fetching.py:103-104 | the opening payload is written into the zeroed buffer as Opening describes; when numpy raises, the buffer is unchanged |
| FrameReader.Dca1000.Store | auto_lua/src/data_fetching.py:115-119 | the buffer becomes Written of its old contents |
| FrameReader.Dca1000.Fill | auto_lua/src/data_fetching.py:107-122 | the second loop leaves the buffer, lost_packets and consumed count Collect specifies, and leaves lost_packets untouched on error |
| FrameReader.Dca1000.Read | auto_lua/src/data_fetching.py:97-122 | read returns a fresh buffer holding ReadFrame's samples and sets lost_packets, or returns ReadFrame's error with lost_packets unchanged |
| LvdsLayout.Rows | auto_lua/src/data_fetching.py:156 | reshape(count, n) has count rows of n entries |
| LvdsLayout.RowsAt | auto_lua/src/data_fetching.py:156 | entry [i][j] of reshape(count, n) is flat entry i*n + j |
| LvdsLayout.FlattenRows | auto_lua/src/data_fetching.py:156 | laying the rows end to end gives the flat sequence back |
| LvdsLayout.Reshape3 | auto_lua/src/data_fetching.py:174 | reshape(d0, d1, d2) has shape (d0, d1, d2) |
| LvdsLayout.Reshape3At | auto_lua/src/data_fetching.py:174 | element [c][a][x] is flat entry (c*d1 + a)*d2 + x |
| LvdsLayout.FlattenReshape3 | auto_lua/src/data_fetching.py:174 | reading a reshaped cube back in C order gives the flat sequence |
| LvdsLayout.SwapInner | auto_lua/src/data_fetching.py:177 | transpose(0, 2, 1) has shape (d0, d2, d1) |
| LvdsLayout.SwapInnerInvolution | auto_lua/src/data_fetching.py:177 | transposing twice restores the cube |
| LvdsLayout.Interleave | auto_lua/src/data_fetching.py:157-158 | the Fortran-order flattening of two rows has twice their length |
| LvdsLayout.InterleaveAt | auto_lua/src/data_fetching.py:157-158 | column c of the two rows lands at positions 2c and 2c+1 |
| LvdsLayout.Reshape2LaneLvds | auto_lua/src/data_fetching.py:155-160 | the reshape to 4 rows succeeds iff the length is a multiple of 4, giving len/2 I/Q pairs; otherwise a reshape error |
| LvdsLayout.Reshape2LaneLvdsAt | auto_lua/src/data_fetching.py:155-160 | with N = len/4, pair 2c+r is (raw[r*N + c], raw[(r+2)*N + c]) |
| LvdsLayout.SwapIq | auto_lua/src/data_fetching.py:169-170 | the two columns are exchanged in every row |
| LvdsLayout.ToComplex | auto_lua/src/data_fetching.py:172 | sample j is column 0 + j * column 1 of row j |
| LvdsLayout.IqSamples | auto_lua/src/data_fetching.py:163-172 | the complex stream has len/2 samples |
| LvdsLayout.IqSamplesAt | auto_lua/src/data_fetching.py:163-172 | complex sample f is I + jQ of lane pair f, or Q + jI when iq_swap is 1 |
| LvdsLayout.GenerateFrameData | auto_lua/src/data_fetching.py:162-179 | the evidently intended complex cube: succeeds iff 2 lanes, length a multiple of 4 and len/2 = chirps*rx*samples; otherwise the error is the unsupported-lanes error or a reshape error as appropriate; the shape is swapped by ch_interleave |
| LvdsLayout.GenerateFrameDataAt | auto_lua/src/data_fetching.py:162-179 | every cube element is the lane sample at its C-order position, read through the transpose when ch_interleave is 1 |
| LvdsLayout.GenerateFrameDataAsWritten | auto_lua/src/data_fetching.py:155-166 | as written, generate_frame_data always raises: TypeError for 2 lanes, ValueError otherwise |
| LvdsLayout.GenerateFrameDataAsWrittenFails | auto_lua/src/data_fetching.py:155-166 | a 2-lane capture that the corrected function turns into a cube fails as written |
| LvdsLayout.RealParts | auto_lua/src/data_fetching.py:179 | the float32 cast keeps the shape and makes every element the real part of the complex element |
| LvdsLayout.GenerateFrameDataCast | auto_lua/src/data_fetching.py:162-179 | as written, with the reshape call corrected: succeeds and fails exactly where the complex cube does, with the same error |
| LvdsLayout.GenerateFrameDataCastAt | auto_lua/src/data_fetching.py:162-179 | every element of the cast cube is only the I sample of its lane pair, or the Q sample when iq_swap is 1 |
| LvdsLayout.GenerateFrameDataCastLosesQ | auto_lua/src/data_fetching.py:179 | two captures that differ only in Q give different complex cubes and the same cast cube [[[1, 2]]] |
| LvdsLayout.CastOfSmallCapture | auto_lua/src/data_fetching.py:179 | a (1, 1, 2) capture whose I samples are 1 and 2 casts to [[[1, 2]]] |
| LvdsLayout.Strided | auto_lua/src/data_fetching.py:186-187 | s[start::step] is empty iff start is past the end, and otherwise begins with s[start] |
| LvdsLayout.StridedLength | auto_lua/src/data_fetching.py:186-187 | s[start::step] has ceil((len - start) / step) entries |
| LvdsLayout.StridedAt | auto_lua/src/data_fetching.py:186-187 | entry k of s[start::step] is s[start + step*k] |
| LvdsLayout.BroadcastComplex | auto_lua/src/data_fetching.py:186-187 | x + 1j*y broadcasts iff the lengths agree or one is 1; with equal lengths sample k is x[k] + j*y[k] |
| LvdsLayout.AssignEveryOther | auto_lua/src/data_fetching.py:186-187 | ret[start::2] = v succeeds iff v has the slice's length or length 1, and keeps the length |
| LvdsLayout.SeparateEven | auto_lua/src/data_fetching.py:183-186 | the even pass keeps the length len/2 |
| LvdsLayout.SeparateOdd | auto_lua/src/data_fetching.py:187 | the odd pass keeps the length |
| LvdsLayout.OrganizeFlat | auto_lua/src/data_fetching.py:183-187 | the separated array has len/2 entries, and its only error is a broadcast error |
| LvdsLayout.OrganizeLengths | auto_lua/src/data_fetching.py:183-187 | the lengths of the four raw slices and two output slices, for length 4q + m |
| LvdsLayout.OrganizeDefined | auto_lua/src/data_fetching.py:183-187 | separation succeeds iff the length is a multiple of 4, or 1, or 3 |
| LvdsLayout.SeparateEvenAt | auto_lua/src/data_fetching.py:186 | the even pass puts raw[4k] + j*raw[4k+2] at 2k |
| LvdsLayout.SeparateOddAt | auto_lua/src/data_fetching.py:187 | the odd pass puts raw[4k+1] + j*raw[4k+3] at 2k+1 and keeps 2k |
| LvdsLayout.OrganizeFlatAt | auto_lua/src/data_fetching.py:183-187 | outputs 2k and 2k+1 are raw[4k] + j*raw[4k+2] and raw[4k+1] + j*raw[4k+3] |
| LvdsLayout.OrganizeFlatThree | auto_lua/src/data_fetching.py:183-187 | a three-entry frame separates into the single entry raw[0] + j*raw[2] |
| LvdsLayout.OrganizeFlatIndex | auto_lua/src/data_fetching.py:183-187 | for every length the separation accepts, output f is raw[2f] + j*raw[2f+2] for even f, raw[2f-1] + j*raw[2f+1] for odd f |
| LvdsLayout.Organize | auto_lua/src/data_fetching.py:182-188 | organize succeeds iff separation succeeds and len/2 = chirps*rx*samples; the cube is the C-order reshape of the separated array |
| LvdsLayout.OrganizeAt | auto_lua/src/data_fetching.py:182-188 | for every length organize accepts, cube element [c][a][x] is the raw pair at the C-order position f = (c*rx + a)*samples + x |
| HandDetection.InWindow | auto_lua/src/data_handling.py:16 | a range inside the window implies min_range <= max_range |
| HandDetection.WindowIndices | auto_lua/src/data_handling.py:16 | np.where gives exactly the indices whose range lies in [min_range, max_range], ascending |
| HandDetection.ArgMax | auto_lua/src/data_handling.py:20 | np.argmax gives a maximal position, the first one on a tie |
| HandDetection.Gather | auto_lua/src/data_handling.py:17 | fancy indexing gives the profile value at each window index |
| HandDetection.GatherAbove | auto_lua/src/data_handling.py:17 | np.any over the window values holds iff some in-window bin exceeds the threshold |
| HandDetection.DetectHand | auto_lua/src/data_handling.py:14-25 | IndexError iff an in-window index is past the profile; otherwise detected iff some in-window bin exceeds the threshold, with a distance exactly when detected |
| HandDetection.DetectHandPeak | auto_lua/src/data_handling.py:19-21 | a detected hand is reported at the range of the peak bin, which lies in [min_range, max_range] |
| HandDetection.WindowPeak | auto_lua/src/data_handling.py:20-21 | the argmax bin is the strongest in-window bin and the first of the strongest |
| HandDetection.PeakUnique | auto_lua/src/data_handling.py:20 | at most one bin is the peak |
| HandDetection.DetectHandOfPeak | auto_lua/src/data_handling.py:14-25 | conversely, a peak bin is exactly what is reported |
| HandDetection.DetectHandWindowOnly | auto_lua/src/data_handling.py:14-25 | bins outside the window do not influence the result |
| HandDetection.EmptyWindowNoHand | auto_lua/src/data_handling.py:16-23 | with no bin in the window, no hand is detected and the distance is None |
| HandDetection.DetectHandExample | auto_lua/src/data_handling.py:14-25 | a bin at 0.4 m above the threshold of 125 is reported at 0.4 m |

## Left out

- Sockets: `bind`, `settimeout`, `recvfrom`, `sendto` and `close` are not modelled. Received packets are a parameter of `Read`, and a sent command is its byte string.
- `MAX_PACKET_SIZE` truncation by `recvfrom` is not modelled; a datagram is taken whole.
- `send_command`'s response handling is not modelled: the reply it returns and the swallowed socket timeout.
- `_listen_for_error` and `write_to_file` are not modelled: they only do I/O.
- `configure` and `_stop_stream` call `self._send_command`, which the class does not define. `ConfigureFrames` and `DocumentedBareCommands` describe the frames `send_command` would build for them.
- `CONFIG_HEADER` and `CONFIG_FOOTER` come from the configuration file, which is not part of this model. Their values 5aa5 and aaee are taken from the byte examples beside `configure`.
- Samples are kept as integers. numpy holds them in float32 (`read`), complex128 (`organize`) and, after the cast at line 179, float32 (`generate_frame_data`); all of these hold 16-bit integers exactly. Range profiles and thresholds are reals, so NaN and rounding are not modelled.
- `PACKETS_IN_FRAME`, the unclipped float ratio at line 66, is not used by any modelled operation.
- Native byte order in `np.frombuffer` is taken as little-endian.
- A zero `BYTES_IN_PACKET` raises ZeroDivisionError in `__init__`, so the constructor requires a positive packet size.
- Radar dimensions are naturals, so numpy's negative (inferred) reshape dimensions from the configuration are not modelled.
- The processed frame of `detect_hand` is one-dimensional; `process_frame`, `process_range_fft` and `RadarProcessor.__init__` are not modelled, and neither are the other source files.
- The float32 → int16 cast at line 129 is out of range for a word of 0x8000 or more, where numpy defers to the C cast, whose result is undefined. The model takes the two's-complement wrap-around that common platforms give.
- A datagram that does not decode (struct.error or ValueError at lines 126-128) raises out of `read`. `Read` takes packets that are already decoded, so its model has no such error; `DecodePacket` models that failure on its own.

## Findings

| source | as written | input that shows it | evidently intended | confidence | as-written member | corrected member |
|---|---|---|---|---|---|---|
| auto_lua/src/data_fetching.py:155,164 | `dp_reshape2LaneLVDS(raw_data)` has no `self`, so `self.dp_reshape2LaneLVDS(raw_data)` passes two arguments and raises TypeError | a 2-lane configuration with chirps=1, rx=1, samples=2 and raw frame [1, 2, 3, 4] | the 2-lane reshape applied to the raw frame, giving a (1, 1, 2) cube | not executed | LvdsLayout.GenerateFrameDataAsWritten, LvdsLayout.GenerateFrameDataAsWrittenFails | LvdsLayout.GenerateFrameData |
| auto_lua/src/data_fetching.py:86-87 | CONFIG_FPGA_GEN is sent with body c005350c0000, the packet-data body of line 91 | `configure()` sends 5a a5 03 00 06 00 c0 05 35 0c 00 00 aa ee | the body 01 02 01 02 03 1e that the comment at line 86 documents | not executed | CommandFrame.FpgaGenAsWritten | CommandFrame.FpgaGenCorrected |
| auto_lua/src/data_fetching.py:179 | `frame_complex.astype(np.single)` casts the complex cube to float32, which keeps only the real parts | 2 lanes, chirps=1, rx=1, samples=2: the raw frames [1, 2, 3, 4] and [1, 2, 5, 6] both give [[[1, 2]]] | the complex64 cube (`np.csingle`) holding I + jQ of every sample | not executed | LvdsLayout.GenerateFrameDataCast, LvdsLayout.GenerateFrameDataCastLosesQ | LvdsLayout.GenerateFrameData |
