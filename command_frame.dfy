/**
 * Control frames of the DCA1000 configuration channel, as `DCA1000.send_command`
 * builds them: the hex text header ++ command code ++ body length ++ body ++ footer,
 * decoded to bytes by the 'hex' codec.
 */
module CommandFrame {
  import opened Wrappers
  import opened ByteCodec

  /** The `CMD` enumeration. */
  datatype Cmd =
    | ResetFpga | ResetArDev | ConfigFpgaGen | ConfigEeprom | RecordStart | RecordStop
    | PlaybackStart | PlaybackStop | SystemConnect | SystemError | ConfigPacketData
    | ConfigDataModeArDev | InitFpgaPlayback | ReadFpgaVersion

  /** `str(cmd)`: the enumeration value, a 16-bit command number as little-endian hex text. */
  function CodeText(cmd: Cmd): (s: string)
    ensures |s| == 4 && s[2..] == "00"
  {
    match cmd
    case ResetFpga => "0100"
    case ResetArDev => "0200"
    case ConfigFpgaGen => "0300"
    case ConfigEeprom => "0400"
    case RecordStart => "0500"
    case RecordStop => "0600"
    case PlaybackStart => "0700"
    case PlaybackStop => "0800"
    case SystemConnect => "0900"
    case SystemError => "0a00"
    case ConfigPacketData => "0b00"
    case ConfigDataModeArDev => "0c00"
    case InitFpgaPlayback => "0d00"
    case ReadFpgaVersion => "0e00"
  }

  /** The protocol's number for each command, in the order the enumeration declares them. */
  function CodeNumber(cmd: Cmd): (n: nat)
    ensures 1 <= n <= 14
  {
    match cmd
    case ResetFpga => 1
    case ResetArDev => 2
    case ConfigFpgaGen => 3
    case ConfigEeprom => 4
    case RecordStart => 5
    case RecordStop => 6
    case PlaybackStart => 7
    case PlaybackStop => 8
    case SystemConnect => 9
    case SystemError => 10
    case ConfigPacketData => 11
    case ConfigDataModeArDev => 12
    case InitFpgaPlayback => 13
    case ReadFpgaVersion => 14
  }

  /** Every code text decodes to two bytes, the command's number little-endian. */
  lemma CodeTextBytes(cmd: Cmd)
    ensures HexDecode(CodeText(cmd)) == Some([CodeNumber(cmd), 0])
    ensures LittleEndian([CodeNumber(cmd), 0]) == CodeNumber(cmd)
  {
    var n := CodeNumber(cmd);
    var text := CodeText(cmd);
    assert |text| == 4 && text[2] == '0' && text[3] == '0';
    assert IsHexDigit(text[0]) && IsHexDigit(text[1]);
    assert 16 * HexValue(text[0]) + HexValue(text[1]) == n;
    HexDecodeIs(text, [n, 0]);
    assert [n, 0][1..] == [0];
    assert [n, 0][1..][1..] == [];
  }

  /** Distinct commands have distinct codes. */
  lemma CodeTextInjective(cmd: Cmd, other: Cmd)
    ensures CodeText(cmd) == CodeText(other) ==> cmd == other
  {
    CodeTextBytes(cmd);
    CodeTextBytes(other);
  }

  /**
   * The message `send_command(cmd, length, body)` sends, with the configured
   * header and footer; None where `codecs.decode` raises (odd length or a
   * character that is not a hex digit).
   */
  function CommandMessage(header: string, cmd: Cmd, length: string, body: string, footer: string): (msg: Option<seq<Byte>>)
    ensures msg.Some? ==> 2 * |msg.value| == |header| + |CodeText(cmd)| + |length| + |body| + |footer|
  {
    HexDecode(header + CodeText(cmd) + length + body + footer)
  }

  /** With even-length parts, the message is the parts' bytes in order, and it exists exactly when every part decodes. */
  lemma CommandParts(header: string, cmd: Cmd, length: string, body: string, footer: string)
    requires |header| % 2 == 0 && |length| % 2 == 0 && |body| % 2 == 0
    ensures CommandMessage(header, cmd, length, body, footer).Some? <==>
      HexDecode(header).Some? && HexDecode(length).Some? && HexDecode(body).Some? && HexDecode(footer).Some?
    ensures CommandMessage(header, cmd, length, body, footer).Some? ==>
      CommandMessage(header, cmd, length, body, footer).value ==
        HexDecode(header).value + [CodeNumber(cmd), 0] + HexDecode(length).value
        + HexDecode(body).value + HexDecode(footer).value
  {
    var code := CodeText(cmd);
    CodeTextBytes(cmd);
    assert HexDecode(code) == Some([CodeNumber(cmd), 0]) && |code| == 4;
    HexDecodeJoin(header, code, length, body, footer);
  }

  /** The header and footer the board expects, as the byte examples beside `configure` show them. */
  const DCA_HEADER: string := "5aa5"
  const DCA_FOOTER: string := "aaee"

  /** The default arguments of `send_command`: length '0000' and an empty body. */
  const NO_LENGTH: string := "0000"
  const NO_BODY: string := ""

  /** The 6-byte body `configure` sends with CONFIG_PACKET_DATA (packet size 0x05c0, delay 0x0c35). */
  const PACKET_DATA_BODY: string := "c005350c0000"
  /** The 6-byte body documented for CONFIG_FPGA_GEN in the comment of `configure`. */
  const FPGA_GEN_BODY: string := "01020102031e"
  /** The length field `configure` sends with both 6-byte bodies. */
  const SIX_BYTES: string := "0600"

  lemma HeaderBytes() ensures HexDecode(DCA_HEADER) == Some([0x5a, 0xa5]) { HexDecodeIs(DCA_HEADER, [0x5a, 0xa5]); }
  lemma FooterBytes() ensures HexDecode(DCA_FOOTER) == Some([0xaa, 0xee]) { HexDecodeIs(DCA_FOOTER, [0xaa, 0xee]); }
  lemma SixBytesBytes() ensures HexDecode(SIX_BYTES) == Some([0x06, 0x00]) { HexDecodeIs(SIX_BYTES, [0x06, 0x00]); }
  lemma PacketDataBodyBytes() ensures HexDecode(PACKET_DATA_BODY) == Some([0xc0, 0x05, 0x35, 0x0c, 0x00, 0x00]) {
    HexDecodeIs(PACKET_DATA_BODY, [0xc0, 0x05, 0x35, 0x0c, 0x00, 0x00]);
  }
  lemma FpgaGenBodyBytes() ensures HexDecode(FPGA_GEN_BODY) == Some([0x01, 0x02, 0x01, 0x02, 0x03, 0x1e]) {
    HexDecodeIs(FPGA_GEN_BODY, [0x01, 0x02, 0x01, 0x02, 0x03, 0x1e]);
  }

  /** A message built from parts that each decode is those parts' bytes around the two code bytes. */
  lemma {:induction false} FramedMessage(header: string, cmd: Cmd, length: string, body: string, footer: string,
                                         headerBytes: seq<Byte>, lengthBytes: seq<Byte>, bodyBytes: seq<Byte>, footerBytes: seq<Byte>)
    requires HexDecode(header) == Some(headerBytes) && HexDecode(length) == Some(lengthBytes)
    requires HexDecode(body) == Some(bodyBytes) && HexDecode(footer) == Some(footerBytes)
    ensures CommandMessage(header, cmd, length, body, footer) ==
      Some(headerBytes + [CodeNumber(cmd), 0x00] + lengthBytes + bodyBytes + footerBytes)
  {
    CommandParts(header, cmd, length, body, footer);
  }

  /** A message with the board's header and footer around a code, a length field and a body. */
  lemma FramedBytes(cmd: Cmd, length: string, body: string, lengthBytes: seq<Byte>, bodyBytes: seq<Byte>)
    requires HexDecode(length) == Some(lengthBytes) && HexDecode(body) == Some(bodyBytes)
    ensures CommandMessage(DCA_HEADER, cmd, length, body, DCA_FOOTER) ==
      Some([0x5a, 0xa5, CodeNumber(cmd), 0x00] + lengthBytes + bodyBytes + [0xaa, 0xee])
  {
    HeaderBytes();
    FooterBytes();
    FramedMessage(DCA_HEADER, cmd, length, body, DCA_FOOTER, [0x5a, 0xa5], lengthBytes, bodyBytes, [0xaa, 0xee]);
    assert [0x5a, 0xa5] + [CodeNumber(cmd), 0x00] == [0x5a, 0xa5, CodeNumber(cmd), 0x00];
  }

  /** The message of a command sent with the default length and body. */
  lemma BareCommandBytes(cmd: Cmd)
    ensures CommandMessage(DCA_HEADER, cmd, NO_LENGTH, NO_BODY, DCA_FOOTER) ==
      Some([0x5a, 0xa5, CodeNumber(cmd), 0x00, 0x00, 0x00, 0xaa, 0xee])
  {
    HexDecodeIs(NO_LENGTH, [0x00, 0x00]);
    HexDecodeIs(NO_BODY, []);
    FramedBytes(cmd, NO_LENGTH, NO_BODY, [0x00, 0x00], []);
    var n := CodeNumber(cmd);
    assert [0x5a, 0xa5, n, 0x00] + [0x00, 0x00] + [] + [0xaa, 0xee] == [0x5a, 0xa5, n, 0x00, 0x00, 0x00, 0xaa, 0xee];
  }

  /** SYSTEM_CONNECT is 5a a5 09 00 00 00 aa ee, READ_FPGA_VERSION 5a a5 0e 00 00 00 aa ee, RECORD_STOP 5a a5 06 00 00 00 aa ee. */
  lemma DocumentedBareCommands()
    ensures CommandMessage(DCA_HEADER, SystemConnect, NO_LENGTH, NO_BODY, DCA_FOOTER) ==
      Some([0x5a, 0xa5, 0x09, 0x00, 0x00, 0x00, 0xaa, 0xee])
    ensures CommandMessage(DCA_HEADER, ReadFpgaVersion, NO_LENGTH, NO_BODY, DCA_FOOTER) ==
      Some([0x5a, 0xa5, 0x0e, 0x00, 0x00, 0x00, 0xaa, 0xee])
    ensures CommandMessage(DCA_HEADER, RecordStop, NO_LENGTH, NO_BODY, DCA_FOOTER) ==
      Some([0x5a, 0xa5, 0x06, 0x00, 0x00, 0x00, 0xaa, 0xee])
  {
    BareCommandBytes(SystemConnect);
    BareCommandBytes(ReadFpgaVersion);
    BareCommandBytes(RecordStop);
  }

  /** The length field '0600' is the little-endian count of the bytes of either 6-byte body. */
  lemma LengthFieldMatchesBodies()
    ensures HexDecode(SIX_BYTES).Some? && LittleEndian(HexDecode(SIX_BYTES).value) == 6
    ensures HexDecode(PACKET_DATA_BODY).Some? && |HexDecode(PACKET_DATA_BODY).value| == 6
    ensures HexDecode(FPGA_GEN_BODY).Some? && |HexDecode(FPGA_GEN_BODY).value| == 6
  {
    SixBytesBytes();
    assert [6, 0][1..] == [0];
    assert [6, 0][1..][1..] == [];
    PacketDataBodyBytes();
    FpgaGenBodyBytes();
  }

  /** CONFIG_PACKET_DATA with its body is 5a a5 0b 00 06 00 c0 05 35 0c 00 00 aa ee. */
  lemma PacketDataCommandBytes()
    ensures CommandMessage(DCA_HEADER, ConfigPacketData, SIX_BYTES, PACKET_DATA_BODY, DCA_FOOTER) ==
      Some([0x5a, 0xa5, 0x0b, 0x00, 0x06, 0x00, 0xc0, 0x05, 0x35, 0x0c, 0x00, 0x00, 0xaa, 0xee])
  {
    SixBytesBytes();
    PacketDataBodyBytes();
    FramedBytes(ConfigPacketData, SIX_BYTES, PACKET_DATA_BODY, [0x06, 0x00], [0xc0, 0x05, 0x35, 0x0c, 0x00, 0x00]);
    var head: seq<Byte> := [0x5a, 0xa5, 0x0b, 0x00] + [0x06, 0x00];
    assert head == [0x5a, 0xa5, 0x0b, 0x00, 0x06, 0x00];
    var withBody: seq<Byte> := head + [0xc0, 0x05, 0x35, 0x0c, 0x00, 0x00];
    assert withBody == [0x5a, 0xa5, 0x0b, 0x00, 0x06, 0x00, 0xc0, 0x05, 0x35, 0x0c, 0x00, 0x00];
    assert withBody + [0xaa, 0xee] == [0x5a, 0xa5, 0x0b, 0x00, 0x06, 0x00, 0xc0, 0x05, 0x35, 0x0c, 0x00, 0x00, 0xaa, 0xee];
  }

  /**
   * As written, `configure` sends CONFIG_FPGA_GEN with the packet-data body, so the
   * frame on the wire is not the one its comment documents.
   */
  lemma FpgaGenAsWritten()
    ensures CommandMessage(DCA_HEADER, ConfigFpgaGen, SIX_BYTES, PACKET_DATA_BODY, DCA_FOOTER) ==
      Some([0x5a, 0xa5, 0x03, 0x00, 0x06, 0x00, 0xc0, 0x05, 0x35, 0x0c, 0x00, 0x00, 0xaa, 0xee])
    ensures CommandMessage(DCA_HEADER, ConfigFpgaGen, SIX_BYTES, PACKET_DATA_BODY, DCA_FOOTER) !=
      Some([0x5a, 0xa5, 0x03, 0x00, 0x06, 0x00, 0x01, 0x02, 0x01, 0x02, 0x03, 0x1e, 0xaa, 0xee])
  {
    SixBytesBytes();
    PacketDataBodyBytes();
    FramedBytes(ConfigFpgaGen, SIX_BYTES, PACKET_DATA_BODY, [0x06, 0x00], [0xc0, 0x05, 0x35, 0x0c, 0x00, 0x00]);
    assert [0x5a, 0xa5, 0x03, 0x00] + [0x06, 0x00] + [0xc0, 0x05, 0x35, 0x0c, 0x00, 0x00] + [0xaa, 0xee] == [0x5a, 0xa5, 0x03, 0x00, 0x06, 0x00, 0xc0, 0x05, 0x35, 0x0c, 0x00, 0x00, 0xaa, 0xee];
    var sent := [0x5a, 0xa5, 0x03, 0x00, 0x06, 0x00, 0xc0, 0x05, 0x35, 0x0c, 0x00, 0x00, 0xaa, 0xee];
    assert sent[6] == 0xc0;
  }

  /** With the documented body, CONFIG_FPGA_GEN is 5a a5 03 00 06 00 01 02 01 02 03 1e aa ee. */
  lemma FpgaGenCorrected()
    ensures CommandMessage(DCA_HEADER, ConfigFpgaGen, SIX_BYTES, FPGA_GEN_BODY, DCA_FOOTER) ==
      Some([0x5a, 0xa5, 0x03, 0x00, 0x06, 0x00, 0x01, 0x02, 0x01, 0x02, 0x03, 0x1e, 0xaa, 0xee])
  {
    SixBytesBytes();
    FpgaGenBodyBytes();
    FramedBytes(ConfigFpgaGen, SIX_BYTES, FPGA_GEN_BODY, [0x06, 0x00], [0x01, 0x02, 0x01, 0x02, 0x03, 0x1e]);
    assert [0x5a, 0xa5, 0x03, 0x00] + [0x06, 0x00] + [0x01, 0x02, 0x01, 0x02, 0x03, 0x1e] + [0xaa, 0xee] == [0x5a, 0xa5, 0x03, 0x00, 0x06, 0x00, 0x01, 0x02, 0x01, 0x02, 0x03, 0x1e, 0xaa, 0xee];
  }

  /**
   * The four frames `configure` sends, in order: SYSTEM_CONNECT, READ_FPGA_VERSION,
   * CONFIG_FPGA_GEN (with the documented body) and CONFIG_PACKET_DATA.
   */
  function ConfigureMessages(header: string, footer: string): (ms: seq<Option<seq<Byte>>>)
    ensures |ms| == 4
  {
    [
      CommandMessage(header, SystemConnect, NO_LENGTH, NO_BODY, footer),
      CommandMessage(header, ReadFpgaVersion, NO_LENGTH, NO_BODY, footer),
      CommandMessage(header, ConfigFpgaGen, SIX_BYTES, FPGA_GEN_BODY, footer),
      CommandMessage(header, ConfigPacketData, SIX_BYTES, PACKET_DATA_BODY, footer)
    ]
  }

  /**
   * With the board's header and footer and the documented CONFIG_FPGA_GEN body, the
   * four frames of `configure` are exactly those its comments document.
   */
  lemma ConfigureFrames()
    ensures ConfigureMessages(DCA_HEADER, DCA_FOOTER) == [
        Some([0x5a, 0xa5, 0x09, 0x00, 0x00, 0x00, 0xaa, 0xee]),
        Some([0x5a, 0xa5, 0x0e, 0x00, 0x00, 0x00, 0xaa, 0xee]),
        Some([0x5a, 0xa5, 0x03, 0x00, 0x06, 0x00, 0x01, 0x02, 0x01, 0x02, 0x03, 0x1e, 0xaa, 0xee]),
        Some([0x5a, 0xa5, 0x0b, 0x00, 0x06, 0x00, 0xc0, 0x05, 0x35, 0x0c, 0x00, 0x00, 0xaa, 0xee])
      ]
  {
    DocumentedBareCommands();
    FpgaGenCorrected();
    PacketDataCommandBytes();
  }
}
