/** The ISO 7816-4 command APDUs the NFC transport sends and the status
    words it checks. CTAP messages travel in NFCCTAP_MSG commands (CLA 80,
    INS 10), with a short length field up to 255 bytes of data and an
    extended one above. `ParseCommand` reads a command APDU back by the
    rules of section 5.1 of ISO/IEC 7816-4; it is the reference the
    builders here are checked against. */
module Apdu {
  import opened Results
  import opened Bytes

  /** A command APDU's fields. `data` is the command data field (empty
      when there is no Lc), and `ne` the maximum response length the Le
      field asks for (0 when there is no Le; an Le of zero asks for 256
      bytes in the short form and 65536 in the extended one). */
  datatype Command = Command(cla: byte, ins: byte, p1: byte, p2: byte, data: seq<byte>, ne: nat)

  /** The unsigned value of two bytes, most significant first. */
  function Word(hi: byte, lo: byte): (r: nat)
    ensures r < 0x1_0000
  {
    hi * 256 + lo
  }

  /** The maximum response length of an Le field: zero asks for the most
      the form allows. */
  function Ne(le: nat, most: nat): nat
  {
    if le == 0 then most else le
  }

  /** The command encoded by `apdu`, or `None` when the bytes after the
      four header bytes match none of the four cases of the standard, in
      short or extended form. */
  function ParseCommand(apdu: seq<byte>): (r: Option<Command>)
    ensures r.Some? ==> |apdu| >= 4 && |r.value.data| < 0x1_0000
  {
    if |apdu| < 4 then None
    else
      var body := apdu[4..];
      var cmd := (data: seq<byte>, ne: nat) => Command(apdu[0], apdu[1], apdu[2], apdu[3], data, ne);
      if |body| == 0 then
        Some(cmd([], 0))                                                  // case 1
      else if |body| == 1 then
        Some(cmd([], Ne(body[0], 256)))                                   // case 2, short
      else if body[0] != 0 then
        var n: nat := body[0];
        if |body| == 1 + n then Some(cmd(body[1..], 0))                   // case 3, short
        else if |body| == 2 + n then
          Some(cmd(body[1..1 + n], Ne(body[1 + n], 256)))                 // case 4, short
        else None
      else if |body| == 3 then
        Some(cmd([], Ne(Word(body[1], body[2]), 0x1_0000)))               // case 2, extended
      else if |body| < 3 then None
      else
        var n := Word(body[1], body[2]);
        if n == 0 then None
        else if |body| == 3 + n then Some(cmd(body[3..], 0))              // case 3, extended
        else if |body| == 5 + n then
          Some(cmd(body[3..3 + n], Ne(Word(body[3 + n], body[4 + n]), 0x1_0000)))  // case 4, extended
        else None
  }

  /** `buildApdu`: the NFCCTAP_MSG header, Lc, the CTAP message and an Le
      asking for the longest response. A message over 255 bytes gets the
      extended form, whose two length bytes keep only the low 16 bits of
      the size. */
  function BuildApdu(data: ByteArray): (r: seq<byte>)
    ensures |r| == |data| + (if |data| <= 255 then 6 else 9)
    ensures r[..4] == [0x80, 0x10, 0x00, 0x00]
    ensures r[|r| - |data| - (if |data| <= 255 then 1 else 2)..|r| - (if |data| <= 255 then 1 else 2)] == data
  {
    var n := |data|;
    if n <= 255 then [0x80, 0x10, 0x00, 0x00] + [n] + data + [0x00]
    else [0x80, 0x10, 0x00, 0x00] + [0x00, ToByte(n / 256), n % 256] + data + [0x00, 0x00]
  }

  /** A short case 4 frame: Lc = n (1 to 255), n data bytes, one Le byte. */
  lemma {:induction false} ParseShortCase4(apdu: seq<byte>)
    requires |apdu| >= 7 && apdu[4] == |apdu| - 6
    ensures ParseCommand(apdu) == Some(Command(apdu[0], apdu[1], apdu[2], apdu[3], apdu[5..|apdu| - 1], Ne(apdu[|apdu| - 1], 256)))
  {
    var body := apdu[4..];
    assert body[1..1 + body[0]] == apdu[5..|apdu| - 1];
    assert body[1 + body[0]] == apdu[|apdu| - 1];
  }

  /** An extended case 4 frame: 00, Lc = n (1 to 65535) in two bytes, n
      data bytes, two Le bytes. */
  lemma {:induction false} ParseExtendedCase4(apdu: seq<byte>)
    requires |apdu| >= 10 && apdu[4] == 0 && Word(apdu[5], apdu[6]) == |apdu| - 9
    ensures ParseCommand(apdu) == Some(Command(apdu[0], apdu[1], apdu[2], apdu[3], apdu[7..|apdu| - 2],
                                               Ne(Word(apdu[|apdu| - 2], apdu[|apdu| - 1]), 0x1_0000)))
  {
    var body := apdu[4..];
    var n := Word(body[1], body[2]);
    assert body[3..3 + n] == apdu[7..|apdu| - 2];
    assert body[3 + n] == apdu[|apdu| - 2] && body[4 + n] == apdu[|apdu| - 1];
  }

  /** A non-empty CTAP message of up to 255 bytes travels in a short
      case 4 command asking for up to 256 response bytes. */
  lemma {:induction false} ShortApduParses(data: ByteArray)
    requires 1 <= |data| <= 255
    ensures BuildApdu(data)[4] == |data|
    ensures ParseCommand(BuildApdu(data)) == Some(Command(0x80, 0x10, 0x00, 0x00, data, 256))
  {
    var r := BuildApdu(data);
    assert r == [0x80, 0x10, 0x00, 0x00, |data|] + data + [0x00];
    assert r[5..|r| - 1] == data;
    ParseShortCase4(r);
  }

  /** The two extended length bytes `buildApdu` writes. */
  lemma {:induction false} LengthBytes(n: nat)
    ensures ToByte(n / 256) == (n / 256) % 256
    ensures Word(ToByte(n / 256), n % 256) == n % 0x1_0000
  {
    var q, lo := n / 256, n % 256;
    var top, hi := q / 256, q % 256;
    assert ToByte(q) == hi;
    assert n == 0x1_0000 * top + (hi * 256 + lo);
    assert 0 <= hi * 256 + lo < 0x1_0000;
    assert n % 0x1_0000 == hi * 256 + lo;
  }

  /** A CTAP message of 256 to 65535 bytes travels in an extended case 4
      command whose Lc is `00`, the size high byte, the size low byte, and
      which asks for up to 65536 response bytes. */
  lemma {:induction false} ExtendedApduParses(data: ByteArray)
    requires 256 <= |data| <= 0xFFFF
    ensures BuildApdu(data)[4..7] == [0x00, |data| / 256, |data| % 256]
    ensures ParseCommand(BuildApdu(data)) == Some(Command(0x80, 0x10, 0x00, 0x00, data, 0x1_0000))
  {
    var n := |data|;
    LengthBytes(n);
    var r := BuildApdu(data);
    assert r == [0x80, 0x10, 0x00, 0x00] + [0x00, n / 256, n % 256] + data + [0x00, 0x00];
    assert r[4..7] == [0x00, n / 256, n % 256];
    assert r[7..|r| - 2] == data;
    ParseExtendedCase4(r);
  }

  /** An empty message gets Lc = 00, which no case of the standard allows:
      the frame `80 10 00 00 00 00` is not a well-formed command. */
  lemma {:induction false} EmptyApduMalformed()
    ensures BuildApdu([]) == [0x80, 0x10, 0x00, 0x00, 0x00, 0x00]
    ensures ParseCommand(BuildApdu([])).None?
  {
  }

  /** Above 65535 bytes the length field wraps, so the frame never
      announces the message that follows it. */
  lemma {:induction false} OverlongApduWraps(data: ByteArray)
    requires |data| > 0xFFFF
    ensures Word(BuildApdu(data)[5], BuildApdu(data)[6]) == |data| % 0x1_0000
    ensures ParseCommand(BuildApdu(data)) != Some(Command(0x80, 0x10, 0x00, 0x00, data, 0x1_0000))
  {
    LengthBytes(|data|);
  }

  /** `isSuccess`: the response ends with status word 90 00. */
  predicate IsSuccess(response: seq<byte>)
  {
    |response| >= 2 && response[|response| - 2] == 0x90 && response[|response| - 1] == 0x00
  }

  /** A response is a success exactly when it is some payload followed by
      90 00. */
  lemma {:induction false} SuccessIsTrailer(response: seq<byte>)
    ensures IsSuccess(response) <==> exists payload: seq<byte> :: response == payload + [0x90, 0x00]
  {
    if IsSuccess(response) {
      var payload := response[..|response| - 2];
      assert response == payload + [0x90, 0x00];
    }
    if exists payload: seq<byte> :: response == payload + [0x90, 0x00] {
      var payload: seq<byte> :| response == payload + [0x90, 0x00];
      assert response[|response| - 2..] == [0x90, 0x00];
    }
  }

  /** The FIDO applet identifier, A0 00 00 06 47 2F 00 01. */
  const FIDO_AID: seq<byte> := [0xA0, 0x00, 0x00, 0x06, 0x47, 0x2F, 0x00, 0x01]

  /** `SELECT_FIDO_APPLET`, the fixed 14-byte command. */
  const SELECT_FIDO_APPLET: seq<byte> := [0x00, 0xA4, 0x04, 0x00, 0x08, 0xA0, 0x00, 0x00, 0x06, 0x47, 0x2F, 0x00, 0x01, 0x00]

  /** The SELECT command is a SELECT by name (INS A4, P1 04) of the FIDO
      applet, asking for up to 256 response bytes. */
  lemma {:induction false} SelectFidoAppletParses()
    ensures |SELECT_FIDO_APPLET| == 14
    ensures ParseCommand(SELECT_FIDO_APPLET) == Some(Command(0x00, 0xA4, 0x04, 0x00, FIDO_AID, 256))
  {
    assert SELECT_FIDO_APPLET[4..][1..9] == FIDO_AID;
  }

  /** The GET RESPONSE command sent after a 61xx status: `00 C0 00 00`
      with the announced remaining length as Le. */
  function GetResponse(sw2: byte): (r: seq<byte>)
    ensures |r| == 5 && r[4] == sw2
  {
    [0x00, 0xC0, 0x00, 0x00, sw2]
  }

  /** GET RESPONSE is a short case 2 command asking for `sw2` bytes, where
      `00` asks for 256. */
  lemma {:induction false} GetResponseParses(sw2: byte)
    ensures ParseCommand(GetResponse(sw2)) == Some(Command(0x00, 0xC0, 0x00, 0x00, [], if sw2 == 0 then 256 else sw2))
  {
    assert GetResponse(sw2)[4..] == [sw2];
  }
}
