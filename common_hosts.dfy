/**
  The host-status byte and the tagged command datagrams of the common crate
  (`common/src/hosts.rs`).

  Bit masks on a status byte are written as arithmetic on its value:
  `v & 0b1100_0000` is `v / 64 * 64`, and a single bit k is `(v / 2^k) % 2`.
 */
module CommonHosts {
  import opened Wire
  import opened Positions

  const MAIN_PORT: nat := 0xdddd
  const ORGANIZER_STARTER_PORT: nat := 0xdddb

  // host_type, state and masks of a status reply
  const CONFIGLESS: byte := 0x80
  const CLIENT: byte := 0x40
  const SERVER: byte := 0xC0
  const RUNNING: byte := 0x20
  const IDLE: byte := 0x00
  const CALIBRATED: byte := 0x10

  datatype HostType = Client(calibrated: bool) | ConfiglessClient | Server
  datatype HostState = Unreachable | Running | Idle
  datatype HostInfo = HostInfo(hostState: HostState, hostType: HostType)

  /** `v & masks::HOST_TYPE` */
  function HostTypeBits(v: byte): byte { v / 64 * 64 }
  /** `v & masks::STATE` */
  function StateBit(v: byte): byte { (v / 32) % 2 * 32 }
  /** `v & masks::CALIBRATED` */
  function CalibratedBit(v: byte): byte { (v / 16) % 2 * 16 }

  /** The two type bits of each host type. */
  function TypeCode(t: HostType): nat {
    match t
    case Client(_) => 1
    case ConfiglessClient => 2
    case Server => 3
  }

  /** `TryInto<u8> for HostInfo`: type bits, the calibrated bit (clients
      only) and the state bit; an Unreachable host has no encoding. */
  function EncodeHostInfo(info: HostInfo): (r: Option<byte>)
    ensures r.None? <==> info.hostState == Unreachable
    ensures r.Some? ==> r.value / 64 == TypeCode(info.hostType)
    ensures r.Some? ==> (StateBit(r.value) != 0 <==> info.hostState == Running)
    ensures r.Some? ==> (CalibratedBit(r.value) != 0 <==> info.hostType == Client(true))
    ensures r.Some? ==> r.value % 16 == 0
  {
    var typeBits: byte := match info.hostType
      case Client(calibrated) => CLIENT + (if calibrated then CALIBRATED else 0)
      case ConfiglessClient => CONFIGLESS
      case Server => SERVER;
    match info.hostState
    case Unreachable => None
    case Running => Some(typeBits + RUNNING)
    case Idle => Some(typeBits + IDLE)
  }

  /** `TryFrom<u8> for HostInfo` */
  function DecodeHostInfo(v: byte): (r: Option<HostInfo>)
    ensures r.None? <==> v / 64 == 0
    ensures r.Some? ==> TypeCode(r.value.hostType) == v / 64
    ensures r.Some? ==> r.value.hostState == (if StateBit(v) != 0 then Running else Idle)
    ensures r.Some? && r.value.hostType.Client? ==> (r.value.hostType.calibrated <==> CalibratedBit(v) != 0)
  {
    var t := HostTypeBits(v);
    if t != CONFIGLESS && t != CLIENT && t != SERVER then None
    else
      var hostType := if t == CONFIGLESS then ConfiglessClient else if t == CLIENT then Client(CalibratedBit(v) != 0) else Server;
      var hostState := if StateBit(v) == RUNNING then Running else Idle;
      Some(HostInfo(hostState, hostType))
  }

  /** Every reachable host decodes back from its byte. */
  lemma HostInfoRoundTrip(info: HostInfo)
    requires info.hostState != Unreachable
    ensures DecodeHostInfo(EncodeHostInfo(info).value) == Some(info)
  {
  }

  /** The converse: exactly the bytes with non-zero type bits, clear low
      nibble, and the calibrated bit clear unless the type is Client, are
      encodings of the host they decode to. */
  lemma EncodedBytes(v: byte)
    ensures (DecodeHostInfo(v).Some? && EncodeHostInfo(DecodeHostInfo(v).value) == Some(v))
        <==> (v / 64 != 0 && v % 16 == 0 && (v / 64 != 1 ==> CalibratedBit(v) == 0))
  {
  }

  /** Bits 3-0 are ignored, and bit 4 is read only for a Client. */
  lemma DecodeIgnoredBits(v: byte)
    ensures DecodeHostInfo(v) == DecodeHostInfo(v - v % 16)
    ensures v / 64 != 1 ==> DecodeHostInfo(v) == DecodeHostInfo(v - CalibratedBit(v))
  {
  }

  // ------------------------------------------------------------- commands

  const PING: byte := 0x0b
  const CONNECT: byte := 0xcc
  const CLIENT_DISCONNECT: byte := 0xdc
  const START: byte := 0x60
  const START_SERVER: byte := 0x55
  const START_CONFIGLESS: byte := 0x6c
  const STOP: byte := 0xcd
  const REQUEST_IMAGE: byte := 0x17
  const IMAGES_DONE: byte := 0x1d
  const VALUE_UPDATE: byte := 0x21
  const INFO_UPDATE: byte := 0x1f

  /** The eleven command constants are pairwise distinct. */
  lemma CommandConstantsDistinct()
    ensures |{PING, CONNECT, CLIENT_DISCONNECT, START, START_SERVER, START_CONFIGLESS, STOP,
              REQUEST_IMAGE, IMAGES_DONE, VALUE_UPDATE, INFO_UPDATE}| == 11
  {
  }

  type Cube = s: Bytes | |s| == 4 witness [0, 0, 0, 0]

  datatype ClientData = ClientData(xPosition: F64, markerId: byte)

  /** A command; the IP fields hold the UTF-8 bytes of a `&str`. */
  datatype Command =
    | Ping
    | Connect(position: Position, fov: F64)
    | ClientDisconnect
    | Start
    | StartServer(cube: Cube)
    | StartConfigless(ip: Bytes)
    | Stop
    | RequestImage
    | ImagesDone
    | ValueUpdate(data: ClientData)
    | InfoUpdate(clientIp: Bytes, position: Position, fovUpdate: Option<F64>)

  /** The text fields are the bytes of a Rust string (valid UTF-8) whose
      length fits the u16 length prefix. */
  predicate WellFormed(c: Command) {
    match c
    case StartConfigless(ip) => |ip| < 65536 && ValidUtf8(ip)
    case InfoUpdate(ip, _, _) => |ip| < 65536 && ValidUtf8(ip)
    case _ => true
  }

  predicate IsSingleByte(c: Command) {
    c.Ping? || c.ClientDisconnect? || c.Start? || c.Stop? || c.RequestImage? || c.ImagesDone?
  }

  /** The tag byte of every command that starts with one. */
  function Tag(c: Command): byte
    requires !c.InfoUpdate?
  {
    match c
    case Ping => PING
    case Connect(_, _) => CONNECT
    case ClientDisconnect => CLIENT_DISCONNECT
    case Start => START
    case StartServer(_) => START_SERVER
    case StartConfigless(_) => START_CONFIGLESS
    case Stop => STOP
    case RequestImage => REQUEST_IMAGE
    case ImagesDone => IMAGES_DONE
    case ValueUpdate(_) => VALUE_UPDATE
  }

  /** The body of the InfoUpdate encoder: the IP length and IP come before
      the tag byte. */
  function EncodeInfoUpdate(clientIp: Bytes, position: Position, fov: Option<F64>): (r: Bytes)
    ensures |r| == 2 + |clientIp| + 1 + 24 + 1 + (if fov.Some? then 8 else 0)
    ensures r[..2] == U16ToBytes(|clientIp|) && r[2..2 + |clientIp|] == clientIp
    ensures r[2 + |clientIp|] == INFO_UPDATE
  {
    U16ToBytes(|clientIp|) + clientIp + [INFO_UPDATE] + ToBeBytes(position)
    + [if fov.Some? then 1 else 0] + (if fov.Some? then F64ToBytes(fov.value) else [])
  }

  /** `From<Command> for Vec<u8>` */
  function Encode(c: Command): (r: Bytes)
    ensures !c.InfoUpdate? ==> |r| >= 1 && r[0] == Tag(c)
    ensures IsSingleByte(c) ==> |r| == 1
    ensures c.Connect? ==> |r| == 33
    ensures c.StartServer? ==> |r| == 5
    ensures c.StartConfigless? ==> |r| == 3 + |c.ip|
    ensures c.ValueUpdate? ==> |r| == 10
  {
    match c
    case Connect(position, fov) => [CONNECT] + ToBeBytes(position) + F64ToBytes(fov)
    case StartServer(cube) => [START_SERVER] + cube
    case StartConfigless(ip) => [START_CONFIGLESS] + U16ToBytes(|ip|) + ip
    case ValueUpdate(ClientData(x, marker)) => [VALUE_UPDATE, marker] + F64ToBytes(x)
    case InfoUpdate(ip, position, fov) => EncodeInfoUpdate(ip, position, fov)
    case _ => [Tag(c)]
  }

  /** What `TryFrom<&[u8]> for Command` does with a buffer. */
  datatype Decoded = Decoded(cmd: Command) | Rejected | Panicked

  /** The InfoUpdate arm of the decoder, after the tag byte. It panics on an
      IP that is not UTF-8 (`unwrap`); otherwise it fails, because a 26-byte
      slice never converts into the 24-byte position array. */
  function DecodeInfoUpdate(rest: Bytes): (r: Decoded)
    ensures !r.Decoded?
    ensures r.Panicked? <==>
      (|rest| >= 2 && |rest| >= 2 + U16FromBytes(rest[..2]) && !ValidUtf8(rest[2..2 + U16FromBytes(rest[..2])]))
  {
    if |rest| < 2 then Rejected
    else
      var ipLen := U16FromBytes(rest[..2]);
      if |rest| < 2 + ipLen then Rejected
      else if !ValidUtf8(rest[2..2 + ipLen]) then Panicked
      else if |rest| < 26 then Rejected  // buf.get(..26)?
      else Rejected                      // <[u8; 24]>::try_from of 26 bytes
  }

  /** The ValueUpdate arm: the marker id, then the x position. */
  function DecodeValueUpdate(rest: Bytes): (r: Decoded)
    ensures r.Decoded? ==> r.cmd.ValueUpdate?
    ensures r.Rejected? <==> |rest| < 9
  {
    if |rest| < 9 then Rejected
    else Decoded(ValueUpdate(ClientData(F64FromBytes(rest[1..9]), rest[0])))
  }

  /** The Connect arm: the position, then the fov. */
  function DecodeConnect(rest: Bytes): (r: Decoded)
    ensures r.Decoded? ==> r.cmd.Connect?
    ensures r.Rejected? <==> |rest| < 32
  {
    if |rest| < 32 then Rejected
    else Decoded(Connect(FromBeBytes(rest[..24]), F64FromBytes(rest[24..32])))
  }

  /** The StartConfigless arm: a u16 length, then that many bytes of UTF-8. */
  function DecodeStartConfigless(rest: Bytes): (r: Decoded)
    ensures r.Decoded? ==> r.cmd.StartConfigless? && WellFormed(r.cmd)
    ensures !r.Panicked?
  {
    if |rest| < 2 then Rejected
    else
      var ipLen := U16FromBytes(rest[..2]);
      if |rest| < 2 + ipLen || !ValidUtf8(rest[2..2 + ipLen]) then Rejected
      else Decoded(StartConfigless(rest[2..2 + ipLen]))
  }

  /** The StartServer arm: the four cube bytes. */
  function DecodeStartServer(rest: Bytes): (r: Decoded)
    ensures r.Decoded? ==> r.cmd.StartServer?
    ensures r.Rejected? <==> |rest| < 4
  {
    if |rest| < 4 then Rejected else Decoded(StartServer(rest[..4]))
  }

  /** The decoder's dispatch on the tag byte `cmd`; `rest` is the buffer
      without it. */
  function DecodeTagged(cmd: byte, rest: Bytes): (r: Decoded)
    ensures r.Decoded? ==> !r.cmd.InfoUpdate? && Tag(r.cmd) == cmd && WellFormed(r.cmd)
    ensures r.Panicked? ==> cmd == INFO_UPDATE
  {
    if cmd == PING then Decoded(Ping)
    else if cmd == START then Decoded(Start)
    else if cmd == STOP then Decoded(Stop)
    else if cmd == REQUEST_IMAGE then Decoded(RequestImage)
    else if cmd == IMAGES_DONE then Decoded(ImagesDone)
    else if cmd == CLIENT_DISCONNECT then Decoded(ClientDisconnect)
    else if cmd == VALUE_UPDATE then DecodeValueUpdate(rest)
    else if cmd == CONNECT then DecodeConnect(rest)
    else if cmd == INFO_UPDATE then DecodeInfoUpdate(rest)
    else if cmd == START_CONFIGLESS then DecodeStartConfigless(rest)
    else if cmd == START_SERVER then DecodeStartServer(rest)
    else Rejected
  }

  /** `TryFrom<&[u8]> for Command` */
  function Decode(buf: Bytes): (r: Decoded)
    ensures |buf| == 0 ==> r == Rejected
    ensures r.Decoded? ==> |buf| >= 1 && !r.cmd.InfoUpdate? && Tag(r.cmd) == buf[0] && WellFormed(r.cmd)
    ensures r.Panicked? ==> |buf| >= 1 && buf[0] == INFO_UPDATE
  {
    if |buf| < 1 then Rejected else DecodeTagged(buf[0], buf[1..])
  }

  lemma DecodeAfterTag(cmd: byte, rest: Bytes)
    ensures Decode([cmd] + rest) == DecodeTagged(cmd, rest)
  {
    assert ([cmd] + rest)[1..] == rest;
  }

  predicate IsCommandByte(b: byte) {
    b in {PING, CONNECT, CLIENT_DISCONNECT, START, START_SERVER, START_CONFIGLESS, STOP,
          REQUEST_IMAGE, IMAGES_DONE, VALUE_UPDATE, INFO_UPDATE}
  }

  /** A buffer that starts with no command constant is rejected. */
  lemma UnknownByteRejected(buf: Bytes)
    requires |buf| >= 1 && !IsCommandByte(buf[0])
    ensures Decode(buf) == Rejected
  {
  }

  /** Every command but InfoUpdate decodes back from its encoding, whatever
      bytes follow it. */
  lemma RoundTrip(c: Command, extra: Bytes)
    requires WellFormed(c) && !c.InfoUpdate?
    ensures Decode(Encode(c) + extra) == Decoded(c)
  {
    if c.Connect? {
      ConnectRoundTrip(c.position, c.fov, extra);
    } else if c.StartServer? {
      StartServerRoundTrip(c.cube, extra);
    } else if c.StartConfigless? {
      StartConfiglessRoundTrip(c.ip, extra);
    } else if c.ValueUpdate? {
      ValueUpdateRoundTrip(c.data.xPosition, c.data.markerId, extra);
    } else {
      assert Encode(c) == [Tag(c)];
      DecodeAfterTag(Tag(c), extra);
    }
  }

  lemma ConnectRoundTrip(position: Position, fov: F64, extra: Bytes)
    ensures Decode(Encode(Connect(position, fov)) + extra) == Decoded(Connect(position, fov))
  {
    var rest := ToBeBytes(position) + (F64ToBytes(fov) + extra);
    assert Encode(Connect(position, fov)) + extra == [CONNECT] + rest;
    DecodeAfterTag(CONNECT, rest);
    ConnectArm(position, fov, extra);
  }

  lemma StartServerRoundTrip(cube: Cube, extra: Bytes)
    ensures Decode(Encode(StartServer(cube)) + extra) == Decoded(StartServer(cube))
  {
    assert Encode(StartServer(cube)) + extra == [START_SERVER] + (cube + extra);
    DecodeAfterTag(START_SERVER, cube + extra);
    Split(cube, extra);
  }

  lemma StartConfiglessRoundTrip(ip: Bytes, extra: Bytes)
    requires |ip| < 65536 && ValidUtf8(ip)
    ensures Decode(Encode(StartConfigless(ip)) + extra) == Decoded(StartConfigless(ip))
  {
    var rest := U16ToBytes(|ip|) + (ip + extra);
    Regroup4([START_CONFIGLESS], U16ToBytes(|ip|), ip, extra);
    DecodeAfterTag(START_CONFIGLESS, rest);
    assert DecodeTagged(START_CONFIGLESS, rest) == DecodeStartConfigless(rest);
    StartConfiglessArm(ip, extra);
  }

  lemma ValueUpdateRoundTrip(x: F64, marker: byte, extra: Bytes)
    ensures Decode(Encode(ValueUpdate(ClientData(x, marker))) + extra) == Decoded(ValueUpdate(ClientData(x, marker)))
  {
    var rest := [marker] + (F64ToBytes(x) + extra);
    assert Encode(ValueUpdate(ClientData(x, marker))) + extra == [VALUE_UPDATE] + rest;
    DecodeAfterTag(VALUE_UPDATE, rest);
    ValueUpdateArm(x, marker, extra);
  }

  lemma ConnectArm(position: Position, fov: F64, extra: Bytes)
    ensures DecodeConnect(ToBeBytes(position) + (F64ToBytes(fov) + extra)) == Decoded(Connect(position, fov))
  {
    var rest := ToBeBytes(position) + (F64ToBytes(fov) + extra);
    assert rest[..24] == ToBeBytes(position) by {
      Split(ToBeBytes(position), F64ToBytes(fov) + extra);
    }
    assert rest[24..32] == F64ToBytes(fov) by {
      Split(ToBeBytes(position), F64ToBytes(fov) + extra);
      Split(F64ToBytes(fov), extra);
      assert rest[24..32] == rest[24..][..8];
    }
    Positions.RoundTrip(position);
    F64RoundTrip(fov);
  }

  lemma StartConfiglessArm(ip: Bytes, extra: Bytes)
    requires |ip| < 65536 && ValidUtf8(ip)
    ensures DecodeStartConfigless(U16ToBytes(|ip|) + (ip + extra)) == Decoded(StartConfigless(ip))
  {
    Split3(U16ToBytes(|ip|), ip, extra);
    U16RoundTripExact(|ip|);
    DecodesIp(U16ToBytes(|ip|) + (ip + extra), ip);
  }

  /** A length prefix of |ip| followed by the valid UTF-8 `ip` decodes. */
  lemma DecodesIp(rest: Bytes, ip: Bytes)
    requires ValidUtf8(ip) && |rest| >= 2 + |ip|
    requires U16FromBytes(rest[..2]) == |ip| && rest[2..2 + |ip|] == ip
    ensures DecodeStartConfigless(rest) == Decoded(StartConfigless(ip))
  {
  }

  lemma ValueUpdateArm(x: F64, marker: byte, extra: Bytes)
    ensures DecodeValueUpdate([marker] + (F64ToBytes(x) + extra)) == Decoded(ValueUpdate(ClientData(x, marker)))
  {
    var rest := [marker] + (F64ToBytes(x) + extra);
    assert rest[1..9] == F64ToBytes(x) by {
      Split(F64ToBytes(x), extra);
      assert rest[1..9] == rest[1..][..8];
    }
    F64RoundTrip(x);
  }

  /** Every proper prefix of a multi-byte encoding is rejected. */
  lemma TruncationRejected(c: Command, k: nat)
    requires WellFormed(c) && !c.InfoUpdate? && !IsSingleByte(c)
    requires k < |Encode(c)|
    ensures Decode(Encode(c)[..k]) == Rejected
  {
    var b := Encode(c)[..k];
    if k >= 1 {
      assert Decode(b) == DecodeTagged(Tag(c), b[1..]);
      if c.StartConfigless? && k >= 3 {
        assert b[1..][..2] == U16ToBytes(|c.ip|);
        U16RoundTripExact(|c.ip|);
      }
    }
  }

  /** As written, an encoded InfoUpdate starts with its IP length rather than
      the tag, so with a short IP its first byte is 0x00 and it is rejected;
      and no buffer decodes to an InfoUpdate. */
  lemma InfoUpdateNeverRoundTrips(c: Command, buf: Bytes)
    requires c.InfoUpdate? && |c.clientIp| < 256
    ensures Encode(c)[0] == 0 && Decode(Encode(c)) == Rejected
    ensures !(Decode(buf).Decoded? && Decode(buf).cmd.InfoUpdate?)
  {
    assert Encode(c)[..2] == U16ToBytes(|c.clientIp|);
    U16Bytes(|c.clientIp|);
    assert Decode(Encode(c)) == DecodeTagged(0, Encode(c)[1..]);
  }

  /** The InfoUpdate decoder panics on a one-byte IP 0xFF. */
  lemma InfoUpdatePanics()
    ensures Decode([INFO_UPDATE, 0, 1, 0xFF]) == Panicked
  {
    var rest: Bytes := [0, 1, 0xFF];
    assert rest[..2] == [0, 1];
    var len: Bytes := [0, 1];
    assert U16FromBytes(len) == 1 by {
      assert len[..1] == [0];
      assert len[..1][..0] == [];
    }
    assert rest[2..3] == [0xFF];
    assert Utf8CharLength([0xFF]) == 0;
  }

  // ------------------------------------------- InfoUpdate, as evidently intended

  /** The InfoUpdate layout the decoder's offsets imply: the tag first, then
      the IP, position, fov flag and fov. */
  function CorrectedEncode(c: Command): (r: Bytes)
    ensures !c.InfoUpdate? ==> r == Encode(c)
    ensures c.InfoUpdate? ==> |r| >= 1 && r[0] == INFO_UPDATE
  {
    match c
    case InfoUpdate(ip, position, fov) =>
      [INFO_UPDATE] + (U16ToBytes(|ip|) + (ip + (ToBeBytes(position)
      + ([if fov.Some? then 1 else 0] + (if fov.Some? then F64ToBytes(fov.value) else [])))))
    case _ => Encode(c)
  }

  /** The InfoUpdate arm with the offsets taken after the IP and an invalid IP
      rejected instead of panicking. */
  function CorrectedDecodeInfoUpdate(rest: Bytes): (r: Decoded)
    ensures r.Decoded? ==> r.cmd.InfoUpdate? && WellFormed(r.cmd)
    ensures !r.Panicked?
  {
    if |rest| < 2 then Rejected
    else
      var ipLen := U16FromBytes(rest[..2]);
      var p := 2 + ipLen;
      if |rest| < p + 25 || !ValidUtf8(rest[2..p]) then Rejected
      else
        var position := FromBeBytes(rest[p..p + 24]);
        if rest[p + 24] == 1 then
          if |rest| < p + 33 then Rejected
          else Decoded(InfoUpdate(rest[2..p], position, Some(F64FromBytes(rest[p + 25..p + 33]))))
        else Decoded(InfoUpdate(rest[2..p], position, None))
  }

  function CorrectedDecode(buf: Bytes): (r: Decoded)
    ensures !r.Panicked?
    ensures |buf| >= 1 && buf[0] != INFO_UPDATE ==> r == Decode(buf)
  {
    if |buf| >= 1 && buf[0] == INFO_UPDATE then CorrectedDecodeInfoUpdate(buf[1..]) else Decode(buf)
  }

  lemma CorrectedInfoUpdateRoundTrip(ip: Bytes, position: Position, fov: Option<F64>, extra: Bytes)
    requires |ip| < 65536 && ValidUtf8(ip)
    ensures CorrectedDecode(CorrectedEncode(InfoUpdate(ip, position, fov)) + extra) == Decoded(InfoUpdate(ip, position, fov))
  {
    var flag: Bytes := [if fov.Some? then 1 else 0];
    var fovBytes: Bytes := if fov.Some? then F64ToBytes(fov.value) else [];
    var rest := U16ToBytes(|ip|) + (ip + (ToBeBytes(position) + (flag + (fovBytes + extra))));
    CorrectedInfoUpdateLayout(ip, position, fov, extra);
    assert ([INFO_UPDATE] + rest)[1..] == rest;
    InfoUpdateSlices(ip, position, flag, fovBytes, extra);
    CorrectedInfoUpdateArm(rest, ip, position, fov);
  }

  lemma InfoUpdateSlices(ip: Bytes, position: Position, flag: Bytes, fovBytes: Bytes, extra: Bytes)
    requires |flag| == 1 && (|fovBytes| == 0 || |fovBytes| == 8)
    ensures var rest := U16ToBytes(|ip|) + (ip + (ToBeBytes(position) + (flag + (fovBytes + extra))));
      && |rest| >= 2 + |ip| + 25 + |fovBytes|
      && rest[..2] == U16ToBytes(|ip|) && rest[2..2 + |ip|] == ip
      && rest[2 + |ip|..][..24] == ToBeBytes(position)
      && rest[2 + |ip|..][24] == flag[0]
      && (|fovBytes| == 8 ==> rest[2 + |ip|..][25..33] == fovBytes)
  {
    var afterIp := ToBeBytes(position) + (flag + (fovBytes + extra));
    var rest := U16ToBytes(|ip|) + (ip + afterIp);
    var p := 2 + |ip|;
    Split(U16ToBytes(|ip|), ip + afterIp);
    Split(ip, afterIp);
    assert rest[2..] == ip + afterIp;
    assert rest[2..p] == ip;
    assert rest[p..] == afterIp;
    Split(ToBeBytes(position), flag + (fovBytes + extra));
    if |fovBytes| == 8 {
      Split(flag, fovBytes + extra);
      Split(fovBytes, extra);
      assert afterIp[25..33] == afterIp[25..][..8];
    }
  }

  lemma CorrectedInfoUpdateLayout(ip: Bytes, position: Position, fov: Option<F64>, extra: Bytes)
    ensures CorrectedEncode(InfoUpdate(ip, position, fov)) + extra
         == [INFO_UPDATE] + (U16ToBytes(|ip|) + (ip + (ToBeBytes(position) + ([if fov.Some? then 1 else 0]
            + ((if fov.Some? then F64ToBytes(fov.value) else []) + extra)))))
  {
  }

  /** The corrected InfoUpdate arm reads back each field from its place. */
  lemma CorrectedInfoUpdateArm(rest: Bytes, ip: Bytes, position: Position, fov: Option<F64>)
    requires |ip| < 65536 && ValidUtf8(ip)
    requires |rest| >= 2 + |ip| + 25 + (if fov.Some? then 8 else 0)
    requires rest[..2] == U16ToBytes(|ip|) && rest[2..2 + |ip|] == ip
    requires rest[2 + |ip|..][..24] == ToBeBytes(position)
    requires rest[2 + |ip|..][24] == if fov.Some? then 1 else 0
    requires fov.Some? ==> rest[2 + |ip|..][25..33] == F64ToBytes(fov.value)
    ensures CorrectedDecodeInfoUpdate(rest) == Decoded(InfoUpdate(ip, position, fov))
  {
    var p := 2 + |ip|;
    U16RoundTripExact(|ip|);
    assert rest[p..p + 24] == ToBeBytes(position) by {
      assert rest[p..p + 24] == rest[p..][..24];
    }
    Positions.RoundTrip(position);
    assert rest[p + 24] == rest[p..][24];
    if fov.Some? {
      assert rest[p + 25..p + 33] == F64ToBytes(fov.value) by {
        assert rest[p + 25..p + 33] == rest[p..][25..33];
      }
      F64RoundTrip(fov.value);
    }
    DecodesInfoUpdate(rest, ip, position, fov);
  }

  /** The corrected arm, once each field is known to read back. */
  lemma DecodesInfoUpdate(rest: Bytes, ip: Bytes, position: Position, fov: Option<F64>)
    requires ValidUtf8(ip) && |rest| >= 2 + |ip| + 25 + (if fov.Some? then 8 else 0)
    requires U16FromBytes(rest[..2]) == |ip| && rest[2..2 + |ip|] == ip
    requires FromBeBytes(rest[2 + |ip|..2 + |ip| + 24]) == position
    requires rest[2 + |ip| + 24] == if fov.Some? then 1 else 0
    requires fov.Some? ==> F64FromBytes(rest[2 + |ip| + 25..2 + |ip| + 33]) == fov.value
    ensures CorrectedDecodeInfoUpdate(rest) == Decoded(InfoUpdate(ip, position, fov))
  {
  }

  /** With the corrected InfoUpdate layout every well-formed command round-trips. */
  lemma CorrectedRoundTrip(c: Command, extra: Bytes)
    requires WellFormed(c)
    ensures CorrectedDecode(CorrectedEncode(c) + extra) == Decoded(c)
  {
    if c.InfoUpdate? {
      CorrectedInfoUpdateRoundTrip(c.clientIp, c.position, c.fovUpdate, extra);
    } else {
      RoundTrip(c, extra);
      assert CorrectedEncode(c) + extra == Encode(c) + extra;
    }
  }
}
