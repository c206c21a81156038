/** The DualSense output report: the 48-byte DualSenseHIDOutput record in
    field declaration order, and the 64-byte zero-padded packet written to
    the device. */
module HidOutput {
  import opened Numeric

  // OperatingMode
  const DS4_COMPATIBILITY_MODE: byte := 1
  const DS5_MODE: byte := 2
  // PhysicalEffectControl
  const ENABLE_HAPTICS: byte := 3
  const TRIGGER_EFFECTS_RIGHT: byte := 4
  const TRIGGER_EFFECTS_LEFT: byte := 8
  // LightEffectControl
  const MIC_MUTE_LED_CONTROL_ENABLE: byte := 1
  const POWER_SAVE_CONTROL_ENABLE: byte := 2
  const LIGHTBAR_CONTROL_ENABLE: byte := 4
  const RELEASE_LEDS: byte := 8
  const PLAYER_INDICATOR_CONTROL_ENABLE: byte := 16

  const RECORD_SIZE := 48
  const PACKET_SIZE := 64

  type Bytes4 = s: seq<byte> | |s| == 4 witness [0, 0, 0, 0]
  type Bytes8 = s: seq<byte> | |s| == 8 witness [0, 0, 0, 0, 0, 0, 0, 0]
  type Bytes11 = s: seq<byte> | |s| == 11 witness [0, 0, 0, 0, 0, 0, 0, 0, 0, 0, 0]

  /** One DualSenseHIDOutput record; every field is an unsigned byte or an
      array of them. */
  datatype Output = Output(
    operatingMode: byte,
    physicalEffectControl: byte,
    lightEffectControl: byte,
    motorRight: byte,
    motorLeft: byte,
    unknown2: Bytes4,
    muteButtonLed: byte,
    powerSaveControl: byte,
    rightTriggerEffect: Bytes11,
    leftTriggerEffect: Bytes11,
    unknown3: Bytes8,
    lightbarControl: byte,
    lightbarSetup: byte,
    ledBrightness: byte,
    playerLeds: byte,
    lightbarRed: byte,
    lightbarGreen: byte,
    lightbarBlue: byte)

  function Zeros(n: nat): (z: seq<byte>)
    ensures |z| == n && forall i :: 0 <= i < n ==> z[i] == 0
  {
    seq(n, _ => 0)
  }

  /** A record built by ctypes with no field given: its image is 48 zero bytes. */
  function Zeroed(): (o: Output)
    ensures Serialize(o) == Zeros(RECORD_SIZE)
  {
    assert Parse(Zeros(RECORD_SIZE)) ==
      Output(0, 0, 0, 0, 0, Zeros(4), 0, 0, Zeros(11), Zeros(11), Zeros(8), 0, 0, 0, 0, 0, 0, 0);
    Output(0, 0, 0, 0, 0, Zeros(4), 0, 0, Zeros(11), Zeros(11), Zeros(8), 0, 0, 0, 0, 0, 0, 0)
  }

  /** bytearray(record): the fields' bytes in declaration order, no padding. */
  function Serialize(o: Output): (b: seq<byte>)
    ensures |b| == RECORD_SIZE
  {
    [o.operatingMode, o.physicalEffectControl, o.lightEffectControl, o.motorRight, o.motorLeft]
    + o.unknown2 + [o.muteButtonLed, o.powerSaveControl]
    + o.rightTriggerEffect + o.leftTriggerEffect + o.unknown3
    + [o.lightbarControl, o.lightbarSetup, o.ledBrightness, o.playerLeds,
       o.lightbarRed, o.lightbarGreen, o.lightbarBlue]
  }

  /** Reads a record back from its 48-byte image: every 48-byte string is the
      image of exactly the record read from it. */
  function Parse(b: seq<byte>): (o: Output)
    requires |b| == RECORD_SIZE
    ensures Serialize(o) == b
  {
    var o := Output(b[0], b[1], b[2], b[3], b[4], b[5..9], b[9], b[10], b[11..22], b[22..33], b[33..41],
                    b[41], b[42], b[43], b[44], b[45], b[46], b[47]);
    assert Serialize(o) == b by {
      var s := Serialize(o);
      SerializeLayout(o);
      forall i | 0 <= i < RECORD_SIZE ensures s[i] == b[i] {
        if 5 <= i < 9 { assert s[i] == s[5..9][i - 5]; }
        else if 11 <= i < 22 { assert s[i] == s[11..22][i - 11]; }
        else if 22 <= i < 33 { assert s[i] == s[22..33][i - 22]; }
        else if 33 <= i < 41 { assert s[i] == s[33..41][i - 33]; }
      }
    }
    o
  }

  /** bytes(bytearray(record).ljust(64, b'\x00')): the record image padded with zeros. */
  function Packet(o: Output): (p: seq<byte>)
    ensures |p| == PACKET_SIZE
  {
    Serialize(o) + Zeros(PACKET_SIZE - RECORD_SIZE)
  }

  /** Where each field sits in the record image. */
  lemma SerializeLayout(o: Output)
    ensures var b := Serialize(o);
      && b[0] == o.operatingMode && b[1] == o.physicalEffectControl && b[2] == o.lightEffectControl
      && b[3] == o.motorRight && b[4] == o.motorLeft
      && b[5..9] == o.unknown2 && b[9] == o.muteButtonLed && b[10] == o.powerSaveControl
      && b[11..22] == o.rightTriggerEffect && b[22..33] == o.leftTriggerEffect && b[33..41] == o.unknown3
      && b[41] == o.lightbarControl && b[42] == o.lightbarSetup && b[43] == o.ledBrightness
      && b[44] == o.playerLeds
      && b[45] == o.lightbarRed && b[46] == o.lightbarGreen && b[47] == o.lightbarBlue
  {
  }

  /** Every packet is the record image followed by sixteen zero bytes. */
  lemma PacketLayout(o: Output)
    ensures Packet(o)[..RECORD_SIZE] == Serialize(o)
    ensures forall i :: RECORD_SIZE <= i < PACKET_SIZE ==> Packet(o)[i] == 0
  {
  }

  /** Reading back a serialised record gives the record. */
  lemma ParseSerialize(o: Output)
    ensures Parse(Serialize(o)) == o
  {
    var b := Serialize(o);
    SerializeLayout(o);
    assert b[5..9] == o.unknown2 && b[11..22] == o.rightTriggerEffect;
    assert b[22..33] == o.leftTriggerEffect && b[33..41] == o.unknown3;
  }

  /** Records with the same packet are the same record. */
  lemma PacketInjective(o1: Output, o2: Output)
    requires Packet(o1) == Packet(o2)
    ensures o1 == o2
  {
    ParseSerialize(o1);
    ParseSerialize(o2);
    PacketLayout(o1);
    PacketLayout(o2);
    assert Serialize(o1) == Packet(o1)[..RECORD_SIZE];
  }
}
