/** The haptic command arithmetic of DS5Controller.feedback: motor bytes from
    an amplitude and the delay of the shut-off from period and count. Python
    floats are modelled as exact reals. */
module Haptics {
  import opened Numeric
  import opened HidOutput

  /** HapticPos: which motor(s) a command drives. */
  datatype HapticPos = Left | Right | Both

  const FULL_AMPLITUDE := 0x8000
  /** The shortest delay before motors are shut off, in seconds. */
  const MIN_DURATION: real := 0.02

  /** int(float(amplitude) / 0x8000 * 0xff), stored into a c_ubyte: for
      every amplitude, amplitude*0xff divided by 0x8000 toward zero, wrapped
      into a byte. */
  function RightMotor(amplitude: int): (b: byte)
    ensures b == ToUByte(TruncDiv(amplitude * 0xff, 0x8000))
  {
    assert amplitude as real / 32768.0 * 255.0 == (amplitude * 255) as real / 32768.0;
    TruncOfQuotient(amplitude * 255, 32768);
    ToUByte(Trunc(amplitude as real / 32768.0 * 255.0))
  }

  /** int(float(amplitude) / 0x8000 * 0x80), stored into a c_ubyte: the
      heavier left motor gets about half the drive. */
  function LeftMotor(amplitude: int): (b: byte)
    ensures b == ToUByte(TruncDiv(amplitude * 0x80, 0x8000))
  {
    assert amplitude as real / 32768.0 * 128.0 == (amplitude * 128) as real / 32768.0;
    TruncOfQuotient(amplitude * 128, 32768);
    ToUByte(Trunc(amplitude as real / 32768.0 * 128.0))
  }

  /** The motor fields after a command: LEFT sets only the left motor, RIGHT
      only the right one, BOTH sets both; nothing else in the record changes. */
  function ApplyMotors(o: Output, position: HapticPos, amplitude: int): (r: Output)
    ensures r.motorLeft == (if position == Right then o.motorLeft else LeftMotor(amplitude))
    ensures r.motorRight == (if position == Left then o.motorRight else RightMotor(amplitude))
    ensures r.(motorLeft := o.motorLeft, motorRight := o.motorRight) == o
  {
    match position
    case Left => o.(motorLeft := LeftMotor(amplitude))
    case Right => o.(motorRight := RightMotor(amplitude))
    case Both => o.(motorRight := RightMotor(amplitude), motorLeft := LeftMotor(amplitude))
  }

  /** max(float(period) * count / 0x10000, 0.02) */
  function Duration(period: int, count: int): (d: real)
    ensures d >= MIN_DURATION && d >= period as real * count as real / 65536.0
    ensures d == MIN_DURATION || d == period as real * count as real / 65536.0
  {
    var raw := period as real * count as real / 65536.0;
    if raw >= MIN_DURATION then raw else MIN_DURATION
  }

  /** Within 0..0x8000 no wrap-around happens: the right motor is
      amplitude*255 div 0x8000 and the left one amplitude div 256, at most
      0xff and 0x80. */
  lemma MotorBytesInRange(amplitude: int)
    requires 0 <= amplitude <= FULL_AMPLITUDE
    ensures RightMotor(amplitude) == amplitude * 0xff / 0x8000 <= 0xff
    ensures LeftMotor(amplitude) == amplitude * 0x80 / 0x8000 == amplitude / 256 <= 0x80
  {
    assert amplitude * 0xff <= 0xff * 0x8000;
    assert amplitude * 0x80 / 0x8000 == amplitude / 256 by {
      assert amplitude * 0x80 == (amplitude / 256) * 0x8000 + (amplitude % 256) * 0x80;
    }
  }

  /** A larger amplitude never drives a motor less. */
  lemma MotorBytesMonotone(a: int, b: int)
    requires 0 <= a <= b <= FULL_AMPLITUDE
    ensures RightMotor(a) <= RightMotor(b) && LeftMotor(a) <= LeftMotor(b)
  {
    MotorBytesInRange(a);
    MotorBytesInRange(b);
    assert a * 0xff <= b * 0xff;
  }

  /** The left motor gets half the right motor's drive, to within one step. */
  lemma LeftIsHalfOfRight(amplitude: int)
    requires 0 <= amplitude <= FULL_AMPLITUDE
    ensures 2 * LeftMotor(amplitude) - 1 <= RightMotor(amplitude) <= 2 * LeftMotor(amplitude) + 1
  {
    MotorBytesInRange(amplitude);
    var l, r := amplitude / 256, amplitude % 256;
    var right := amplitude * 0xff / 0x8000;
    assert amplitude == 256 * l + r && 0 <= r < 256 && l <= 128;
    assert amplitude * 0xff == (2 * l) * 0x8000 - 256 * l + r * 0xff;
    assert right * 0x8000 <= amplitude * 0xff < (right + 1) * 0x8000;
  }

  /** The worked values: full amplitude gives left 0x80 and right 0xff; half
      amplitude gives right 0x7f (0x4000*0xff/0x8000 = 127.5, truncated), not 0x80. */
  lemma MotorExamples()
    ensures LeftMotor(0x8000) == 0x80 && RightMotor(0x8000) == 0xff
    ensures LeftMotor(0x4000) == 0x40 && RightMotor(0x4000) == 0x7f
  {
    MotorBytesInRange(0x8000);
    MotorBytesInRange(0x4000);
  }

  /** A zero period always gives the 20 ms floor. */
  lemma ZeroPeriodDuration(count: int)
    ensures Duration(0, count) == MIN_DURATION
  {
  }
}
