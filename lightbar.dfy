/** The lightbar colour chosen by DS5Controller.configure: a palette entry
    picked by the numeric suffix of the icon name, scaled by the LED level. */
module Lightbar {
  import opened Wrappers
  import opened Numeric
  import opened Text
  import opened HidOutput

  /** A colour with channels in 0.0 .. 1.0. */
  datatype Rgb = Rgb(red: real, green: real, blue: real)

  /** ICON_COLORS */
  const ICON_COLORS: seq<Rgb> := [
    Rgb(0.0, 1.0, 0.0), Rgb(0.0, 0.0, 1.0), Rgb(1.0, 0.0, 0.0), Rgb(1.0, 1.0, 0.0),
    Rgb(0.0, 1.0, 1.0), Rgb(1.0, 0.4, 0.0), Rgb(1.0, 0.0, 1.0)]

  /** Blue, used when the icon names no palette entry. */
  const DEFAULT_COLOR := Rgb(0.0, 0.0, 1.0)

  /** configure fails with a ValueError when a non-empty icon name has no '.'
      (the two-way unpacking of icon.rsplit('.', 1)). */
  predicate IconAccepted(icon: Option<string>)
  {
    icon.None? || icon.value == [] || '.' in icon.value
  }

  /** The text after the last '-' of the part before the last '.'. */
  function IconSuffix(icon: string): (s: string)
    requires '.' in icon
    ensures '-' !in s
  {
    AfterLast(BeforeLast(icon, '.'), '-')
  }

  /** int() of the suffix. It is never negative: the suffix holds no '-'. */
  function IconIndex(icon: string): (r: Option<int>)
    requires '.' in icon
    ensures r.Some? ==> r.value >= 0
  {
    ParseInt(IconSuffix(icon))
  }

  function SelectColor(icon: Option<string>): (c: Rgb)
    requires IconAccepted(icon)
    ensures c in ICON_COLORS
  {
    if icon.None? || icon.value == [] then DEFAULT_COLOR
    else PaletteColor(IconIndex(icon.value))
  }

  /** The palette entry a parsed suffix names; blue for none, or past the end. */
  function PaletteColor(index: Option<int>): (c: Rgb)
    requires index.Some? ==> index.value >= 0
    ensures c in ICON_COLORS
    ensures index.None? || index.value >= |ICON_COLORS| ==> c == DEFAULT_COLOR
    ensures index.Some? && index.value < |ICON_COLORS| ==> c == ICON_COLORS[index.value]
  {
    match index
    case None => DEFAULT_COLOR
    case Some(i) => if i < |ICON_COLORS| then ICON_COLORS[i] else DEFAULT_COLOR
  }

  /** int(color_norm * (float(led_level) / 100) * 255), stored into a
      c_ubyte. With channel and level in range no wrap-around happens: the
      byte is the floor of c * level * 255 / 100. */
  function Channel(c: real, ledLevel: int): (b: byte)
    ensures 0.0 <= c <= 1.0 && 0 <= ledLevel <= 100 ==> b == (c * ledLevel as real * 255.0 / 100.0).Floor
  {
    var x := c * (ledLevel as real / 100.0) * 255.0;
    if 0.0 <= c <= 1.0 && 0 <= ledLevel <= 100 then
      ScaledInRange(c, ledLevel);
      ToUByte(Trunc(x))
    else ToUByte(Trunc(x))
  }

  /** In range, the scaled channel lies in 0 .. 255. */
  lemma ScaledInRange(c: real, ledLevel: int)
    requires 0.0 <= c <= 1.0 && 0 <= ledLevel <= 100
    ensures var x := c * (ledLevel as real / 100.0) * 255.0;
      0.0 <= x <= 255.0 && x == c * ledLevel as real * 255.0 / 100.0 && Trunc(x) == x.Floor
  {
    var level := ledLevel as real / 100.0;
    assert 0.0 <= level <= 1.0;
    var p := c * level;
    assert 0.0 <= p <= 1.0 by { assert p <= 1.0 * level; }
    var x := p * 255.0;
    assert 0.0 <= x <= 255.0;
  }

  /** A fresh DualSenseHIDOutput with DS5 mode, the lightbar enabled and the given colour. */
  function LightbarRecord(red: byte, green: byte, blue: byte): (o: Output)
    ensures o.operatingMode == DS5_MODE && o.lightEffectControl == LIGHTBAR_CONTROL_ENABLE
    ensures o.lightbarRed == red && o.lightbarGreen == green && o.lightbarBlue == blue
    ensures o.(operatingMode := 0, lightEffectControl := 0, lightbarRed := 0, lightbarGreen := 0, lightbarBlue := 0) == Zeroed()
  {
    Zeroed().(operatingMode := DS5_MODE, lightEffectControl := LIGHTBAR_CONTROL_ENABLE,
              lightbarRed := red, lightbarGreen := green, lightbarBlue := blue)
  }

  /** The record configure enqueues under 'lightbar'. */
  function LightbarOutput(icon: Option<string>, ledLevel: int): (o: Output)
    requires IconAccepted(icon)
    ensures exists c :: c in ICON_COLORS && o == LightbarRecord(Channel(c.red, ledLevel), Channel(c.green, ledLevel), Channel(c.blue, ledLevel))
    ensures 0 <= ledLevel <= 100 ==>
      o.lightbarRed <= 255 * ledLevel / 100 && o.lightbarGreen <= 255 * ledLevel / 100 && o.lightbarBlue <= 255 * ledLevel / 100
  {
    var c := SelectColor(icon);
    var o := LightbarRecord(Channel(c.red, ledLevel), Channel(c.green, ledLevel), Channel(c.blue, ledLevel));
    if 0 <= ledLevel <= 100 then
      PaletteChannelsAtMost(c, ledLevel);
      o
    else o
  }

  /** A channel byte never exceeds the full-channel byte of that level. */
  lemma ChannelAtMost(c: real, ledLevel: int)
    requires 0.0 <= c <= 1.0 && 0 <= ledLevel <= 100
    ensures Channel(c, ledLevel) <= 255 * ledLevel / 100
  {
    var m := ledLevel as real * 255.0;
    var x := c * ledLevel as real * 255.0 / 100.0;
    var full := (255 * ledLevel) as real / 100 as real;
    assert x <= full by {
      assert c * m <= 1.0 * m;
      assert x == c * m / 100.0;
      assert full == m / 100.0;
    }
    FloorOfQuotient(255 * ledLevel, 100);
    assert x.Floor as real <= x;
    assert x.Floor <= full.Floor;
  }

  lemma PaletteChannelsAtMost(c: Rgb, ledLevel: int)
    requires c in ICON_COLORS && 0 <= ledLevel <= 100
    ensures Channel(c.red, ledLevel) <= 255 * ledLevel / 100
    ensures Channel(c.green, ledLevel) <= 255 * ledLevel / 100
    ensures Channel(c.blue, ledLevel) <= 255 * ledLevel / 100
  {
    assert 0.0 <= c.red <= 1.0 && 0.0 <= c.green <= 1.0 && 0.0 <= c.blue <= 1.0;
    ChannelAtMost(c.red, ledLevel);
    ChannelAtMost(c.green, ledLevel);
    ChannelAtMost(c.blue, ledLevel);
  }

  /** No icon, an empty icon, a suffix that is not an integer, or an index
      past the palette all give blue. */
  lemma DefaultColorCases(icon: Option<string>)
    requires IconAccepted(icon)
    requires icon.None? || icon.value == [] || IconIndex(icon.value).None? || IconIndex(icon.value).value >= |ICON_COLORS|
    ensures SelectColor(icon) == DEFAULT_COLOR
  {
  }

  /** An icon named stem-k.ext selects palette entry k when there is one, and
      blue otherwise. */
  lemma NumberedIconColor(stem: string, k: nat, ext: string)
    requires '.' !in ext
    ensures var icon := stem + "-" + DecimalString(k) + "." + ext;
      && '.' in icon && IconIndex(icon) == Some(k)
      && (k < |ICON_COLORS| ==> SelectColor(Some(icon)) == ICON_COLORS[k])
      && (k >= |ICON_COLORS| ==> SelectColor(Some(icon)) == DEFAULT_COLOR)
  {
    var icon := stem + "-" + DecimalString(k) + "." + ext;
    NumberedIconSuffix(stem, k, ext);
    ParseDecimal(k);
    IndexedColor(icon, k);
  }

  /** An icon whose suffix parses as k selects palette entry k, or blue past the palette. */
  lemma IndexedColor(icon: string, k: nat)
    requires '.' in icon && IconIndex(icon) == Some(k)
    ensures k < |ICON_COLORS| ==> SelectColor(Some(icon)) == ICON_COLORS[k]
    ensures k >= |ICON_COLORS| ==> SelectColor(Some(icon)) == DEFAULT_COLOR
  {
    assert icon != [];
    assert SelectColor(Some(icon)) == PaletteColor(Some(k));
  }

  lemma NumberedIconSuffix(stem: string, k: nat, ext: string)
    requires '.' !in ext
    ensures var icon := stem + "-" + DecimalString(k) + "." + ext;
      '.' in icon && IconSuffix(icon) == DecimalString(k)
  {
    var digits := DecimalString(k);
    var basename := stem + "-" + digits;
    var icon := basename + "." + ext;
    assert icon == basename + ['.'] + ext;
    SplitAtLastJoin(basename, '.', ext);
    assert '-' !in digits by { assert forall i :: 0 <= i < |digits| ==> IsDigit(digits[i]); }
    assert basename == stem + ['-'] + digits;
    SplitAtLastJoin(stem, '-', digits);
  }

  /** At full level every palette channel is 0 or 255, except 0.4, which gives 102. */
  lemma FullLevelChannels(c: Rgb)
    requires c in ICON_COLORS
    ensures Channel(c.red, 100) in {0, 255} && Channel(c.blue, 100) in {0, 255}
    ensures Channel(c.green, 100) in {0, 102, 255}
    ensures Channel(c.green, 100) == 102 <==> c.green == 0.4
  {
  }

  /** The bytes of the 'lightbar' packet: mode at 0, lightbar enable at 2, the
      three channels at 45, 46, 47, and zero everywhere else. */
  lemma LightbarPacket(icon: Option<string>, ledLevel: int)
    requires IconAccepted(icon)
    ensures var p, c := Packet(LightbarOutput(icon, ledLevel)), SelectColor(icon);
      p[0] == DS5_MODE && p[2] == LIGHTBAR_CONTROL_ENABLE &&
      p[45] == Channel(c.red, ledLevel) && p[46] == Channel(c.green, ledLevel) &&
      p[47] == Channel(c.blue, ledLevel) &&
      forall i :: 0 <= i < PACKET_SIZE && i != 0 && i != 2 && !(45 <= i < 48) ==> p[i] == 0
  {
    var c := SelectColor(icon);
    LightbarRecordPacket(Channel(c.red, ledLevel), Channel(c.green, ledLevel), Channel(c.blue, ledLevel));
  }

  lemma LightbarRecordPacket(red: byte, green: byte, blue: byte)
    ensures var p := Packet(LightbarRecord(red, green, blue));
      p[0] == DS5_MODE && p[2] == LIGHTBAR_CONTROL_ENABLE &&
      p[45] == red && p[46] == green && p[47] == blue &&
      forall i :: 0 <= i < PACKET_SIZE && i != 0 && i != 2 && !(45 <= i < 48) ==> p[i] == 0
  {
    var o := LightbarRecord(red, green, blue);
    var p := Packet(o);
    var b := Serialize(o);
    SerializeLayout(o);
    PacketLayout(o);
    forall i | 0 <= i < RECORD_SIZE && i != 0 && i != 2 && !(45 <= i < 48) ensures b[i] == 0 {
      if 5 <= i < 9 { assert b[i] == b[5..9][i - 5]; }
      else if 11 <= i < 22 { assert b[i] == b[11..22][i - 11]; }
      else if 22 <= i < 33 { assert b[i] == b[22..33][i - 22]; }
      else if 33 <= i < 41 { assert b[i] == b[33..41][i - 33]; }
    }
    assert forall i :: 0 <= i < RECORD_SIZE ==> p[i] == b[i];
  }

  /** An icon such as "controller-3.svg" picks palette entry 3, yellow; at
      led_level=50 its channels are 127, 127 and 0 (127.5 truncated). */
  lemma HalfLevelYellow()
    ensures var c := ICON_COLORS[3];
      c == Rgb(1.0, 1.0, 0.0) &&
      Channel(c.red, 50) == 127 && Channel(c.green, 50) == 127 && Channel(c.blue, 50) == 0
  {
    var x := 1.0 * (50 as real / 100.0) * 255.0;
    assert x == 127.5;
    assert Trunc(x) == 127;
    assert Trunc(0.0 * (50 as real / 100.0) * 255.0) == 0;
  }
}
