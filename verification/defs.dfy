/**
  Compile-time configuration of the GDEY075T7 e-paper driver: panel geometry,
  the controller's command and payload bytes, the two pixel colours, the two
  GPIO levels and the transport mode selected by the preprocessor.
 */
module Defs {

  /** A C `uint8_t`. */
  type Byte = bv8

  /** Panel geometry in pixels. */
  datatype Geometry = Geometry(width: nat, height: nat)

  /** A row must occupy whole bytes: eight horizontal pixels per byte. */
  predicate ValidGeometry(g: Geometry) {
    g.width % 8 == 0
  }

  /** Bytes per framebuffer row. */
  function RowBytes(g: Geometry): nat {
    g.width / 8
  }

  /** `GD_EPAPER_SCREEN_BUFFER_SIZE`, written as the header computes it. */
  function BufferSize(g: Geometry): nat {
    g.width * g.height / 8
  }

  /** With whole-byte rows the buffer is exactly `height` rows of `RowBytes` bytes. */
  lemma BufferSizeByRows(g: Geometry)
    requires ValidGeometry(g)
    ensures BufferSize(g) == g.height * RowBytes(g)
  {
    var r := RowBytes(g);
    assert g.width == 8 * r;
    assert g.width * g.height == 8 * (r * g.height);
  }

  const Width: nat := 800
  const Height: nat := 480

  /** The GDEY075T7 panel, 800 x 480 pixels. */
  const Panel: Geometry := Geometry(Width, Height)

  /** The panel is a valid instance: 100 bytes per row, 48000 bytes in all. */
  lemma PanelGeometry()
    ensures ValidGeometry(Panel)
    ensures RowBytes(Panel) == 100
    ensures BufferSize(Panel) == 48000
  {
  }

  // Resolution-setting payload: horizontal then vertical size, high byte first.
  const HresHigh: Byte := 0x03
  const HresLow: Byte := 0x20
  const VresHigh: Byte := 0x01
  const VresLow: Byte := 0xE0

  /** Reads a 16-bit big-endian quantity from two bytes. */
  function BigEndian16(hi: Byte, lo: Byte): (n: nat)
    ensures n < 0x1_0000
    ensures n / 256 == hi as nat && n % 256 == lo as nat
  {
    hi as nat * 256 + lo as nat
  }

  /** The resolution bytes spell out the panel geometry. */
  lemma ResolutionBytesEncodePanel()
    ensures BigEndian16(HresHigh, HresLow) == Panel.width
    ensures BigEndian16(VresHigh, VresLow) == Panel.height
  {
  }

  // Power setting (command 0x01) and its four payload bytes.
  const PowerSetting: Byte := 0x01
  const PowerSettingMode: Byte := 0x07
  const PowerVghVgl: Byte := 0x07
  const PowerVdh: Byte := 0x3F
  const PowerVdl: Byte := 0x3F

  const PowerOn: Byte := 0x04

  // Panel setting (0x00, KW mode), resolution (0x61), dual SPI (0x15).
  const PanelSetting: Byte := 0x00
  const PanelSettingMode: Byte := 0x1F
  const ResolutionSetting: Byte := 0x61
  const DualSpiSetting: Byte := 0x15
  const DualSpiMode: Byte := 0x00

  // VCOM and data interval (0x50) and TCON (0x60) settings.
  const VcomInterval: Byte := 0x50
  const VcomIntervalBorder: Byte := 0x10
  const VcomIntervalData: Byte := 0x07
  const TconSetting: Byte := 0x60
  const TconValue: Byte := 0x22

  const DisplayRefresh: Byte := 0x12

  /** The status command issued on every busy poll. */
  const GetStatus: Byte := 0x71

  // `gd_epaper_color`: one byte per colour, every bit the pixel's value.
  const White: Byte := 0x00
  const Black: Byte := 0xFF

  /** Bit `k` of `b`, counting from the least significant bit. */
  predicate BitSet(b: Byte, k: nat)
    requires k < 8
  {
    b & ((1 as bv8) << k) != 0
  }

  /** Black sets every pixel bit of a byte and White clears every one. */
  lemma ColorsArePixelPatterns(k: nat)
    requires k < 8
    ensures BitSet(Black, k) && !BitSet(White, k)
  {
  }

  /** `gd_epaper_gpio_value`: the only two levels a pin can carry. */
  datatype Level = Low | High

  /** The enumerator's numeric value. */
  function LevelValue(l: Level): (v: Byte)
    ensures v == 0 <==> l == Low
    ensures v == 1 <==> l == High
  {
    match l
    case Low => 0
    case High => 1
  }

  /** The level a pin is driven to for one bit. */
  function LevelOf(bit: bool): (l: Level)
    ensures l == High <==> bit
  {
    if bit then High else Low
  }

  /** Reading a level back as `value & 0x01`, as the driver reads the busy pin. */
  function LevelOfValue(v: Byte): (l: Level)
    ensures l == High <==> v & 1 == 1
  {
    if v & 1 == 1 then High else Low
  }

  /** Both levels survive the round trip through their numeric value. */
  lemma LevelValueRoundTrip(l: Level)
    ensures LevelOfValue(LevelValue(l)) == l
  {
  }

  /** Software SPI bit-bangs GPIOs; hardware SPI hands buffers to the SPI driver. */
  datatype Bus = Software | Hardware

  /** 4-wire carries command/data on the DC pin, 3-wire as a leading bit. */
  datatype Wiring = ThreeWire | FourWire

  /** One of the four mutually exclusive transport modes. */
  datatype Mode = Mode(bus: Bus, wiring: Wiring)

  /**
    The mode the header selects from the two user macros: software SPI unless
    `GD_EPAPER_USE_HARDWARE_SPI` is defined, 4-wire unless
    `GD_EPAPER_USE_3_WIRE_SPI` is defined.
   */
  function ConfiguredMode(hardwareSpi: bool, threeWire: bool): (m: Mode)
    ensures m.bus == Hardware <==> hardwareSpi
    ensures m.wiring == ThreeWire <==> threeWire
  {
    Mode(if hardwareSpi then Hardware else Software,
         if threeWire then ThreeWire else FourWire)
  }

  /** With neither macro defined the driver uses software 4-wire SPI. */
  lemma DefaultModeIsSoftwareFourWire()
    ensures ConfiguredMode(false, false) == Mode(Software, FourWire)
  {
  }
}
