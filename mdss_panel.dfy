/**
 * The panel timing arithmetic of the MDSS display driver: the frame rate a
 * panel runs at, and its total height and width including the blanking
 * regions. All sums and the product are `u32` operations, so they wrap
 * modulo 2^32; the totals are returned as `int`.
 */
module MdssPanel {
  import opened CInt

  /** DEFAULT_FRAME_RATE */
  const DefaultFrameRate: U32 := 60

  /** The panel types the frame rate switch distinguishes. */
  const MipiVideoPanel: U32 := 8
  const MipiCmdPanel: U32 := 9
  const WritebackPanel: U32 := 10

  /** `char`, which is unsigned on the ARM targets of this driver */
  type Char = x: int | 0 <= x < 0x100

  /** The porch and pulse widths of struct lcd_panel_info. */
  datatype LcdPanelInfo = LcdPanelInfo(
    hBackPorch: U32, hFrontPorch: U32, hPulseWidth: U32,
    vBackPorch: U32, vFrontPorch: U32, vPulseWidth: U32)

  /** The frame rate a MIPI panel declares in struct mipi_panel_info. */
  datatype MipiPanelInfo = MipiPanelInfo(frameRate: Char)

  /** The fields of struct mdss_panel_info that the timing functions read. */
  datatype PanelInfo = PanelInfo(
    xres: U32, yres: U32, panelType: U32, clkRate: U32,
    lcdc: LcdPanelInfo, mipi: MipiPanelInfo)

  /** A pointer that may be NULL. */
  datatype Option<T> = None | Some(value: T)

  /** `u32 a + b + c + d`, evaluated left to right. */
  function Sum4(a: U32, b: U32, c: U32, d: U32): (r: U32)
    ensures r == (a + b + c + d) % Pow32
  {
    var ab := Add32(a, b);
    ModAdd(a + b, c, ab, c);
    var abc := Add32(ab, c);
    ModAdd(a + b + c, d, abc, d);
    Add32(abc, d)
  }

  /** The true (unbounded) total width and height of a panel. */
  function Width(p: PanelInfo): nat
  {
    p.xres + p.lcdc.hBackPorch + p.lcdc.hFrontPorch + p.lcdc.hPulseWidth
  }

  function Height(p: PanelInfo): nat
  {
    p.yres + p.lcdc.vBackPorch + p.lcdc.vFrontPorch + p.lcdc.vPulseWidth
  }

  /**
   * pixel_total in mdss_panel_get_framerate: the horizontal sum times the
   * vertical sum, each operation wrapping; the result is the true product
   * of the two totals modulo 2^32.
   */
  function PixelTotal(p: PanelInfo): (t: U32)
    ensures t == (Width(p) * Height(p)) % Pow32
  {
    var h := Sum4(p.lcdc.hBackPorch, p.lcdc.hFrontPorch, p.lcdc.hPulseWidth, p.xres);
    var v := Sum4(p.lcdc.vBackPorch, p.lcdc.vFrontPorch, p.lcdc.vPulseWidth, p.yres);
    ModMul(Width(p), Height(p), h, v);
    Mul32(h, v)
  }

  /** Whether the frame rate switch takes its default branch for this panel type. */
  predicate TimedByClock(panelType: U32)
  {
    panelType != MipiVideoPanel && panelType != MipiCmdPanel && panelType != WritebackPanel
  }

  /** r is n / d rounded down: d whole multiples of r fit in n, and one more does not. */
  predicate FloorQuotient(r: int, n: int, d: int)
  {
    r * d <= n < (r + 1) * d
  }

  /** The frame rate of a clock-timed panel, guarded against a zero divisor. */
  function ClockRate(clk: U32, total: U32): (r: U32)
    ensures total == 0 ==> r == DefaultFrameRate
    ensures total != 0 ==> FloorQuotient(r, clk, total) && r <= clk
  {
    if total != 0 then
      DivBounds(clk, total);
      MulGrows(clk / total, total);
      clk / total
    else
      DefaultFrameRate
  }

  lemma MulGrows(q: nat, d: int)
    requires d >= 1
    ensures q <= q * d
  {
    assert q * d == q + q * (d - 1);
  }

  /**
   * mdss_panel_get_framerate. NULL gives the default; MIPI panels give their
   * declared rate; writeback gives the default; any other panel gives the
   * pixel clock divided (rounding down) by the pixels per frame, and the
   * default when that count wraps to 0.
   */
  function GetFramerate(info: Option<PanelInfo>): (r: U32)
    ensures info.None? ==> r == DefaultFrameRate
    ensures info.Some? && (info.value.panelType == MipiVideoPanel || info.value.panelType == MipiCmdPanel) ==>
      r == info.value.mipi.frameRate
    ensures info.Some? && info.value.panelType == WritebackPanel ==> r == DefaultFrameRate
    ensures info.Some? && TimedByClock(info.value.panelType) && PixelTotal(info.value) == 0 ==>
      r == DefaultFrameRate
    ensures info.Some? && TimedByClock(info.value.panelType) && PixelTotal(info.value) != 0 ==>
      FloorQuotient(r, info.value.clkRate, PixelTotal(info.value)) && r <= info.value.clkRate
  {
    match info
    case None => DefaultFrameRate
    case Some(p) =>
      if p.panelType == MipiVideoPanel || p.panelType == MipiCmdPanel then
        p.mipi.frameRate
      else if p.panelType == WritebackPanel then
        DefaultFrameRate
      else
        ClockRate(p.clkRate, PixelTotal(p))
  }

  /**
   * mdss_panel_get_vtotal: the height including the vertical blanking, as an
   * `int`: the value congruent to the true height modulo 2^32, and the true
   * height whenever that fits.
   */
  function GetVtotal(p: PanelInfo): (r: Int32)
    ensures (r - Height(p)) % Pow32 == 0
    ensures Height(p) < 0x8000_0000 ==> r == Height(p)
  {
    ToInt32(Sum4(p.yres, p.lcdc.vBackPorch, p.lcdc.vFrontPorch, p.lcdc.vPulseWidth))
  }

  /** mdss_panel_get_htotal: the width including the horizontal blanking, likewise. */
  function GetHtotal(p: PanelInfo): (r: Int32)
    ensures (r - Width(p)) % Pow32 == 0
    ensures Width(p) < 0x8000_0000 ==> r == Width(p)
  {
    ToInt32(Sum4(p.xres, p.lcdc.hBackPorch, p.lcdc.hFrontPorch, p.lcdc.hPulseWidth))
  }

  /** The frame rate divisor is htotal * vtotal, both sides taken modulo 2^32. */
  lemma FrameDivisorIsHtotalTimesVtotal(p: PanelInfo)
    ensures PixelTotal(p) == (GetHtotal(p) * GetVtotal(p)) % Pow32
  {
    ModMul(GetHtotal(p), GetVtotal(p), Width(p), Height(p));
  }

  /** When nothing wraps, a clock-timed panel runs at clk_rate / (htotal * vtotal), rounded down. */
  lemma FramerateWithoutWrap(p: PanelInfo)
    requires TimedByClock(p.panelType)
    requires 0 < Width(p) * Height(p) < Pow32
    ensures GetFramerate(Some(p)) == p.clkRate / (Width(p) * Height(p))
  {
    var t := Width(p) * Height(p);
    SmallResidue(t);
    assert PixelTotal(p) == t;
  }

  lemma SmallResidue(x: int)
    requires 0 <= x < Pow32
    ensures x % Pow32 == x
  {
  }

  /**
   * A panel whose pixels per frame are exactly 2^32 (a 65536 x 65536 mode
   * without blanking) wraps pixel_total to 0, so its frame rate is the
   * default rather than the clock's.
   */
  lemma WrappedTotalGivesDefault(clk: U32, panelType: U32)
    requires TimedByClock(panelType)
    ensures GetFramerate(Some(PanelInfo(0x1_0000, 0x1_0000, panelType, clk,
              LcdPanelInfo(0, 0, 0, 0, 0, 0), MipiPanelInfo(0)))) == DefaultFrameRate
  {
    var p := PanelInfo(0x1_0000, 0x1_0000, panelType, clk, LcdPanelInfo(0, 0, 0, 0, 0, 0), MipiPanelInfo(0));
    assert Width(p) * Height(p) == Pow32;
    assert PixelTotal(p) == 0;
  }
}
