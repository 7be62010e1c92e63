/** The colour helpers of `ColorExtensions.swift`: a hue in [0, 1] turned
    into a fully saturated, fully bright colour by three clamped linear
    ramps, and hue, saturation and brightness turned into a colour by
    mixing towards white and scaling. Components are real numbers. */
module Color {

  datatype Rgb = Rgb(r: real, g: real, b: real)

  function Abs(x: real): real {
    if x < 0.0 then -x else x
  }

  /** `max(lo, min(hi, x))`. */
  function Clamp(x: real, lo: real, hi: real): (r: real)
    requires lo <= hi
    ensures lo <= r <= hi
    ensures lo <= x <= hi ==> r == x
  {
    if x < lo then lo else if x > hi then hi else x
  }

  /** `hue2rgb`: the hue is clamped to [0, 1], each component is a ramp
      in six times the hue, and the ramps are clamped to [0, 1]. */
  function Hue2Rgb(hue: real): (c: Rgb)
    ensures 0.0 <= c.r <= 1.0 && 0.0 <= c.g <= 1.0 && 0.0 <= c.b <= 1.0
  {
    var h := Clamp(hue, 0.0, 1.0);
    var r := Abs(h * 6.0 - 3.0) - 1.0;
    var g := 2.0 - Abs(h * 6.0 - 2.0);
    var b := 2.0 - Abs(h * 6.0 - 4.0);
    Rgb(Clamp(r, 0.0, 1.0), Clamp(g, 0.0, 1.0), Clamp(b, 0.0, 1.0))
  }

  /** The hue circle by sixths, as HSV colour models define it: red,
      yellow, green, cyan, blue, magenta and back to red, one component
      rising or falling in each sixth. */
  function HueSector(h: real): Rgb
    requires 0.0 <= h <= 1.0
  {
    var x := h * 6.0;
    if x < 1.0 then Rgb(1.0, x, 0.0)
    else if x < 2.0 then Rgb(2.0 - x, 1.0, 0.0)
    else if x < 3.0 then Rgb(0.0, 1.0, x - 2.0)
    else if x < 4.0 then Rgb(0.0, 4.0 - x, 1.0)
    else if x < 5.0 then Rgb(x - 4.0, 0.0, 1.0)
    else Rgb(1.0, 0.0, 6.0 - x)
  }

  /** The ramps are the sixth-by-sixth hue circle of the clamped hue. */
  lemma Hue2RgbIsHueCircle(hue: real)
    ensures Hue2Rgb(hue) == HueSector(Clamp(hue, 0.0, 1.0))
  {
  }

  /** Both ends of the hue range are red, and hues outside it are
      clamped to it. */
  lemma HueEndsAreRed(hue: real)
    ensures Hue2Rgb(0.0) == Rgb(1.0, 0.0, 0.0) && Hue2Rgb(1.0) == Rgb(1.0, 0.0, 0.0)
    ensures Hue2Rgb(hue) == Hue2Rgb(Clamp(hue, 0.0, 1.0))
  {
  }

  function Max3(c: Rgb): real {
    if c.r >= c.g && c.r >= c.b then c.r else if c.g >= c.b then c.g else c.b
  }

  function Min3(c: Rgb): real {
    if c.r <= c.g && c.r <= c.b then c.r else if c.g <= c.b then c.g else c.b
  }

  /** A hue colour is fully saturated and fully bright: its largest
      component is 1 and its smallest 0. */
  lemma HueColourExtremes(hue: real)
    ensures Max3(Hue2Rgb(hue)) == 1.0 && Min3(Hue2Rgb(hue)) == 0.0
  {
    Hue2RgbIsHueCircle(hue);
  }

  /** One component of `hsb2rgb`: `mix(1, x, s) * v`. */
  function Shade(x: real, s: real, v: real): real {
    (1.0 + (x - 1.0) * s) * v
  }

  /** `hsb2rgb`: the hue colour, mixed towards white by the saturation,
      scaled by the brightness. */
  function Hsb2Rgb(hue: real, saturation: real, brightness: real): Rgb {
    var c := Hue2Rgb(hue);
    Rgb(Shade(c.r, saturation, brightness), Shade(c.g, saturation, brightness), Shade(c.b, saturation, brightness))
  }

  lemma MulNonNegative(a: real, b: real)
    requires 0.0 <= a && 0.0 <= b
    ensures 0.0 <= a * b
  {
  }

  lemma MulMonotone(a: real, b: real, c: real)
    requires a <= b && 0.0 <= c
    ensures a * c <= b * c
  {
    MulNonNegative(b - a, c);
    assert (b - a) * c == b * c - a * c;
  }

  /** For a saturation in [0, 1] and a non-negative brightness, shading
      keeps a component in [0, brightness] and keeps the components'
      order. */
  lemma ShadeBounds(x: real, y: real, s: real, v: real)
    requires 0.0 <= x <= 1.0 && 0.0 <= y <= 1.0 && 0.0 <= s <= 1.0 && 0.0 <= v
    ensures 0.0 <= Shade(x, s, v) <= v
    ensures x <= y ==> Shade(x, s, v) <= Shade(y, s, v)
  {
    var m := 1.0 + (x - 1.0) * s;
    MulNonNegative(1.0 - x, s);
    MulMonotone(1.0 - x, 1.0, s);
    assert (x - 1.0) * s == -((1.0 - x) * s);
    assert 0.0 <= m <= 1.0;
    MulNonNegative(m, v);
    MulMonotone(m, 1.0, v);
    if x <= y {
      var n := 1.0 + (y - 1.0) * s;
      MulMonotone(x - 1.0, y - 1.0, s);
      MulMonotone(m, n, v);
    }
  }

  /** With no saturation the colour is the grey of the brightness; with
      full saturation and brightness it is the hue colour. */
  lemma HsbEdges(hue: real, v: real)
    ensures Hsb2Rgb(hue, 0.0, v) == Rgb(v, v, v)
    ensures Hsb2Rgb(hue, 1.0, 1.0) == Hue2Rgb(hue)
  {
  }

  /** For a saturation in [0, 1] and a non-negative brightness every
      component lies in [0, brightness], the largest component is the
      brightness, and the smallest is the brightness less its saturated
      share. */
  lemma HsbMeaning(hue: real, s: real, v: real)
    requires 0.0 <= s <= 1.0 && 0.0 <= v
    ensures var c := Hsb2Rgb(hue, s, v);
      0.0 <= c.r <= v && 0.0 <= c.g <= v && 0.0 <= c.b <= v
    ensures Max3(Hsb2Rgb(hue, s, v)) == v
    ensures Min3(Hsb2Rgb(hue, s, v)) == v * (1.0 - s)
  {
    var h := Hue2Rgb(hue);
    HueColourExtremes(hue);
    ShadeBounds(h.r, h.g, s, v);
    ShadeBounds(h.g, h.b, s, v);
    ShadeBounds(h.b, h.r, s, v);
    ShadeBounds(h.g, h.r, s, v);
    ShadeBounds(h.b, h.g, s, v);
    ShadeBounds(h.r, h.b, s, v);
    assert Shade(1.0, s, v) == v;
    assert Shade(0.0, s, v) == v * (1.0 - s);
  }
}
