/** The colour conversions of the colour picker (ext/raygui.h), with `float` read as `real`. */
module Colour {
  import opened RealArith

  /** Either red, green, blue or hue (degrees), saturation, value. */
  datatype Vector3 = Vector3(x: real, y: real, z: real)

  /** Channel spreads below this count as grey. */
  const GREY_SPREAD: real := 0.00001

  function MinChannel(rgb: Vector3): real {
    var min := if rgb.x < rgb.y then rgb.x else rgb.y;
    if min < rgb.z then min else rgb.z
  }

  function MaxChannel(rgb: Vector3): real {
    var max := if rgb.x > rgb.y then rgb.x else rgb.y;
    if max > rgb.z then max else rgb.z
  }

  function Spread(rgb: Vector3): real {
    MaxChannel(rgb) - MinChannel(rgb)
  }

  /** The sector a hue is measured from (red 0, green 2, blue 4) and the signed distance from it. */
  function HueOffset(rgb: Vector3): (real, real) {
    var max := MaxChannel(rgb);
    if rgb.x >= max then (0.0, rgb.y - rgb.z)
    else if rgb.y >= max then (2.0, rgb.z - rgb.x)
    else (4.0, rgb.x - rgb.y)
  }

  function Degrees(sectors: real): real {
    var degrees := sectors * 60.0;
    if degrees < 0.0 then degrees + 360.0 else degrees
  }

  function ConvertRGBtoHSV(rgb: Vector3): Vector3 {
    var max := MaxChannel(rgb);
    var delta := Spread(rgb);
    if delta < GREY_SPREAD then Vector3(0.0, 0.0, max)
    else if max > 0.0 then
      var (base, offset) := HueOffset(rgb);
      Vector3(Degrees(base + offset / delta), delta / max, max)
    else Vector3(0.0, 0.0, max)
  }

  function ConvertHSVtoRGB(hsv: Vector3): Vector3 {
    var v := hsv.z;
    if hsv.y <= 0.0 then Vector3(v, v, v)
    else
      var hh := (if hsv.x >= 360.0 then 0.0 else hsv.x) / 60.0;
      var i := Trunc(hh);
      var ff := hh - i as real;
      var p := v * (1.0 - hsv.y);
      var q := v * (1.0 - hsv.y * ff);
      var t := v * (1.0 - hsv.y * (1.0 - ff));
      if i == 0 then Vector3(v, t, p)
      else if i == 1 then Vector3(q, v, p)
      else if i == 2 then Vector3(p, v, t)
      else if i == 3 then Vector3(p, q, v)
      else if i == 4 then Vector3(t, p, v)
      else Vector3(v, p, q)
  }

  ghost predicate Normalised(rgb: Vector3) {
    0.0 <= rgb.x <= 1.0 && 0.0 <= rgb.y <= 1.0 && 0.0 <= rgb.z <= 1.0
  }

  // ----- An independent definition of the HSV cone -----

  /** One channel of the closed form: 0 at the bright plateau, 1 at the dark one, linear between. */
  ghost function Shade(k: real): real {
    if k <= 0.0 then 0.0
    else if k < 1.0 then k
    else if k <= 3.0 then 1.0
    else if k < 4.0 then 4.0 - k
    else 0.0
  }

  ghost function Mod6(x: real): real {
    if x >= 6.0 then x - 6.0 else x
  }

  /** The usual closed form: each channel is v - v*s*Shade((n + h/60) mod 6) with n = 5, 3, 1. */
  ghost function Cone(h: real, s: real, v: real): Vector3 {
    Vector3(v - v * s * Shade(Mod6(5.0 + h / 60.0)),
            v - v * s * Shade(Mod6(3.0 + h / 60.0)),
            v - v * s * Shade(Mod6(1.0 + h / 60.0)))
  }

  /** The six-way switch is the closed form, and a hue of 360 or more is read as 0, not wrapped. */
  lemma HsvMatchesCone(hsv: Vector3)
    requires 0.0 <= hsv.x && 0.0 <= hsv.y
    ensures ConvertHSVtoRGB(hsv) == Cone(if hsv.x >= 360.0 then 0.0 else hsv.x, hsv.y, hsv.z)
  {
    if hsv.y > 0.0 {
      var seen := hsv.(x := if hsv.x >= 360.0 then 0.0 else hsv.x);
      assert ConvertHSVtoRGB(hsv) == ConvertHSVtoRGB(seen);
      hide ConvertHSVtoRGB, Cone;
      var i, ff, d := SectorPicture(seen);
      ConePicture(seen, i, ff, d);
    }
  }

  lemma ConePicture(hsv: Vector3, i: int, ff: real, d: real)
    requires 0 <= i <= 5 && 0.0 <= ff < 1.0 && hsv.x == 60.0 * (i as real + ff) && d == hsv.y * hsv.z
    ensures Cone(hsv.x, hsv.y, hsv.z) == Picture(hsv.z, d, d * ff, i)
  {
    hide Shade, Mod6;
    var shades := ShadeAt(hsv.x, i, ff);
    assert hsv.z * hsv.y == d;
    MulUnits(d, ff);
  }

  lemma MulUnits(d: real, f: real)
    ensures d * 0.0 == 0.0 && d * 1.0 == d && d * (1.0 - f) == d - d * f
  {
  }

  /** The three shades of the closed form, sector by sector. */
  lemma ShadeAt(h: real, i: int, ff: real) returns (r: Vector3)
    requires 0 <= i <= 5 && 0.0 <= ff < 1.0 && h == 60.0 * (i as real + ff)
    ensures r == Vector3(Shade(Mod6(5.0 + h / 60.0)), Shade(Mod6(3.0 + h / 60.0)), Shade(Mod6(1.0 + h / 60.0)))
    ensures match i
      case 0 => r == Vector3(0.0, 1.0 - ff, 1.0)
      case 1 => r == Vector3(ff, 0.0, 1.0)
      case 2 => r == Vector3(1.0, 0.0, 1.0 - ff)
      case 3 => r == Vector3(1.0, ff, 0.0)
      case 4 => r == Vector3(1.0 - ff, 1.0, 0.0)
      case _ => r == Vector3(0.0, 1.0, ff)
  {
    r := Vector3(Shade(Mod6(5.0 + h / 60.0)), Shade(Mod6(3.0 + h / 60.0)), Shade(Mod6(1.0 + h / 60.0)));
    assert h / 60.0 == i as real + ff;
  }

  /** The dark channel and the two middle ones, in terms of the chroma. */
  lemma Painted(v: real, s: real, f: real, d: real)
    requires d == s * v
    ensures v * (1.0 - s) == v - d
    ensures v * (1.0 - s * f) == v - d * f
    ensures v * (1.0 - s * (1.0 - f)) == v - d + d * f
  {
    Expand(v, s);
    Expand(v, s * f);
    Expand(v, s * (1.0 - f));
    Regroup(v, s, f);
    Regroup(v, s, 1.0 - f);
    Expand(d, f);
  }

  lemma Expand(v: real, x: real)
    ensures v * (1.0 - x) == v - v * x
  {
  }

  lemma Regroup(v: real, s: real, f: real)
    ensures v * (s * f) == (s * v) * f
  {
  }

  // ----- HSV to RGB and back -----

  /** The colour of sector i with value v and chroma d, where e of the chroma is spent on the middle channel. */
  function Picture(v: real, d: real, e: real, i: int): Vector3 {
    match i
    case 0 => Vector3(v, v - d + e, v - d)
    case 1 => Vector3(v - e, v, v - d)
    case 2 => Vector3(v - d, v, v - d + e)
    case 3 => Vector3(v - d, v - e, v)
    case 4 => Vector3(v - d + e, v - d, v)
    case _ => Vector3(v, v - d, v - e)
  }

  /** Where a hue sits inside its sector, and the colour the switch paints there. */
  lemma SectorPicture(hsv: Vector3) returns (i: int, ff: real, d: real)
    requires 0.0 <= hsv.x < 360.0 && hsv.y > 0.0
    ensures 0 <= i <= 5 && 0.0 <= ff < 1.0 && hsv.x == 60.0 * (i as real + ff)
    ensures d == hsv.y * hsv.z
    ensures ConvertHSVtoRGB(hsv) == Picture(hsv.z, d, d * ff, i)
  {
    var hh := hsv.x / 60.0;
    i := Trunc(hh);
    ff := hh - i as real;
    d := hsv.y * hsv.z;
    assert 0.0 <= hh < 6.0;
    Painted(hsv.z, hsv.y, ff, d);
    hide Trunc;
  }

  lemma PictureSpread(v: real, d: real, e: real, i: int)
    requires 0.0 <= e <= d && 0 <= i <= 5
    ensures MaxChannel(Picture(v, d, e, i)) == v && MinChannel(Picture(v, d, e, i)) == v - d
  {
  }

  lemma HueOfPicture(v: real, d: real, e: real, f: real, i: int)
    requires GREY_SPREAD <= d && 0.0 <= e < d && 0 <= i <= 5 && v > 0.0
    requires 0.0 <= f < 1.0 && (e == 0.0 <==> f == 0.0)
    requires e / d == f
    ensures ConvertRGBtoHSV(Picture(v, d, e, i)) == Vector3(60.0 * (i as real + f), d / v, v)
  {
    PictureSpread(v, d, e, i);
    var rgb := Picture(v, d, e, i);
    var (base, offset) := HueOffset(rgb);
    var ratio := PictureRatio(d, e, f, offset);
    assert Degrees(base + ratio) == 60.0 * (i as real + f);
  }

  lemma PictureRatio(d: real, e: real, f: real, offset: real) returns (r: real)
    requires d > 0.0 && e / d == f
    requires offset == e || offset == -e || offset == d - e || offset == e - d
    ensures r == offset / d
    ensures offset == e ==> r == f
    ensures offset == -e ==> r == -f
    ensures offset == d - e ==> r == 1.0 - f
    ensures offset == e - d ==> r == f - 1.0
  {
    r := offset / d;
    assert e == f * d;
    assert d - e == (1.0 - f) * d;
    if offset == e { DivIs(offset, d, f); }
    if offset == -e { DivIs(offset, d, -f); }
    if offset == d - e { DivIs(offset, d, 1.0 - f); }
    if offset == e - d { DivIs(offset, d, f - 1.0); }
  }

  lemma ScaleBetween(d: real, f: real) returns (e: real)
    requires d >= 0.0 && 0.0 <= f < 1.0
    ensures e == d * f && 0.0 <= e <= d
    ensures d > 0.0 ==> e < d && (f == 0.0 <==> e == 0.0) && e / d == f
  {
    e := d * f;
    if d > 0.0 {
      assert d * f < d * 1.0;
      DivIs(e, d, f);
    }
  }

  /**
   * Exactly which HSV colours survive the trip through RGB. The two functions pick sectors
   * differently on the six boundaries; the identity holds there too. It fails only where the
   * chroma s*v is under the grey threshold, which forgets hue and saturation.
   */
  lemma HsvRoundTrip(hsv: Vector3)
    requires 0.0 <= hsv.x < 360.0 && 0.0 <= hsv.y && 0.0 <= hsv.z
    ensures ConvertRGBtoHSV(ConvertHSVtoRGB(hsv)) == hsv
       <==> (hsv.y * hsv.z >= GREY_SPREAD || (hsv.x == 0.0 && hsv.y == 0.0))
  {
    hide ConvertHSVtoRGB, ConvertRGBtoHSV;
    if hsv.y > 0.0 {
      ColouredHsvBack(hsv);
    } else {
      GreyHsvBack(hsv);
    }
  }

  lemma GreyHsvBack(hsv: Vector3)
    requires hsv.y == 0.0
    ensures ConvertRGBtoHSV(ConvertHSVtoRGB(hsv)) == Vector3(0.0, 0.0, hsv.z)
  {
  }

  lemma ColouredHsvBack(hsv: Vector3)
    requires 0.0 <= hsv.x < 360.0 && 0.0 < hsv.y && 0.0 <= hsv.z
    ensures ConvertRGBtoHSV(ConvertHSVtoRGB(hsv)) == hsv <==> hsv.y * hsv.z >= GREY_SPREAD
  {
    hide ConvertHSVtoRGB, ConvertRGBtoHSV;
    var i, ff, d := SectorPicture(hsv);
    var e := ScaleBetween(d, ff);
    if d >= GREY_SPREAD { DivIs(d, hsv.z, hsv.y); }
    PictureBack(hsv, d, e, ff, i);
  }

  lemma PictureBack(hsv: Vector3, d: real, e: real, f: real, i: int)
    requires 0 <= i <= 5 && 0.0 <= f < 1.0 && hsv.x == 60.0 * (i as real + f)
    requires 0.0 < hsv.y && 0.0 <= hsv.z && 0.0 <= e <= d && (d >= GREY_SPREAD ==> hsv.z > 0.0 && d / hsv.z == hsv.y)
    requires d > 0.0 ==> e < d && (f == 0.0 <==> e == 0.0) && e / d == f
    ensures ConvertRGBtoHSV(Picture(hsv.z, d, e, i)) == hsv <==> d >= GREY_SPREAD
  {
    PictureSpread(hsv.z, d, e, i);
    if d >= GREY_SPREAD {
      hide ConvertRGBtoHSV;
      HueOfPicture(hsv.z, d, e, f, i);
    }
  }

  // ----- RGB to HSV and back -----

  /** Every colour is the picture of exactly one place inside one sector. */
  lemma AsPicture(rgb: Vector3) returns (i: int, e: real)
    requires Spread(rgb) > 0.0
    ensures 0 <= i <= 5 && 0.0 <= e < Spread(rgb)
    ensures rgb == Picture(MaxChannel(rgb), Spread(rgb), e, i)
  {
    var max, min := MaxChannel(rgb), MinChannel(rgb);
    if rgb.x == max && rgb.z == min && rgb.y < max {
      i, e := 0, rgb.y - min;
    } else if rgb.y == max && rgb.z == min && rgb.x > min {
      i, e := 1, max - rgb.x;
    } else if rgb.y == max && rgb.x == min && rgb.z < max {
      i, e := 2, rgb.z - min;
    } else if rgb.z == max && rgb.x == min && rgb.y > min {
      i, e := 3, max - rgb.y;
    } else if rgb.z == max && rgb.y == min && rgb.x < max {
      i, e := 4, rgb.x - min;
    } else {
      i, e := 5, max - rgb.z;
    }
  }

  lemma RatioInUnit(e: real, d: real) returns (f: real)
    requires 0.0 <= e < d
    ensures f == e / d && 0.0 <= f < 1.0 && (e == 0.0 <==> f == 0.0) && d * f == e
  {
    f := e / d;
    assert f * d == e;
    ProperFraction(e, d);
  }

  /** The hue, saturation and value of a visibly coloured pixel, and its place in its sector. */
  lemma HueSector(rgb: Vector3) returns (i: int, f: real)
    requires Spread(rgb) >= GREY_SPREAD && MaxChannel(rgb) > 0.0
    ensures 0 <= i <= 5 && 0.0 <= f < 1.0
    ensures ConvertRGBtoHSV(rgb) == Vector3(60.0 * (i as real + f), Spread(rgb) / MaxChannel(rgb), MaxChannel(rgb))
    ensures rgb == Picture(MaxChannel(rgb), Spread(rgb), Spread(rgb) * f, i)
  {
    hide ConvertRGBtoHSV;
    var e;
    i, e := AsPicture(rgb);
    f := RatioInUnit(e, Spread(rgb));
    HueOfPicture(MaxChannel(rgb), Spread(rgb), e, f, i);
  }

  /**
   * Exactly which RGB colours survive the trip through HSV, over all reals: greys, and colours
   * with a visible spread and a positive channel.
   */
  lemma RgbRoundTrip(rgb: Vector3)
    ensures ConvertHSVtoRGB(ConvertRGBtoHSV(rgb)) == rgb
       <==> (Spread(rgb) == 0.0 || (Spread(rgb) >= GREY_SPREAD && MaxChannel(rgb) > 0.0))
  {
    if Spread(rgb) >= GREY_SPREAD && MaxChannel(rgb) > 0.0 {
      VisibleRoundTrip(rgb);
    } else {
      GreyRoundTrip(rgb);
    }
  }

  lemma GreyRoundTrip(rgb: Vector3)
    requires Spread(rgb) < GREY_SPREAD || MaxChannel(rgb) <= 0.0
    ensures var max := MaxChannel(rgb); ConvertHSVtoRGB(ConvertRGBtoHSV(rgb)) == Vector3(max, max, max)
  {
    assert ConvertRGBtoHSV(rgb) == Vector3(0.0, 0.0, MaxChannel(rgb));
  }

  lemma VisibleRoundTrip(rgb: Vector3)
    requires Spread(rgb) >= GREY_SPREAD && MaxChannel(rgb) > 0.0
    ensures ConvertHSVtoRGB(ConvertRGBtoHSV(rgb)) == rgb
  {
    hide ConvertHSVtoRGB, ConvertRGBtoHSV;
    var i, f := HueSector(rgb);
    var hsv := ConvertRGBtoHSV(rgb);
    QuotientBack(Spread(rgb), MaxChannel(rgb));
    var j, g, d := SectorPicture(hsv);
    assert i == j && f == g;
    assert d == Spread(rgb);
  }

  lemma QuotientBack(d: real, v: real)
    requires 0.0 < d && 0.0 < v
    ensures d / v > 0.0 && (d / v) * v == d
    ensures d <= v ==> d / v <= 1.0
  {
  }

  /** What the grey threshold costs: no channel ever darkens, and none brightens by 0.00001. */
  lemma RgbDrift(rgb: Vector3)
    requires 0.0 <= rgb.x && 0.0 <= rgb.y && 0.0 <= rgb.z
    ensures
      var back := ConvertHSVtoRGB(ConvertRGBtoHSV(rgb));
      && rgb.x <= back.x < rgb.x + GREY_SPREAD
      && rgb.y <= back.y < rgb.y + GREY_SPREAD
      && rgb.z <= back.z < rgb.z + GREY_SPREAD
  {
    RgbRoundTrip(rgb);
  }

  lemma HsvRange(rgb: Vector3)
    requires Normalised(rgb)
    ensures
      var hsv := ConvertRGBtoHSV(rgb);
      0.0 <= hsv.x < 360.0 && 0.0 <= hsv.y <= 1.0 && 0.0 <= hsv.z <= 1.0
  {
    if Spread(rgb) >= GREY_SPREAD {
      hide ConvertRGBtoHSV;
      var i, f := HueSector(rgb);
      QuotientBack(Spread(rgb), MaxChannel(rgb));
    }
  }
}
