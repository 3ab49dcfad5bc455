/** The colour types of include/hueplusplus/ColorUnits.h. */
module Colors {
  datatype HueSaturation = HueSaturation(hue: int, saturation: int)

  /** Coordinates in the CIE colour space. */
  datatype XY = XY(x: real, y: real)

  datatype XYBrightness = XYBrightness(xy: XY, brightness: real)
}
