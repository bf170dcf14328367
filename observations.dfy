/** The row shape shared by the extracted files, the coalescer and the summary. */
module Observations {

  /**
   * One forecast value: cell (x = raster row, y = raster column), the value
   * `vals`, and the issuance time `fcstTime` and valid time `validTime` as
   * whole seconds since the Unix epoch (UTC).
   */
  datatype Observation = Observation(x: int, y: int, vals: real, fcstTime: int, validTime: int)
}
