/**
 * The value model of an OpenCV matrix (cv::Mat) as the library uses it:
 * a rows x cols grid of pixels with a channel count and an element depth,
 * stored row by row as bytes.
 */
module Images {

  type byte = x: int | 0 <= x < 256

  /** The element depths of cv::Mat; only U8 (CV_8U) is ever written or read as TGA. */
  datatype Depth = U8 | S8 | U16 | S16 | S32 | F32 | F64

  /** `data[r]` holds row r: cols * channels bytes, pixel after pixel. */
  datatype Image = Image(rows: nat, cols: nat, channels: nat, depth: Depth, data: seq<seq<byte>>)

  /** cv::Mat::empty(): no elements at all. */
  predicate Empty(m: Image)
  {
    m.rows * m.cols == 0
  }

  /** The default-constructed cv::Mat. */
  function NoImage(): (m: Image)
    ensures Empty(m)
  {
    Image(0, 0, 1, U8, [])
  }

  /** Every row holds exactly cols * channels bytes. */
  predicate WellFormed(m: Image)
  {
    |m.data| == m.rows && forall r :: 0 <= r < |m.data| ==> |m.data[r]| == m.cols * m.channels
  }
}
