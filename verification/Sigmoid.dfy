/** sigmoid_lut of src/npulib/npu_math.c: entry i & 0xff is 255 * sigmoid(i / 32) - 128,
    rounded, for i from -128 to 127. */
module Sigmoid {

  function Rows0(i: nat): (r: seq<int>)
    requires i < 4
    ensures |r| == 16 && forall k :: 0 <= k < 16 ==> 0 <= r[k] <= 127
  {
    if i == 0 then [0, 1, 3, 5, 7, 9, 11, 13, 15, 17, 19, 21, 23, 25, 27, 29]
    else if i == 1 then [31, 33, 34, 36, 38, 40, 42, 43, 45, 47, 49, 50, 52, 54, 55, 57]
    else if i == 2 then [58, 60, 62, 63, 65, 66, 67, 69, 70, 72, 73, 74, 76, 77, 78, 79]
    else [80, 82, 83, 84, 85, 86, 87, 88, 89, 90, 91, 92, 93, 94, 95, 96]
  }

  function Rows4(i: nat): (r: seq<int>)
    requires i < 4
    ensures |r| == 16 && forall k :: 0 <= k < 16 ==> 0 <= r[k] <= 127
  {
    if i == 0 then [97, 97, 98, 99, 100, 101, 101, 102, 103, 103, 104, 105, 105, 106, 107, 107]
    else if i == 1 then [108, 108, 109, 109, 110, 110, 111, 111, 112, 112, 113, 113, 113, 114, 114, 115]
    else if i == 2 then [115, 115, 116, 116, 116, 117, 117, 117, 117, 118, 118, 118, 119, 119, 119, 119]
    else [120, 120, 120, 120, 120, 121, 121, 121, 121, 121, 121, 122, 122, 122, 122, 122]
  }

  function Rows8(i: nat): (r: seq<int>)
    requires i < 4
    ensures |r| == 16 && forall k :: 0 <= k < 16 ==> -128 <= r[k] <= -2
  {
    if i == 0 then [-123, -123, -123, -123, -123, -123, -122, -122, -122, -122, -122, -122, -121, -121, -121, -121]
    else if i == 1 then [-121, -120, -120, -120, -120, -119, -119, -119, -118, -118, -118, -118, -117, -117, -117, -116]
    else if i == 2 then [-116, -116, -115, -115, -114, -114, -114, -113, -113, -112, -112, -111, -111, -110, -110, -109]
    else [-109, -108, -108, -107, -106, -106, -105, -104, -104, -103, -102, -102, -101, -100, -99, -98]
  }

  function Rows12(i: nat): (r: seq<int>)
    requires i < 4
    ensures |r| == 16 && forall k :: 0 <= k < 16 ==> -128 <= r[k] <= -2
  {
    if i == 0 then [-98, -97, -96, -95, -94, -93, -92, -91, -90, -89, -88, -87, -86, -85, -84, -83]
    else if i == 1 then [-81, -80, -79, -78, -77, -75, -74, -73, -71, -70, -68, -67, -66, -64, -63, -61]
    else if i == 2 then [-59, -58, -56, -55, -53, -51, -50, -48, -46, -44, -43, -41, -39, -37, -35, -34]
    else [-32, -30, -28, -26, -24, -22, -20, -18, -16, -14, -12, -10, -8, -6, -4, -2]
  }

  /** sigmoid_lut[i] */
  function SigmoidLut(i: nat): (r: int)
    requires i < 256
    ensures -128 <= r <= 127
  {
    var (row, col) := (i / 16, i % 16);
    if row < 4 then Rows0(row)[col] else if row < 8 then Rows4(row - 4)[col]
    else if row < 12 then Rows8(row - 8)[col] else Rows12(row - 12)[col]
  }
}
