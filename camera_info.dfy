/**
  The calibration record `FullCameraInfo` of `src/cv.rs` and its byte
  serialisation. An OpenCV matrix is modelled by its shape and its elements in
  row-major order; the rest of the OpenCV wrapper is not modelled.
 */
module CameraInfo {
  import opened Wire

  /** A matrix of doubles: `rows` by `cols`, elements row by row. */
  datatype Mat = Mat(rows: nat, cols: nat, elems: seq<F64>)

  predicate Shaped(m: Mat) {
    |m.elems| == m.rows * m.cols
  }

  datatype CameraParams = CameraParams(optimalMatrix: Mat, cameraMatrix: Mat, distCoeffs: Mat)

  datatype FullCameraInfo = FullCameraInfo(params: CameraParams, horizontalFov: F64)

  /** The shapes a calibration has: two 3x3 matrices and one row of coefficients. */
  predicate Calibrated(c: FullCameraInfo) {
    var p := c.params;
    p.optimalMatrix.rows == 3 && p.optimalMatrix.cols == 3 && Shaped(p.optimalMatrix)
    && p.cameraMatrix.rows == 3 && p.cameraMatrix.cols == 3 && Shaped(p.cameraMatrix)
    && p.distCoeffs.rows == 1 && Shaped(p.distCoeffs)
  }

  /** `FullCameraInfo::to_be_bytes`: the coefficient column count as a byte
      (`cols() as u8`), the optimal matrix, the camera matrix, every
      coefficient, then the fov, each double big-endian. */
  function Encode(c: FullCameraInfo): (r: Bytes)
    ensures |r| == 1 + 8 * (|c.params.optimalMatrix.elems| + |c.params.cameraMatrix.elems| + |c.params.distCoeffs.elems| + 1)
    ensures r[0] == c.params.distCoeffs.cols % 256
  {
    var p := c.params;
    [p.distCoeffs.cols % 256] + F64sToBytes(p.optimalMatrix.elems) + F64sToBytes(p.cameraMatrix.elems)
    + F64sToBytes(p.distCoeffs.elems) + F64ToBytes(c.horizontalFov)
  }

  /** A calibration with n coefficients takes 1 + 8 * (19 + n) bytes. */
  lemma EncodedLength(c: FullCameraInfo)
    requires Calibrated(c)
    ensures |Encode(c)| == 1 + 8 * (19 + c.params.distCoeffs.cols)
  {
  }

  // -------------------------------------------------------------- decoding

  /** Size of the decoder's scratch buffer: twelve doubles. */
  const BUF_LEN: nat := 96

  datatype MatRead = MatOk(m: Mat) | MatIoError | MatPanic

  /** The outcome of `FullCameraInfo::from_be_bytes`: a record, an I/O error
      (the stream ended early), or a panic. */
  datatype Decoded = Read(info: FullCameraInfo) | IoError | Panic

  /** The `get_mat(w, h)` closure on a stream that still holds `s`: the
      outcome and what the stream then still holds. A matrix larger than the
      scratch buffer panics when the buffer is sliced, before anything is read. */
  function GetMatSpec(s: Bytes, w: nat, h: nat): (res: (MatRead, Bytes))
    ensures res.0.MatOk? ==> res.0.m.rows == h && res.0.m.cols == w && |res.0.m.elems| == w * h
  {
    var size := w * h * 8;
    if size > BUF_LEN then (MatPanic, s)
    else if |s| < size then (MatIoError, [])
    else (MatOk(Mat(h, w, F64sFromBytes(s[..size]))), s[size..])
  }

  /** What decoding a stream holding `s` yields, and what the stream then still holds. */
  function DecodeSpec(s: Bytes): (res: (Decoded, Bytes))
    ensures res.0.Read? ==> |s| >= 1 && |s| >= 153 + 8 * (s[0] as int)
  {
    if |s| < 1 then (IoError, [])
    else
      var count := s[0] as nat;
      var (optimal, s1) := GetMatSpec(s[1..], 3, 3);
      if optimal.MatPanic? then (Panic, s1)
      else if optimal.MatIoError? then (IoError, s1)
      else
        var (camera, s2) := GetMatSpec(s1, 3, 3);
        if camera.MatPanic? then (Panic, s2)
        else if camera.MatIoError? then (IoError, s2)
        else
          var (coeffs, s3) := GetMatSpec(s2, 1, count);
          if coeffs.MatPanic? then (Panic, s3)
          else if coeffs.MatIoError? then (IoError, s3)
          else if |s3| < 8 then (IoError, [])
          else (Read(FullCameraInfo(CameraParams(optimal.m, camera.m, coeffs.m), F64FromBytes(s3[..8]))), s3[8..])
  }

  /** The `get_mat` closure: reads `w * h` doubles into the first cells of the
      shared scratch buffer and builds an `h` by `w` matrix from them. */
  method GetMat(r: ByteStream, buf: array<byte>, w: nat, h: nat) returns (res: MatRead)
    requires buf.Length == BUF_LEN
    modifies r, buf
    ensures (res, r.remaining) == GetMatSpec(old(r.remaining), w, h)
  {
    var size := w * h * 8;
    if size > buf.Length {
      return MatPanic;
    }
    var ok := r.ReadExactInto(buf, size);
    if !ok {
      return MatIoError;
    }
    res := MatOk(Mat(h, w, F64sFromBytes(buf[..size])));
  }

  /** `FullCameraInfo::from_be_bytes`: the count byte, two 3x3 matrices,
      `count` coefficients as a `count` by 1 matrix, and the fov. */
  method FromBeBytes(r: ByteStream) returns (res: Decoded)
    modifies r
    ensures (res, r.remaining) == DecodeSpec(old(r.remaining))
  {
    var buf := new byte[BUF_LEN];
    var ok := r.ReadExactInto(buf, 1);
    if !ok {
      return IoError;
    }
    var count := buf[0] as nat;
    var optimal := GetMat(r, buf, 3, 3);
    if optimal.MatPanic? {
      return Panic;
    } else if optimal.MatIoError? {
      return IoError;
    }
    var camera := GetMat(r, buf, 3, 3);
    if camera.MatPanic? {
      return Panic;
    } else if camera.MatIoError? {
      return IoError;
    }
    var coeffs := GetMat(r, buf, 1, count);
    if coeffs.MatPanic? {
      return Panic;
    } else if coeffs.MatIoError? {
      return IoError;
    }
    ok := r.ReadExactInto(buf, 8);
    if !ok {
      return IoError;
    }
    res := Read(FullCameraInfo(CameraParams(optimal.m, camera.m, coeffs.m), F64FromBytes(buf[..8])));
  }

  // ----------------------------------------------------------- properties

  /** The record the decoder rebuilds from the encoding of `c`: the same
      values, with the coefficients as a column. */
  function AsDecoded(c: FullCameraInfo): FullCameraInfo {
    var p := c.params;
    FullCameraInfo(CameraParams(p.optimalMatrix, p.cameraMatrix, Mat(p.distCoeffs.cols, 1, p.distCoeffs.elems)),
                   c.horizontalFov)
  }

  lemma EncodeLayout(c: FullCameraInfo, rest: Bytes)
    ensures Encode(c) + rest == [c.params.distCoeffs.cols % 256]
      + (F64sToBytes(c.params.optimalMatrix.elems) + (F64sToBytes(c.params.cameraMatrix.elems)
      + (F64sToBytes(c.params.distCoeffs.elems) + (F64ToBytes(c.horizontalFov) + rest))))
  {
  }

  lemma GetMatOfEncoding(xs: seq<F64>, w: nat, h: nat, rest: Bytes)
    requires |xs| == w * h && w * h * 8 <= BUF_LEN
    ensures GetMatSpec(F64sToBytes(xs) + rest, w, h) == (MatOk(Mat(h, w, xs)), rest)
  {
    Split(F64sToBytes(xs), rest);
    F64sRoundTrip(xs);
  }

  /** The decoder's successful path, one stage at a time. */
  lemma DecodeStages(s: Bytes, m1: Mat, s1: Bytes, m2: Mat, s2: Bytes, m3: Mat, s3: Bytes)
    requires |s| >= 1
    requires GetMatSpec(s[1..], 3, 3) == (MatOk(m1), s1)
    requires GetMatSpec(s1, 3, 3) == (MatOk(m2), s2)
    requires GetMatSpec(s2, 1, s[0]) == (MatOk(m3), s3)
    requires |s3| >= 8
    ensures DecodeSpec(s) == (Read(FullCameraInfo(CameraParams(m1, m2, m3), F64FromBytes(s3[..8]))), s3[8..])
  {
  }

  /** For two 3x3 matrices and a row of n <= 12 coefficients, decoding the
      encoding recovers both matrices, the coefficient values and the fov bit
      for bit, and leaves whatever followed it in the stream. */
  lemma RoundTrip(c: FullCameraInfo, rest: Bytes)
    requires Calibrated(c) && c.params.distCoeffs.cols <= 12
    ensures DecodeSpec(Encode(c) + rest) == (Read(AsDecoded(c)), rest)
  {
    var p := c.params;
    var n := p.distCoeffs.cols;
    var s3 := F64ToBytes(c.horizontalFov) + rest;
    var s2 := F64sToBytes(p.distCoeffs.elems) + s3;
    var s1 := F64sToBytes(p.cameraMatrix.elems) + s2;
    var s0 := F64sToBytes(p.optimalMatrix.elems) + s1;
    var s := Encode(c) + rest;
    EncodeLayout(c, rest);
    assert s[1..] == s0 && s[0] == n;
    GetMatOfEncoding(p.optimalMatrix.elems, 3, 3, s1);
    GetMatOfEncoding(p.cameraMatrix.elems, 3, 3, s2);
    GetMatOfEncoding(p.distCoeffs.elems, 1, n, s3);
    Split(F64ToBytes(c.horizontalFov), rest);
    F64RoundTrip(c.horizontalFov);
    DecodeStages(s, p.optimalMatrix, s1, p.cameraMatrix, s2, Mat(n, 1, p.distCoeffs.elems), s3);
  }

  /** The decoder rebuilds the coefficients as n rows of one column, so
      re-encoding a decoded record writes a coefficient count of 1 whatever n
      was. */
  lemma ReEncodedCount(c: FullCameraInfo)
    requires Calibrated(c) && c.params.distCoeffs.cols <= 12
    ensures Encode(AsDecoded(c))[0] == 1
    ensures DecodeSpec(Encode(c)).0.Read? && Encode(DecodeSpec(Encode(c)).0.info)[0] == 1
  {
    RoundTrip(c, []);
    assert Encode(c) + [] == Encode(c);
  }

  /** A count byte above 12 panics once the two matrices have been read. */
  lemma LargeCountPanics(s: Bytes)
    requires |s| >= 1 + 144 && s[0] > 12
    ensures DecodeSpec(s).0 == Panic
  {
  }

  /** A stream that ends before the count byte, a matrix or the fov is read
      fails with an I/O error. */
  lemma ShortStreamFails(s: Bytes)
    requires |s| >= 1 ==> |s| < 153 + 8 * (s[0] as int)
    requires |s| >= 145 ==> s[0] <= 12
    ensures DecodeSpec(s).0 == IoError
  {
  }

  /** Any truncation of the encoding of a calibration fails with an I/O error. */
  lemma TruncationFails(c: FullCameraInfo, k: nat)
    requires Calibrated(c) && c.params.distCoeffs.cols <= 12
    requires k < |Encode(c)|
    ensures DecodeSpec(Encode(c)[..k]).0 == IoError
  {
    if k >= 1 {
      assert Encode(c)[..k][0] == Encode(c)[0];
      assert Encode(c)[0] == c.params.distCoeffs.cols;
      EncodedLength(c);
    }
    ShortStreamFails(Encode(c)[..k]);
  }
}
