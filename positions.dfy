/**
  The planar pose `Position` (x, y and rotation as doubles), its fixed
  24-byte big-endian layout, and the square camera arrangement
  (`CPOS`, `calc_posotion_in_square_distance`).
 */
module Positions {
  import opened Wire

  datatype Position = Position(x: F64, y: F64, rotation: F64)

  /** `Position::to_be_bytes`: x in bytes 0-7, y in 8-15, rotation in 16-23. */
  function ToBeBytes(p: Position): (r: Bytes)
    ensures |r| == 24
    ensures r[0..8] == F64ToBytes(p.x) && r[8..16] == F64ToBytes(p.y) && r[16..24] == F64ToBytes(p.rotation)
  {
    F64ToBytes(p.x) + F64ToBytes(p.y) + F64ToBytes(p.rotation)
  }

  /** `Position::from_be_bytes` of a 24-byte array. */
  function FromBeBytes(b: Bytes): (p: Position)
    requires |b| == 24
    ensures F64ToBytes(p.x) == b[0..8] && F64ToBytes(p.y) == b[8..16] && F64ToBytes(p.rotation) == b[16..24]
  {
    F64BytesRoundTrip(b[0..8]);
    F64BytesRoundTrip(b[8..16]);
    F64BytesRoundTrip(b[16..24]);
    Position(F64FromBytes(b[0..8]), F64FromBytes(b[8..16]), F64FromBytes(b[16..24]))
  }

  /** Decoding an encoded position reproduces every component bit for bit. */
  lemma RoundTrip(p: Position)
    ensures FromBeBytes(ToBeBytes(p)) == p
  {
    var b := ToBeBytes(p);
    F64RoundTrip(p.x);
    F64RoundTrip(p.y);
    F64RoundTrip(p.rotation);
    assert F64FromBytes(b[0..8]) == p.x;
    assert F64FromBytes(b[8..16]) == p.y;
    assert F64FromBytes(b[16..24]) == p.rotation;
  }

  /** Encoding a decoded array gives the array back. */
  lemma BytesRoundTrip(b: Bytes)
    requires |b| == 24
    ensures ToBeBytes(FromBeBytes(b)) == b
  {
    var r := ToBeBytes(FromBeBytes(b));
    assert r[0..8] == b[0..8] && r[8..16] == b[8..16] && r[16..24] == b[16..24];
    assert r == r[0..8] + r[8..16] + r[16..24];
    assert b == b[0..8] + b[8..16] + b[16..24];
  }

  /** `From<(f64, f64, f64)> for Position` */
  function FromTuple(t: (F64, F64, F64)): (p: Position)
    ensures (p.x, p.y, p.rotation) == t
  {
    Position(t.0, t.1, t.2)
  }

  // ----------------------------------------------------- square placement

  /** `CPOS`: the direction of each camera slot from the centre of the square. */
  const CPOS: seq<(F64, F64)> := [(F64_MINUS_ONE, F64_ZERO), (F64_ZERO, F64_MINUS_ONE), (F64_ONE, F64_ZERO), (F64_ZERO, F64_ONE)]

  /** `90f64.to_radians()` */
  const RIGHT_ANGLE: F64 := 0x3FF9_21FB_5444_2D18

  /** The exact double for -1, 0 or 1. */
  function UnitToF64(k: int): F64
    requires -1 <= k <= 1
  {
    if k < 0 then F64_MINUS_ONE else if k == 0 then F64_ZERO else F64_ONE
  }

  /** `index as f64` for a slot index. */
  function IndexToF64(index: nat): F64
    requires index < 4
  {
    [F64_ZERO, F64_ONE, 0x4000_0000_0000_0000, 0x4008_0000_0000_0000][index]
  }

  /** The unit vector at `quarterTurns` times 90 degrees, as integers:
      (1, 0) turned counter-clockwise a quarter turn at a time. */
  function Facing(quarterTurns: nat): (v: (int, int))
    ensures -1 <= v.0 <= 1 && -1 <= v.1 <= 1
  {
    if quarterTurns == 0 then (1, 0)
    else var (dx, dy) := Facing(quarterTurns - 1); (-dy, dx)
  }

  /** Slot `i` lies opposite the direction its rotation of `i` quarter turns
      faces, so every camera of the square looks at the centre; the four
      slots are the four axis-aligned unit directions. */
  lemma CposFacesCentre(i: nat)
    requires i < 4
    ensures CPOS[i] == (UnitToF64(-Facing(i).0), UnitToF64(-Facing(i).1))
    ensures (CPOS[i].0 == F64_ZERO) != (CPOS[i].1 == F64_ZERO)
  {
    if i > 0 {
      assert Facing(1) == (0, 1);
      if i > 1 {
        assert Facing(2) == (-1, 0);
      }
    }
  }

  /** `calc_posotion_in_square_distance`: camera `index` of a square setup at
      `distance` from its centre. Floating-point products are the oracle
      `mul`. */
  function CalcPositionInSquareDistance(index: nat, distance: F64, mul: (F64, F64) -> F64): (p: Position)
    requires index < 4
    ensures p.x == mul(UnitToF64(-Facing(index).0), distance)
    ensures p.y == mul(UnitToF64(-Facing(index).1), distance)
    ensures p.rotation == mul(IndexToF64(index), RIGHT_ANGLE)
  {
    CposFacesCentre(index);
    var d := CPOS[index];
    Position(mul(d.0, distance), mul(d.1, distance), mul(IndexToF64(index), RIGHT_ANGLE))
  }
}
