/**
  The two-slot `LinearExtrapolation` of `server/src/extrapolations.rs` (the
  copy in `src/extrapolations.rs` is the same code) and the `Extrapolation`
  wrapper of `src/extrapolations.rs`. Instants are integers (nanoseconds);
  the interpolation itself is floating point and is a parameter `lerp`.
 */
module Extrapolations {
  import opened Wire
  import opened Positions

  /** A computed position with the instant it was computed for. The record is
      defined outside the modelled files; its fields are the ones the server
      fills in. */
  datatype TimedPosition = TimedPosition(startTime: int, extrapolatedBy: Option<int>, time: int, position: Position)

  /** `Position::lerp(d1, d2, t)` with `t = (to - d1.time) / (d2.time - d1.time)`. */
  type Lerp = (TimedPosition, TimedPosition, int) -> Position

  /** The extrapolator: `data` holds the two latest points, `p` the slot the
      next point goes to. `history` lists every point added, oldest first. */
  class LinearExtrapolation {
    const data: array<Option<TimedPosition>>
    var p: nat
    ghost var history: seq<TimedPosition>

    /** Slot `p` holds the point before the newest (none before two adds),
        the other slot the newest (none before the first add). */
    ghost predicate Valid()
      reads this, data
    {
      data.Length == 2 && p < 2 && p == |history| % 2
      && data[1 - p] == (if |history| >= 1 then Some(history[|history| - 1]) else None)
      && data[p] == (if |history| >= 2 then Some(history[|history| - 2]) else None)
    }

    /** `LinearExtrapolation::new` (and the derived `Default`): both slots
        empty, `p` = 0. */
    constructor ()
      ensures Valid() && fresh(data)
      ensures history == [] && p == 0 && data[..] == [None, None]
    {
      data := new Option<TimedPosition>[2](_ => None);
      p := 0;
      history := [];
    }

    /** The slot written before slot `p`: the newest point. */
    function PrevSlot(): (q: nat)
      reads this, data
      requires Valid()
      ensures q < 2 && q != p
    {
      if p == 0 then data.Length - 1 else p - 1
    }

    /** `add_datapoint`: write slot `p`, then advance `p` modulo 2. */
    method AddDatapoint(position: TimedPosition)
      requires Valid()
      modifies this, data
      ensures Valid()
      ensures history == old(history) + [position]
      ensures data[old(p)] == Some(position) && data[1 - old(p)] == old(data[1 - p])
      ensures p == (old(p) + 1) % 2
    {
      data[p] := Some(position);
      p := (p + 1) % data.Length;
      history := history + [position];
    }

    /** `extrapolate`: nothing until two points were added; then the lerp
        from the older point (slot `p`) towards the newer one. */
    function Extrapolate(to: int, lerp: Lerp): (r: Option<Position>)
      reads this, data
      requires Valid()
      ensures r.Some? <==> |history| >= 2
      ensures |history| >= 2 ==> r == Some(lerp(history[|history| - 2], history[|history| - 1], to))
    {
      var d1, d2 := data[p], data[PrevSlot()];
      if d1.None? || d2.None? then None else Some(lerp(d1.value, d2.value, to))
    }

    /** `get_last_datapoint`: slot `p`, the one the next add overwrites, so
        the point before the newest, and nothing after a single add. */
    function GetLastDatapoint(): (r: Option<TimedPosition>)
      reads this, data
      requires Valid()
      ensures |history| < 2 <==> r.None?
      ensures |history| >= 2 ==> r == Some(history[|history| - 2])
    {
      data[p]
    }
  }

  /** Two adds from a fresh extrapolator enable it: it then interpolates from
      the first point towards the second, and its "last" point is the first. */
  method TwoPoints(a: TimedPosition, b: TimedPosition, to: int, lerp: Lerp) returns (e: LinearExtrapolation)
    ensures e.Valid() && fresh(e.data)
    ensures e.history == [a, b]
    ensures e.Extrapolate(to, lerp) == Some(lerp(a, b, to))
    ensures e.GetLastDatapoint() == Some(a)
  {
    e := new LinearExtrapolation();
    assert e.Extrapolate(to, lerp).None?;
    e.AddDatapoint(a);
    assert e.Extrapolate(to, lerp).None? && e.GetLastDatapoint().None?;
    e.AddDatapoint(b);
  }

  /** `Extrapolation` of `src/extrapolations.rs`: an extrapolator and the
      age after which its points are no longer used. */
  class Extrapolation {
    const extrapolator: LinearExtrapolation
    const invalidateAfter: nat

    /** `Extrapolation::new`: the given age and a default extrapolator. */
    constructor (invalidateAfter: nat)
      ensures this.invalidateAfter == invalidateAfter
      ensures fresh(extrapolator) && fresh(extrapolator.data)
      ensures extrapolator.Valid() && extrapolator.history == [] && extrapolator.p == 0
    {
      extrapolator := new LinearExtrapolation();
      this.invalidateAfter := invalidateAfter;
    }
  }
}
