/**
  `GenerationalValue` of `src/lib.rs`: a value with a counter of how many
  times it was replaced, and its `Display` form "[value of generation]".
 */
module Generational {
  import opened Wire

  class GenerationalValue<T> {
    var generation: nat
    var value: T

    /** `GenerationalValue::new`: generation 0. */
    constructor (value: T)
      ensures this.value == value && generation == 0
    {
      generation := 0;
      this.value := value;
    }

    /** `GenerationalValue::new_with_generation` */
    constructor WithGeneration(value: T, generation: nat)
      ensures this.value == value && this.generation == generation
    {
      this.generation := generation;
      this.value := value;
    }

    /** `get` */
    function Get(): T
      reads this
    {
      value
    }

    /** `generation` */
    function Generation(): nat
      reads this
    {
      generation
    }

    /** `set`: the new value, one generation later. */
    method Set(value: T)
      modifies this
      ensures this.value == value && generation == old(generation) + 1
    {
      generation := generation + 1;
      this.value := value;
    }

    /** `Display`, with `show` the value's own `Display`. */
    function Display(show: T -> Bytes): (r: Bytes)
      reads this
      ensures |r| == |show(value)| + |NatToDecimal(generation)| + 6
      ensures r[0] == '[' as byte && r[1..1 + |show(value)|] == show(value)
      ensures r[1 + |show(value)|..5 + |show(value)|] == AsciiBytes(" of ")
      ensures AllDigits(r[5 + |show(value)|..|r| - 1]) && DecimalValue(r[5 + |show(value)|..|r| - 1]) == generation
      ensures r[|r| - 1] == ']' as byte
    {
      var v := show(value);
      var g := NatToDecimal(generation);
      var r := ['[' as byte] + v + AsciiBytes(" of ") + g + [']' as byte];
      assert r[1..1 + |v|] == v;
      assert r[1 + |v|..5 + |v|] == AsciiBytes(" of ");
      assert r[5 + |v|..|r| - 1] == g;
      DecimalRoundTrip(generation);
      r
    }
  }
}
