/**
  `AddressTemplate` of `src/scanning.rs`: four octet templates, each a fixed
  octet or a half-open range, expanded into every IPv4 address text they
  describe, first octet outermost.
 */
module Scanning {
  import opened Wire

  datatype TemplateMember = Templated(start: Octet, end: Octet) | Fixed(octet: Octet)

  datatype AddressTemplate = AddressTemplate(m0: TemplateMember, m1: TemplateMember, m2: TemplateMember, m3: TemplateMember)

  /** The octets one member stands for: the fixed one, or `start..end` (none
      when `start >= end`). */
  function Octets(m: TemplateMember): (r: seq<Octet>)
    ensures m.Fixed? ==> r == [m.octet]
    ensures m.Templated? ==> |r| == (if m.start < m.end then m.end - m.start else 0)
    ensures m.Templated? ==> forall i :: 0 <= i < |r| ==> r[i] == m.start + i
  {
    match m
    case Fixed(f) => [f]
    case Templated(a, b) => if a < b then seq(b - a, i requires 0 <= i < b - a => (a + i) as Octet) else []
  }

  /** `format!("{}.{}.{}.{}", b1, b2, b3, b4)` */
  function Format(b1: Octet, b2: Octet, b3: Octet, b4: Octet): Bytes {
    Ipv4ToString(Ipv4(b1, b2, b3, b4))
  }

  /** The blocks of `bs` one after the other. */
  function Flatten<T>(bs: seq<seq<T>>): seq<T> {
    if bs == [] then [] else Flatten(bs[..|bs| - 1]) + bs[|bs| - 1]
  }

  lemma FlattenSnoc<T>(bs: seq<seq<T>>, b: seq<T>)
    ensures Flatten(bs + [b]) == Flatten(bs) + b
  {
    assert (bs + [b])[..|bs|] == bs;
  }

  /** With blocks of m items each, item j of block i sits at i * m + j. */
  lemma {:induction false} FlattenIndex<T>(bs: seq<seq<T>>, m: nat, i: nat, j: nat)
    requires forall k :: 0 <= k < |bs| ==> |bs[k]| == m
    requires i < |bs| && j < m
    ensures |Flatten(bs)| == |bs| * m && i * m + j < |Flatten(bs)|
    ensures Flatten(bs)[i * m + j] == bs[i][j]
  {
    var init := bs[..|bs| - 1];
    assert forall k :: 0 <= k < |init| ==> init[k] == bs[k];
    FlattenLength(bs, m);
    FlattenLength(init, m);
    InBlock(i, j, |bs|, m);
    assert Flatten(bs) == Flatten(init) + bs[|bs| - 1];
    if i < |init| {
      InBlock(i, j, |init|, m);
      FlattenIndex(init, m, i, j);
    } else {
      assert i * m == |init| * m;
    }
  }

  lemma {:induction false} FlattenLength<T>(bs: seq<seq<T>>, m: nat)
    requires forall k :: 0 <= k < |bs| ==> |bs[k]| == m
    ensures |Flatten(bs)| == |bs| * m
  {
    if bs != [] {
      var init := bs[..|bs| - 1];
      assert forall k :: 0 <= k < |init| ==> init[k] == bs[k];
      FlattenLength(init, m);
      assert |Flatten(bs)| == |Flatten(init)| + |bs[|bs| - 1]|;
      assert |bs| * m == |init| * m + m;
    }
  }

  function Row3(b1: Octet, b2: Octet, b3: Octet, e3: seq<Octet>): (r: seq<Bytes>)
    ensures |r| == |e3| && forall j :: 0 <= j < |e3| ==> r[j] == Format(b1, b2, b3, e3[j])
  {
    seq(|e3|, j requires 0 <= j < |e3| => Format(b1, b2, b3, e3[j]))
  }

  /** One `Row3` block per third octet. */
  function Row3s(b1: Octet, b2: Octet, e2: seq<Octet>, e3: seq<Octet>): (r: seq<seq<Bytes>>)
    ensures |r| == |e2| && forall k :: 0 <= k < |e2| ==> r[k] == Row3(b1, b2, e2[k], e3)
  {
    seq(|e2|, k requires 0 <= k < |e2| => Row3(b1, b2, e2[k], e3))
  }

  function Row2(b1: Octet, b2: Octet, e2: seq<Octet>, e3: seq<Octet>): seq<Bytes> {
    Flatten(Row3s(b1, b2, e2, e3))
  }

  /** One `Row2` block per second octet. */
  function Row2s(b1: Octet, e1: seq<Octet>, e2: seq<Octet>, e3: seq<Octet>): (r: seq<seq<Bytes>>)
    ensures |r| == |e1| && forall k :: 0 <= k < |e1| ==> r[k] == Row2(b1, e1[k], e2, e3)
  {
    seq(|e1|, k requires 0 <= k < |e1| => Row2(b1, e1[k], e2, e3))
  }

  function Row1(b1: Octet, e1: seq<Octet>, e2: seq<Octet>, e3: seq<Octet>): seq<Bytes> {
    Flatten(Row2s(b1, e1, e2, e3))
  }

  /** One `Row1` block per first octet. */
  function Row1s(e0: seq<Octet>, e1: seq<Octet>, e2: seq<Octet>, e3: seq<Octet>): (r: seq<seq<Bytes>>)
    ensures |r| == |e0| && forall k :: 0 <= k < |e0| ==> r[k] == Row1(e0[k], e1, e2, e3)
  {
    seq(|e0|, k requires 0 <= k < |e0| => Row1(e0[k], e1, e2, e3))
  }

  function Row0(e0: seq<Octet>, e1: seq<Octet>, e2: seq<Octet>, e3: seq<Octet>): seq<Bytes> {
    Flatten(Row1s(e0, e1, e2, e3))
  }

  /** Every address the template describes, in iteration order. */
  function Addresses(t: AddressTemplate): seq<Bytes> {
    Row0(Octets(t.m0), Octets(t.m1), Octets(t.m2), Octets(t.m3))
  }

  /** `into_iter` for `&AddressTemplate`: the four expansions, then four
      nested loops pushing each formatted address (the three inner loops are
      the methods below). */
  method IntoIter(t: AddressTemplate) returns (res: seq<Bytes>)
    ensures res == Addresses(t)
  {
    var iter0 := Octets(t.m0);
    var iter1 := Octets(t.m1);
    var iter2 := Octets(t.m2);
    var iter3 := Octets(t.m3);
    res := [];
    for i0 := 0 to |iter0|
      invariant res == Row0(iter0[..i0], iter1, iter2, iter3)
    {
      res := PushRow1(res, iter0[i0], iter1, iter2, iter3);
      Row0Snoc(iter0, i0, iter1, iter2, iter3);
    }
    assert iter0[..|iter0|] == iter0;
  }

  /** The loop over the second octet, inside the first octet's. */
  method PushRow1(res0: seq<Bytes>, b1: Octet, iter1: seq<Octet>, iter2: seq<Octet>, iter3: seq<Octet>)
    returns (res: seq<Bytes>)
    ensures res == res0 + Row1(b1, iter1, iter2, iter3)
  {
    res := res0;
    for i1 := 0 to |iter1|
      invariant res == res0 + Row1(b1, iter1[..i1], iter2, iter3)
    {
      res := PushRow2(res, b1, iter1[i1], iter2, iter3);
      Row1Snoc(b1, iter1, i1, iter2, iter3);
    }
    assert iter1[..|iter1|] == iter1;
  }

  /** The loop over the third octet. */
  method PushRow2(res0: seq<Bytes>, b1: Octet, b2: Octet, iter2: seq<Octet>, iter3: seq<Octet>)
    returns (res: seq<Bytes>)
    ensures res == res0 + Row2(b1, b2, iter2, iter3)
  {
    res := res0;
    for i2 := 0 to |iter2|
      invariant res == res0 + Row2(b1, b2, iter2[..i2], iter3)
    {
      res := PushRow3(res, b1, b2, iter2[i2], iter3);
      Row2Snoc(b1, b2, iter2, i2, iter3);
    }
    assert iter2[..|iter2|] == iter2;
  }

  /** The innermost loop over the last octet: one push per address. */
  method PushRow3(res0: seq<Bytes>, b1: Octet, b2: Octet, b3: Octet, iter3: seq<Octet>)
    returns (res: seq<Bytes>)
    ensures res == res0 + Row3(b1, b2, b3, iter3)
  {
    res := res0;
    for i3 := 0 to |iter3|
      invariant res == res0 + Row3(b1, b2, b3, iter3[..i3])
    {
      res := res + [Format(b1, b2, b3, iter3[i3])];
    }
    assert iter3[..|iter3|] == iter3;
  }

  lemma Row2Snoc(b1: Octet, b2: Octet, e2: seq<Octet>, i: nat, e3: seq<Octet>)
    requires i < |e2|
    ensures Row2(b1, b2, e2[..i + 1], e3) == Row2(b1, b2, e2[..i], e3) + Row3(b1, b2, e2[i], e3)
  {
    assert Row3s(b1, b2, e2[..i + 1], e3) == Row3s(b1, b2, e2[..i], e3) + [Row3(b1, b2, e2[i], e3)];
    FlattenSnoc(Row3s(b1, b2, e2[..i], e3), Row3(b1, b2, e2[i], e3));
  }

  lemma Row1Snoc(b1: Octet, e1: seq<Octet>, i: nat, e2: seq<Octet>, e3: seq<Octet>)
    requires i < |e1|
    ensures Row1(b1, e1[..i + 1], e2, e3) == Row1(b1, e1[..i], e2, e3) + Row2(b1, e1[i], e2, e3)
  {
    assert Row2s(b1, e1[..i + 1], e2, e3) == Row2s(b1, e1[..i], e2, e3) + [Row2(b1, e1[i], e2, e3)];
    FlattenSnoc(Row2s(b1, e1[..i], e2, e3), Row2(b1, e1[i], e2, e3));
  }

  lemma Row0Snoc(e0: seq<Octet>, i: nat, e1: seq<Octet>, e2: seq<Octet>, e3: seq<Octet>)
    requires i < |e0|
    ensures Row0(e0[..i + 1], e1, e2, e3) == Row0(e0[..i], e1, e2, e3) + Row1(e0[i], e1, e2, e3)
  {
    assert Row1s(e0[..i + 1], e1, e2, e3) == Row1s(e0[..i], e1, e2, e3) + [Row1(e0[i], e1, e2, e3)];
    FlattenSnoc(Row1s(e0[..i], e1, e2, e3), Row1(e0[i], e1, e2, e3));
  }

  // ----------------------------------------------------------- properties

  lemma Row2Shape(b1: Octet, b2: Octet, e2: seq<Octet>, e3: seq<Octet>)
    ensures |Row2(b1, b2, e2, e3)| == |e2| * |e3|
  {
    FlattenLength(Row3s(b1, b2, e2, e3), |e3|);
  }

  lemma Row2At(b1: Octet, b2: Octet, e2: seq<Octet>, e3: seq<Octet>, i2: nat, i3: nat)
    requires i2 < |e2| && i3 < |e3|
    ensures i2 * |e3| + i3 < |Row2(b1, b2, e2, e3)|
    ensures Row2(b1, b2, e2, e3)[i2 * |e3| + i3] == Format(b1, b2, e2[i2], e3[i3])
  {
    var bs := Row3s(b1, b2, e2, e3);
    FlattenIndex(bs, |e3|, i2, i3);
    InBlock(i2, i3, |e2|, |e3|);
  }

  lemma Row1Shape(b1: Octet, e1: seq<Octet>, e2: seq<Octet>, e3: seq<Octet>)
    ensures |Row1(b1, e1, e2, e3)| == |e1| * (|e2| * |e3|)
  {
    var bs := Row2s(b1, e1, e2, e3);
    forall k | 0 <= k < |e1|
      ensures |bs[k]| == |e2| * |e3|
    {
      Row2Shape(b1, e1[k], e2, e3);
    }
    FlattenLength(bs, |e2| * |e3|);
  }

  /** Item j of the block for the i1-th second octet. */
  lemma Row1At(b1: Octet, e1: seq<Octet>, e2: seq<Octet>, e3: seq<Octet>, i1: nat, j: nat)
    requires i1 < |e1| && j < |e2| * |e3|
    ensures j < |Row2(b1, e1[i1], e2, e3)|
    ensures i1 * (|e2| * |e3|) + j < |Row1(b1, e1, e2, e3)|
    ensures Row1(b1, e1, e2, e3)[i1 * (|e2| * |e3|) + j] == Row2(b1, e1[i1], e2, e3)[j]
  {
    var m := |e2| * |e3|;
    var bs := Row2s(b1, e1, e2, e3);
    forall k | 0 <= k < |e1|
      ensures |bs[k]| == m
    {
      Row2Shape(b1, e1[k], e2, e3);
    }
    FlattenIndex(bs, m, i1, j);
    InBlock(i1, j, |e1|, m);
  }

  lemma Row0Shape(e0: seq<Octet>, e1: seq<Octet>, e2: seq<Octet>, e3: seq<Octet>)
    ensures |Row0(e0, e1, e2, e3)| == |e0| * (|e1| * (|e2| * |e3|))
  {
    var bs := Row1s(e0, e1, e2, e3);
    forall k | 0 <= k < |e0|
      ensures |bs[k]| == |e1| * (|e2| * |e3|)
    {
      Row1Shape(e0[k], e1, e2, e3);
    }
    FlattenLength(bs, |e1| * (|e2| * |e3|));
  }

  /** Item j of the block for the i0-th first octet. */
  lemma Row0At(e0: seq<Octet>, e1: seq<Octet>, e2: seq<Octet>, e3: seq<Octet>, i0: nat, j: nat)
    requires i0 < |e0| && j < |e1| * (|e2| * |e3|)
    ensures j < |Row1(e0[i0], e1, e2, e3)|
    ensures i0 * (|e1| * (|e2| * |e3|)) + j < |Row0(e0, e1, e2, e3)|
    ensures Row0(e0, e1, e2, e3)[i0 * (|e1| * (|e2| * |e3|)) + j] == Row1(e0[i0], e1, e2, e3)[j]
  {
    var m := |e1| * (|e2| * |e3|);
    var bs := Row1s(e0, e1, e2, e3);
    forall k | 0 <= k < |e0|
      ensures |bs[k]| == m
    {
      Row1Shape(e0[k], e1, e2, e3);
    }
    FlattenIndex(bs, m, i0, j);
    InBlock(i0, j, |e0|, m);
  }

  /** Position j of block i, blocks of m items, lies below n blocks' worth. */
  lemma InBlock(i: nat, j: nat, n: nat, m: nat)
    requires i < n && j < m
    ensures i * m + j < n * m
  {
    assert (i + 1) * m <= n * m;
  }

  /** The template yields as many addresses as the product of the four
      expansions' lengths, so none when any range is empty. */
  lemma AddressesCount(t: AddressTemplate)
    ensures |Addresses(t)| == |Octets(t.m0)| * |Octets(t.m1)| * |Octets(t.m2)| * |Octets(t.m3)|
  {
    Row0Shape(Octets(t.m0), Octets(t.m1), Octets(t.m2), Octets(t.m3));
    MulAssoc(|Octets(t.m0)|, |Octets(t.m1)|, |Octets(t.m2)|, |Octets(t.m3)|);
  }

  /** The position of the address built from octets i0, i1, i2, i3 when the
      last three members expand to n1, n2 and n3 octets. */
  function Idx(i0: nat, i1: nat, i2: nat, i3: nat, n1: nat, n2: nat, n3: nat): nat {
    ((i0 * n1 + i1) * n2 + i2) * n3 + i3
  }

  lemma RowsAt(e0: seq<Octet>, e1: seq<Octet>, e2: seq<Octet>, e3: seq<Octet>, i0: nat, i1: nat, i2: nat, i3: nat)
    requires i0 < |e0| && i1 < |e1| && i2 < |e2| && i3 < |e3|
    ensures Idx(i0, i1, i2, i3, |e1|, |e2|, |e3|) < |Row0(e0, e1, e2, e3)|
    ensures Row0(e0, e1, e2, e3)[Idx(i0, i1, i2, i3, |e1|, |e2|, |e3|)] == Format(e0[i0], e1[i1], e2[i2], e3[i3])
  {
    var m2 := |e2| * |e3|;
    var j2 := i2 * |e3| + i3;
    Row2At(e0[i0], e1[i1], e2, e3, i2, i3);
    InBlock(i2, i3, |e2|, |e3|);
    assert j2 < m2;
    var j1 := i1 * m2 + j2;
    Row1At(e0[i0], e1, e2, e3, i1, j2);
    InBlock(i1, j2, |e1|, m2);
    assert j1 < |e1| * m2;
    Row0At(e0, e1, e2, e3, i0, j1);
    IndexFormula(i0, i1, i2, i3, |e1|, |e2|, |e3|);
    var idx := Idx(i0, i1, i2, i3, |e1|, |e2|, |e3|);
    assert idx == i0 * (|e1| * m2) + j1;
    assert Row0(e0, e1, e2, e3)[idx] == Row1(e0[i0], e1, e2, e3)[j1];
    assert Row1(e0[i0], e1, e2, e3)[j1] == Row2(e0[i0], e1[i1], e2, e3)[j2];
  }

  /** Address Idx = ((i0 * n1 + i1) * n2 + i2) * n3 + i3 is the one built from
      octet i0 of the first member, i1 of the second, i2 of the third and i3
      of the last: the first octet varies slowest, the last fastest. */
  lemma AddressAt(t: AddressTemplate, i0: nat, i1: nat, i2: nat, i3: nat)
    requires i0 < |Octets(t.m0)| && i1 < |Octets(t.m1)| && i2 < |Octets(t.m2)| && i3 < |Octets(t.m3)|
    ensures Idx(i0, i1, i2, i3, |Octets(t.m1)|, |Octets(t.m2)|, |Octets(t.m3)|) < |Addresses(t)|
    ensures Addresses(t)[Idx(i0, i1, i2, i3, |Octets(t.m1)|, |Octets(t.m2)|, |Octets(t.m3)|)]
      == Format(Octets(t.m0)[i0], Octets(t.m1)[i1], Octets(t.m2)[i2], Octets(t.m3)[i3])
  {
    RowsAt(Octets(t.m0), Octets(t.m1), Octets(t.m2), Octets(t.m3), i0, i1, i2, i3);
  }

  lemma MulAssoc(a: nat, b: nat, c: nat, d: nat)
    ensures a * (b * (c * d)) == a * b * c * d
  {
  }

  lemma IndexFormula(i0: nat, i1: nat, i2: nat, i3: nat, n1: nat, n2: nat, n3: nat)
    ensures ((i0 * n1 + i1) * n2 + i2) * n3 + i3 == i0 * (n1 * (n2 * n3)) + (i1 * (n2 * n3) + (i2 * n3 + i3))
  {
    calc {
      ((i0 * n1 + i1) * n2 + i2) * n3 + i3;
      (i0 * n1 * n2 + i1 * n2 + i2) * n3 + i3;
      i0 * n1 * n2 * n3 + i1 * n2 * n3 + i2 * n3 + i3;
    }
  }

  /** Splitting a position below a * b into a block below a and an offset below b. */
  lemma DivMod(k: nat, a: nat, b: nat) returns (q: nat, r: nat)
    requires k < a * b
    ensures q < a && r < b && k == q * b + r
  {
    q, r := k / b, k % b;
  }

  /** Every position of a product of four lengths is reached by four indices. */
  lemma Decompose(k: nat, n0: nat, n1: nat, n2: nat, n3: nat) returns (i0: nat, i1: nat, i2: nat, i3: nat)
    requires k < n0 * n1 * n2 * n3
    ensures i0 < n0 && i1 < n1 && i2 < n2 && i3 < n3
    ensures k == Idx(i0, i1, i2, i3, n1, n2, n3)
  {
    var q2, q1: nat;
    q2, i3 := DivMod(k, n0 * n1 * n2, n3);
    q1, i2 := DivMod(q2, n0 * n1, n2);
    i0, i1 := DivMod(q1, n0, n1);
  }

  /** Each address is the dotted text of an IPv4 address whose octets come
      from the four members, so it parses back to them. */
  lemma AddressesParse(t: AddressTemplate, k: nat)
    requires k < |Addresses(t)|
    ensures exists i0, i1, i2, i3 ::
      0 <= i0 < |Octets(t.m0)| && 0 <= i1 < |Octets(t.m1)| && 0 <= i2 < |Octets(t.m2)| && 0 <= i3 < |Octets(t.m3)|
      && ParseIpv4(Addresses(t)[k]) == Some(Ipv4(Octets(t.m0)[i0], Octets(t.m1)[i1], Octets(t.m2)[i2], Octets(t.m3)[i3]))
  {
    AddressesCount(t);
    var i0, i1, i2, i3 := Decompose(k, |Octets(t.m0)|, |Octets(t.m1)|, |Octets(t.m2)|, |Octets(t.m3)|);
    AddressAt(t, i0, i1, i2, i3);
    Ipv4RoundTrip(Ipv4(Octets(t.m0)[i0], Octets(t.m1)[i1], Octets(t.m2)[i2], Octets(t.m3)[i3]));
  }

  /** The template [192, 168, 0, 1..18] yields the 17 addresses 192.168.0.1
      to 192.168.0.17, in order. */
  lemma SeventeenAddresses()
    ensures var t := AddressTemplate(Fixed(192), Fixed(168), Fixed(0), Templated(1, 18));
      |Addresses(t)| == 17
      && forall k :: 0 <= k < 17 ==> Addresses(t)[k] == Ipv4ToString(Ipv4(192, 168, 0, k + 1))
  {
    var t := AddressTemplate(Fixed(192), Fixed(168), Fixed(0), Templated(1, 18));
    AddressesCount(t);
    forall k | 0 <= k < 17
      ensures Addresses(t)[k] == Ipv4ToString(Ipv4(192, 168, 0, k + 1))
    {
      AddressAt(t, 0, 0, 0, k);
    }
  }
}
