/** The reservoir class: what it holds is the sample that its draws determine. */
module Reservoir {
  import opened Collections
  import opened ReservoirDraws

  function Pick<T>(stream: seq<T>, positions: seq<nat>): (items: seq<T>)
    requires Below(positions, |stream|)
    ensures |items| == |positions|
  {
    seq(|positions|, i requires 0 <= i < |positions| => stream[positions[i]])
  }

  /** What a reservoir holds after this stream and these draws: everything until it is full, then the drawn sample. */
  ghost predicate Holds<T>(size: int, stream: seq<T>, draws: Draws, items: seq<T>) {
    if size <= 0 then items == []
    else if |stream| <= size then items == stream && draws == []
    else
      && |draws| == |stream| - size && Possible(size, draws)
      && Below(Sample(size, draws), |stream|)
      && items == Pick(stream, Sample(size, draws))
  }

  lemma {:induction false} HoldsFull<T>(size: nat, stream: seq<T>)
    ensures Below(Sample(size, []), size)
    ensures |stream| == size ==> stream == Pick(stream, Sample(size, []))
  {
  }

  lemma {:induction false} HoldsNext<T>(size: nat, stream: seq<T>, draws: Draws, items: seq<T>, item: T, draw: nat)
    requires size > 0 && |stream| >= size && Holds(size, stream, draws, items) && draw <= |stream|
    ensures |items| == size
    ensures Holds(size, stream + [item], draws + [draw], if draw < size then items[draw := item] else items)
  {
    HoldsFull(size, stream);
    var s := Sample(size, draws);
    assert items == Pick(stream, s);
    assert (draws + [draw])[..|draws|] == draws;
    assert Sample(size, draws + [draw]) == Store(s, draw, |stream|);
  }

  class ReservoirSample<T(==)> {
    const size: int
    var items: seq<T>
    var seen: nat
    // The items offered so far, and the draws made for them.
    ghost var stream: seq<T>
    ghost var draws: Draws

    constructor (size: int)
      ensures this.size == size && stream == [] && draws == [] && Valid()
    {
      this.size := size;
      items, seen, stream, draws := [], 0, [], [];
    }

    ghost predicate Valid()
      reads this
    {
      && Holds(size, stream, draws, items)
      && seen == if size <= 0 then 0 else |stream|
    }

    /** Whether the next item needs a draw. */
    predicate Full()
      reads this
    {
      size > 0 && |items| >= size
    }

    /** `draw` is what `randrange(seen)` returns, if it is asked. */
    method Add(item: T, draw: nat)
      requires Valid() && (Full() ==> draw <= seen)
      modifies this
      ensures Valid() && stream == old(stream) + [item]
      ensures draws == old(draws) + if old(Full()) then [draw] else []
    {
      stream := stream + [item];
      if size <= 0 {
        assert stream[..|stream| - 1] == old(stream);
        return;
      }
      seen := seen + 1;
      if |items| < size {
        items := items + [item];
        return;
      }
      HoldsNext(size, old(stream), draws, items, item, draw);
      draws := draws + [draw];
      if draw < size {
        items := items[draw := item];
      }
    }
  }

  /** One draw per item; only those for items past the first `size` are used. */
  method SampleReservoir<T(==)>(stream: seq<T>, size: int, rng: seq<nat>) returns (items: seq<T>)
    requires |rng| == |stream| && forall k :: 0 <= k < |rng| ==> rng[k] <= k
    ensures size <= 0 ==> items == []
    ensures 0 < size && |stream| <= size ==> items == stream
    ensures 0 < size < |stream| ==> Holds(size, stream, rng[size..], items)
  {
    var sample := new ReservoirSample<T>(size);
    for k := 0 to |stream|
      invariant sample.Valid() && sample.stream == stream[..k] && sample.size == size
      invariant sample.draws == if 0 < size < k then rng[size..k] else []
    {
      assert stream[..k + 1] == stream[..k] + [stream[k]];
      sample.Add(stream[k], rng[k]);
    }
    assert stream[..|stream|] == stream && rng[..|rng|] == rng;
    items := sample.items;
  }

  /** The sample always holds `min(size, seen)` items from distinct positions of the stream. */
  lemma {:induction false} HeldPositions<T>(size: int, stream: seq<T>, draws: Draws, items: seq<T>)
    requires Holds(size, stream, draws, items)
    ensures |items| == if size <= 0 then 0 else if |stream| < size then |stream| else size
    ensures exists positions: seq<nat> :: Distinct(positions) && Below(positions, |stream|) && items == Pick(stream, positions)
  {
    if size <= 0 {
      assert items == Pick(stream, []);
    } else if |stream| <= size {
      assert Distinct(Sample(|stream|, [])) && Below(Sample(|stream|, []), |stream|);
      HoldsFull(|stream|, stream);
    } else {
      SampleIsDistinct(size, draws);
    }
  }
}
