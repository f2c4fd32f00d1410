/** Batch embedding: one vector per input text, placed by the index each response item carries. */
module Embedder {
  import opened Wrappers
  import opened Questions

  datatype Datum = Datum(index: int, vec: Vec)

  datatype EmbedError = EmptyInput | Transport | CountMismatch | IndexOutOfRange | DimensionMismatch

  // What one response item is refused for; the index is looked at first.
  function Refusal(d: Datum, n: nat, dim: int): Option<EmbedError> {
    if d.index < 0 || d.index >= n then Some(IndexOutOfRange)
    else if dim > 0 && |d.vec| != dim then Some(DimensionMismatch)
    else None
  }

  predicate AllAccepted(data: seq<Datum>, n: nat, dim: int) {
    forall k :: 0 <= k < |data| ==> Refusal(data[k], n, dim).None?
  }

  function FirstRefusal(data: seq<Datum>, n: nat, dim: int): (r: Option<EmbedError>)
    ensures r.None? <==> AllAccepted(data, n, dim)
  {
    if data == [] then None
    else
      var init := data[..|data| - 1];
      assert forall k :: 0 <= k < |init| ==> init[k] == data[k];
      var r := FirstRefusal(init, n, dim);
      if r.Some? then r else Refusal(data[|init|], n, dim)
  }

  predicate IsLastFor(data: seq<Datum>, i: nat, k: nat)
    requires k < |data|
  {
    data[k].index == i && forall j :: k < j < |data| ==> data[j].index != i
  }

  // The vector a slot ends up with: that of the last item that names it.
  function Slot(data: seq<Datum>, i: nat): (r: Option<Vec>)
    ensures r.Some? <==> exists k :: 0 <= k < |data| && data[k].index == i
    ensures r.Some? ==> exists k :: 0 <= k < |data| && IsLastFor(data, i, k) && r.value == data[k].vec
  {
    if data == [] then None
    else if data[|data| - 1].index == i then
      assert IsLastFor(data, i, |data| - 1);
      Some(data[|data| - 1].vec)
    else
      assert forall k :: 0 <= k < |data| - 1 ==> data[..|data| - 1][k] == data[k];
      assert forall k: nat :: k < |data| - 1 && IsLastFor(data[..|data| - 1], i, k) ==> IsLastFor(data, i, k);
      Slot(data[..|data| - 1], i)
  }

  lemma {:induction false} FirstRefusalStays(data: seq<Datum>, k: nat, n: nat, dim: int)
    requires k <= |data| && FirstRefusal(data[..k], n, dim).Some?
    ensures FirstRefusal(data, n, dim) == FirstRefusal(data[..k], n, dim)
    decreases |data| - k
  {
    if k < |data| {
      assert data[..k + 1][..k] == data[..k];
      FirstRefusalStays(data, k + 1, n, dim);
    } else {
      assert data[..k] == data;
    }
  }

  // The first k items name one of n slots and have the expected length.
  predicate FineUpTo(data: seq<Datum>, k: nat, n: nat, dim: int) {
    k <= |data| && forall j :: 0 <= j < k ==> 0 <= data[j].index < n && (dim > 0 ==> |data[j].vec| == dim)
  }

  predicate FirstMisplaced(data: seq<Datum>, k: nat, n: nat, dim: int) {
    FineUpTo(data, k, n, dim) && k < |data| && !(0 <= data[k].index < n)
  }

  predicate FirstMismatched(data: seq<Datum>, k: nat, n: nat, dim: int) {
    FineUpTo(data, k, n, dim) && k < |data| && 0 <= data[k].index < n && dim > 0 && |data[k].vec| != dim
  }

  lemma {:induction false} FirstRefusalMeans(data: seq<Datum>, n: nat, dim: int)
    ensures AllAccepted(data, n, dim) <==> FineUpTo(data, |data|, n, dim)
    ensures FirstRefusal(data, n, dim) == Some(IndexOutOfRange) ==> exists k :: FirstMisplaced(data, k, n, dim)
    ensures FirstRefusal(data, n, dim) == Some(DimensionMismatch) ==> exists k :: FirstMismatched(data, k, n, dim)
  {
    assert forall j :: 0 <= j < |data| ==>
      (Refusal(data[j], n, dim).None? <==> 0 <= data[j].index < n && (dim > 0 ==> |data[j].vec| == dim));
    if data != [] {
      var m := |data| - 1;
      var init := data[..m];
      FirstRefusalMeans(init, n, dim);
      assert forall j :: 0 <= j < m ==> init[j] == data[j];
      if k :| FirstMisplaced(init, k, n, dim) {
        assert FirstMisplaced(data, k, n, dim);
      }
      if k :| FirstMismatched(init, k, n, dim) {
        assert FirstMismatched(data, k, n, dim);
      }
      if FirstRefusal(init, n, dim).None? {
        assert FineUpTo(data, m, n, dim);
        assert FirstMisplaced(data, m, n, dim) || FirstMismatched(data, m, n, dim) || Refusal(data[m], n, dim).None?;
      }
    }
  }

  // The loop over the response's items.
  method Place(data: seq<Datum>, n: nat, dim: int) returns (r: Result<seq<Option<Vec>>, EmbedError>)
    requires |data| == n
    ensures r.Ok? <==> FirstRefusal(data, n, dim).None?
    ensures r.Err? ==> FirstRefusal(data, n, dim) == Some(r.error)
    ensures r.Ok? ==> |r.value| == n && forall i :: 0 <= i < n ==> r.value[i] == Slot(data, i)
  {
    var out := new Option<Vec>[n](_ => None);
    for k := 0 to |data|
      invariant FirstRefusal(data[..k], n, dim).None?
      invariant forall i :: 0 <= i < n ==> out[i] == Slot(data[..k], i)
    {
      var d := data[k];
      assert data[..k + 1] == data[..k] + [d];
      assert data[..k + 1][..k] == data[..k];
      if Refusal(d, n, dim).Some? {
        FirstRefusalStays(data, k + 1, n, dim);
      }
      if d.index < 0 || d.index >= n {
        return Err(IndexOutOfRange);
      }
      if dim > 0 && |d.vec| != dim {
        return Err(DimensionMismatch);
      }
      out[d.index] := Some(d.vec);
    }
    assert data[..|data|] == data;
    r := Ok(out[..]);
  }

  // A response of None is a transport failure.
  method EmbedBatch(texts: seq<string>, response: Option<seq<Datum>>, dim: int)
    returns (r: Result<seq<Option<Vec>>, EmbedError>)
    ensures r.Ok? <==>
      texts != [] && response.Some? && |response.value| == |texts| && AllAccepted(response.value, |texts|, dim)
    ensures r.Ok? <==>
      && texts != [] && response.Some? && |response.value| == |texts|
      && FineUpTo(response.value, |texts|, |texts|, dim)
    ensures r == Err(IndexOutOfRange) ==>
      response.Some? && exists k :: FirstMisplaced(response.value, k, |texts|, dim)
    ensures r == Err(DimensionMismatch) ==>
      response.Some? && exists k :: FirstMismatched(response.value, k, |texts|, dim)
    ensures r.Ok? ==> |r.value| == |texts| && forall i :: 0 <= i < |texts| ==> r.value[i] == Slot(response.value, i)
    ensures r.Err? ==>
      if texts == [] then r.error == EmptyInput
      else if response.None? then r.error == Transport
      else if |response.value| != |texts| then r.error == CountMismatch
      else FirstRefusal(response.value, |texts|, dim) == Some(r.error)
  {
    if |texts| == 0 {
      return Err(EmptyInput);
    }
    if response.None? {
      return Err(Transport);
    }
    if |response.value| != |texts| {
      return Err(CountMismatch);
    }
    FirstRefusalMeans(response.value, |texts|, dim);
    r := Place(response.value, |texts|, dim);
  }

  predicate DistinctIndices(data: seq<Datum>) {
    forall a, b :: 0 <= a < b < |data| ==> data[a].index != data[b].index
  }

  function Named(data: seq<Datum>): set<int> {
    set k | 0 <= k < |data| :: data[k].index
  }

  lemma {:induction false} NamedSnoc(init: seq<Datum>, d: Datum)
    ensures Named(init + [d]) == Named(init) + {d.index}
    ensures DistinctIndices(init + [d]) <==> DistinctIndices(init) && d.index !in Named(init)
  {
    var data := init + [d];
    assert data[|init|] == d;
    assert forall k :: 0 <= k < |init| ==> data[k] == init[k];
    if DistinctIndices(data) {
      forall a, b | 0 <= a < b < |init| ensures init[a].index != init[b].index {
        assert data[a].index != data[b].index;
      }
      forall k | 0 <= k < |init| ensures init[k].index != d.index {
        assert data[k].index != data[|init|].index;
      }
    }
    if DistinctIndices(init) && d.index !in Named(init) {
      forall a, b | 0 <= a < b < |data| ensures data[a].index != data[b].index {
        assert data[a].index in Named(init);
        assert b < |init| ==> init[a].index != init[b].index;
      }
    }
  }

  lemma {:induction false} NamedCount(data: seq<Datum>)
    ensures |Named(data)| <= |data|
    ensures |Named(data)| == |data| <==> DistinctIndices(data)
  {
    if data == [] {
      assert Named(data) == {};
    } else {
      var init, d := data[..|data| - 1], data[|data| - 1];
      NamedCount(init);
      NamedSnoc(init, d);
      assert data == init + [d];
      assert d.index in Named(init) ==> Named(init) + {d.index} == Named(init);
    }
  }

  lemma {:induction false} Below(n: nat, s: set<int>)
    requires forall x :: x in s ==> 0 <= x < n
    ensures |s| <= n
    ensures |s| == n <==> forall i :: 0 <= i < n ==> i in s
  {
    if n == 0 {
      assert forall x :: x !in s;
    } else {
      var rest := s - {n - 1};
      Below(n - 1, rest);
      assert forall i :: 0 <= i < n - 1 ==> (i in s <==> i in rest);
      if n - 1 in s {
        assert s == rest + {n - 1};
      } else {
        assert s == rest;
      }
    }
  }

  predicate EverySlotFilled(data: seq<Datum>, n: nat) {
    forall i: nat :: i < n ==> Slot(data, i).Some?
  }

  lemma {:induction false} SlotNamed(data: seq<Datum>, i: nat)
    ensures Slot(data, i).Some? <==> i in Named(data)
  {
    if Slot(data, i).Some? {
      var k :| 0 <= k < |data| && data[k].index == i;
      assert data[k].index in Named(data);
    }
  }

  // Nothing in the method asks for distinct indices: an accepted response fills every slot exactly
  // when they are distinct, and otherwise leaves some text without a vector.
  lemma {:induction false} EverySlotFilledIff(data: seq<Datum>, n: nat, dim: int)
    requires |data| == n && AllAccepted(data, n, dim)
    ensures EverySlotFilled(data, n) <==> DistinctIndices(data)
  {
    NamedCount(data);
    forall x | x in Named(data) ensures 0 <= x < n {
      var k :| 0 <= k < |data| && data[k].index == x;
      assert Refusal(data[k], n, dim).None?;
    }
    Below(n, Named(data));
    if EverySlotFilled(data, n) {
      forall i | 0 <= i < n ensures i in Named(data) {
        SlotNamed(data, i);
      }
    }
    if DistinctIndices(data) {
      forall i: nat | i < n ensures Slot(data, i).Some? {
        SlotNamed(data, i);
      }
    }
  }

  // With distinct indices every slot holds the vector of the one item that names it.
  lemma {:induction false} SlotHolds(data: seq<Datum>, k: nat)
    requires k < |data| && data[k].index >= 0 && DistinctIndices(data)
    ensures Slot(data, data[k].index) == Some(data[k].vec)
  {
    var init := data[..|data| - 1];
    if k < |init| {
      assert forall j :: 0 <= j < |init| ==> init[j] == data[j];
      SlotHolds(init, k);
      assert data[k].index != data[|data| - 1].index;
    }
  }

  // A service that answers with the vector of the text each index names, once per text, in any order:
  // every input gets the vector of its own text.
  lemma {:induction false} FaithfulResponse(texts: seq<string>, data: seq<Datum>, vec: string -> Vec)
    requires |data| == |texts| && AllAccepted(data, |texts|, 0) && DistinctIndices(data)
    requires forall k :: 0 <= k < |data| && 0 <= data[k].index < |texts| ==> data[k].vec == vec(texts[data[k].index])
    ensures forall i: nat :: i < |texts| ==> Slot(data, i) == Some(vec(texts[i]))
  {
    EverySlotFilledIff(data, |texts|, 0);
    forall i: nat | i < |texts| ensures Slot(data, i) == Some(vec(texts[i])) {
      assert Slot(data, i).Some?;
      var k :| 0 <= k < |data| && data[k].index == i;
      SlotHolds(data, k);
    }
  }
}
