/** The shape both `get_ready` loops share: walk the raw batch in order, drop
    every record the backend reads as a hang-up (closing its descriptor), and
    translate every other record into one ready event. The functions here are
    the specification the two loops are proved against. */
module Drain {

  /** The events a drain produces: one per record that is not dropped, in
      batch order. */
  function Kept<R, E>(batch: seq<R>, dropped: R -> bool, translate: R -> E): (out: seq<E>)
    ensures |out| <= |batch|
    decreases |batch|
  {
    if batch == [] then []
    else
      var init := batch[..|batch| - 1];
      var last := batch[|batch| - 1];
      if dropped(last) then Kept(init, dropped, translate)
      else Kept(init, dropped, translate) + [translate(last)]
  }

  /** The positions of the records a drain keeps, in increasing order. */
  function KeptIndices<R>(batch: seq<R>, dropped: R -> bool): (idx: seq<nat>)
    ensures forall k :: 0 <= k < |idx| ==> idx[k] < |batch|
    decreases |batch|
  {
    if batch == [] then []
    else
      var init := batch[..|batch| - 1];
      if dropped(batch[|batch| - 1]) then KeptIndices(init, dropped)
      else KeptIndices(init, dropped) + [|batch| - 1]
  }

  /** The descriptors of the dropped records: the ones a drain closes. */
  function DroppedKeys<R>(batch: seq<R>, dropped: R -> bool, key: R -> int): set<int>
    decreases |batch|
  {
    if batch == [] then {}
    else
      var init := batch[..|batch| - 1];
      var last := batch[|batch| - 1];
      if dropped(last) then DroppedKeys(init, dropped, key) + {key(last)}
      else DroppedKeys(init, dropped, key)
  }

  /** The output is exactly the in-order image of the kept records: position k
      of the output is the translation of the k-th kept record, the kept
      positions increase, and every record that is not dropped is kept. */
  lemma {:induction false} KeptIsOrderedImage<R, E>(batch: seq<R>, dropped: R -> bool, translate: R -> E)
    ensures |KeptIndices(batch, dropped)| == |Kept(batch, dropped, translate)|
    ensures forall k :: 0 <= k < |KeptIndices(batch, dropped)| ==>
      !dropped(batch[KeptIndices(batch, dropped)[k]])
      && Kept(batch, dropped, translate)[k] == translate(batch[KeptIndices(batch, dropped)[k]])
    ensures forall k, l :: 0 <= k < l < |KeptIndices(batch, dropped)| ==>
      KeptIndices(batch, dropped)[k] < KeptIndices(batch, dropped)[l]
    ensures forall j :: 0 <= j < |batch| && !dropped(batch[j]) ==> j in KeptIndices(batch, dropped)
    decreases |batch|
  {
    if batch != [] {
      var init := batch[..|batch| - 1];
      KeptIsOrderedImage(init, dropped, translate);
      assert forall j :: 0 <= j < |init| ==> init[j] == batch[j];
    }
  }

  /** Every output event is the translation of some record that is not dropped. */
  lemma KeptMembership<R, E>(batch: seq<R>, dropped: R -> bool, translate: R -> E, k: nat)
    requires k < |Kept(batch, dropped, translate)|
    ensures exists j :: 0 <= j < |batch| && !dropped(batch[j]) && Kept(batch, dropped, translate)[k] == translate(batch[j])
  {
    KeptIsOrderedImage(batch, dropped, translate);
    var j := KeptIndices(batch, dropped)[k];
    assert 0 <= j < |batch| && !dropped(batch[j]) && Kept(batch, dropped, translate)[k] == translate(batch[j]);
  }

  /** A descriptor is among the dropped ones exactly when some dropped record
      carries it. */
  lemma {:induction false} DroppedKeysMembership<R>(batch: seq<R>, dropped: R -> bool, key: R -> int, fd: int)
    ensures fd in DroppedKeys(batch, dropped, key) <==>
      exists j :: 0 <= j < |batch| && dropped(batch[j]) && key(batch[j]) == fd
    decreases |batch|
  {
    if batch != [] {
      var init := batch[..|batch| - 1];
      DroppedKeysMembership(init, dropped, key, fd);
      assert forall j :: 0 <= j < |init| ==> init[j] == batch[j];
      if fd in DroppedKeys(batch, dropped, key) && fd !in DroppedKeys(init, dropped, key) {
        var j := |batch| - 1;
        assert dropped(batch[j]) && key(batch[j]) == fd;
      }
    }
  }

  /** With nothing dropped the drain is a plain translation of the batch. */
  lemma {:induction false} NothingDroppedKeepsAll<R, E>(batch: seq<R>, dropped: R -> bool, translate: R -> E)
    requires forall j :: 0 <= j < |batch| ==> !dropped(batch[j])
    ensures |Kept(batch, dropped, translate)| == |batch|
    ensures forall k :: 0 <= k < |batch| ==> Kept(batch, dropped, translate)[k] == translate(batch[k])
    decreases |batch|
  {
    if batch != [] {
      var init := batch[..|batch| - 1];
      assert forall j :: 0 <= j < |init| ==> init[j] == batch[j];
      NothingDroppedKeepsAll(init, dropped, translate);
    }
  }
}
