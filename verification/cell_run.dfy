/**
 A run of aligned cells: each cell is written after padding the buffer to its alignment. The bodies of
 dense and sparse records are runs, and every reader position is the start of a cell of a run.
 */
module CellRun {
  import opened Bytes

  datatype Item = Item(align: nat, bytes: Bytes) {
    ghost predicate Valid() { align >= 1 }
  }

  ghost predicate Valid(items: seq<Item>)
  {
    forall k :: 0 <= k < |items| ==> items[k].Valid()
  }

  /** The buffer after writing every item in order. */
  function Body(items: seq<Item>): (b: Bytes)
    requires Valid(items)
  {
    if |items| == 0 then []
    else PadTo(Body(items[..|items| - 1]), items[|items| - 1].align) + items[|items| - 1].bytes
  }

  function Start(items: seq<Item>, k: nat): (s: nat)
    requires Valid(items) && k < |items|
  {
    RoundUp(|Body(items[..k])|, items[k].align)
  }

  lemma {:induction false} BodySnoc(items: seq<Item>, k: nat)
    requires Valid(items) && k < |items|
    ensures Body(items[..k + 1]) == PadTo(Body(items[..k]), items[k].align) + items[k].bytes
    ensures |Body(items[..k + 1])| == Start(items, k) + |items[k].bytes|
  {
    assert items[..k + 1][..k] == items[..k];
  }

  lemma {:induction false} BodyPrefix(items: seq<Item>, k: nat)
    requires Valid(items) && k <= |items|
    ensures Body(items[..k]) <= Body(items)
    decreases |items| - k
  {
    if k < |items| {
      BodySnoc(items, k);
      BodyPrefix(items, k + 1);
    } else {
      assert items[..k] == items;
    }
  }

  /** Where the body lies in `data`, each item's bytes lie at the item's start. */
  lemma {:induction false} ItemAt(data: Bytes, base: nat, items: seq<Item>, k: nat)
    requires Valid(items) && k < |items| && At(data, base, Body(items))
    ensures At(data, base + Start(items, k), items[k].bytes)
  {
    BodySnoc(items, k);
    BodyPrefix(items, k + 1);
    var b := Body(items[..k + 1]);
    AtSlice(data, base, Body(items), 0, |b|);
    assert Body(items)[0..|b|] == b;
    AtConcat(data, base, PadTo(Body(items[..k]), items[k].align), items[k].bytes);
  }
}
