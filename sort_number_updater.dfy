/** `SortNumberUpdater`: after rows are moved, the visual order of the
 *  issue rows is sent to the server as one sort number per issue. */
module SortNumberUpdater {
  import opened Optional
  import opened Js
  import opened Grid

  /** `{issue_id, sort_number}`. */
  datatype OrderEntry = OrderEntry(issueId: JsValue, sortNumber: int)

  /** The row shown at visual index `v` is an issue row: it exists and its
   *  id is truthy. */
  predicate Listed(data: seq<Row>, toPhysical: seq<int>, v: int)
    requires 0 <= v < |toPhysical|
  {
    var row := RowAt(data, toPhysical[v]);
    row.Some? && Truthy(Get(row.value, "id"))
  }

  /** The id of the row shown at visual index `v`. */
  function IdShownAt(data: seq<Row>, toPhysical: seq<int>, v: int): JsValue
    requires 0 <= v < |toPhysical|
  {
    var row := RowAt(data, toPhysical[v]);
    if row.Some? then Get(row.value, "id") else Undefined
  }

  /** The `orderData` for the first `|toPhysical|` visual rows, where
   *  `toPhysical[v]` is `toPhysicalRow(v)`. */
  function OrderData(data: seq<Row>, toPhysical: seq<int>): (order: seq<OrderEntry>)
    ensures |order| <= |toPhysical|
    ensures forall k :: 0 <= k < |order| ==> 1 <= order[k].sortNumber <= |toPhysical|
  {
    if toPhysical == [] then []
    else
      var v := |toPhysical| - 1;
      var prev := OrderData(data, toPhysical[..v]);
      if Listed(data, toPhysical, v) then prev + [OrderEntry(IdShownAt(data, toPhysical, v), v + 1)] else prev
  }

  /** `saveSortOrder()`: nothing in all-projects mode, else the order
   *  sent to `update_sort_number`. */
  method SaveSortOrder(isAllProjects: JsValue, data: seq<Row>, toPhysical: seq<int>) returns (sent: Option<seq<OrderEntry>>)
    ensures StrictEquals(isAllProjects, Bool(true)) ==> sent.None?
    ensures !StrictEquals(isAllProjects, Bool(true)) ==> sent == Some(OrderData(data, toPhysical))
  {
    if StrictEquals(isAllProjects, Bool(true)) {
      return None;
    }
    var orderData := [];
    for visualIndex := 0 to |toPhysical|
      invariant orderData == OrderData(data, toPhysical[..visualIndex])
    {
      ghost var prefix := toPhysical[..visualIndex + 1];
      assert prefix[..visualIndex] == toPhysical[..visualIndex];
      assert RowAt(data, prefix[visualIndex]) == RowAt(data, toPhysical[visualIndex]);
      var physicalIndex := toPhysical[visualIndex];
      var row := RowAt(data, physicalIndex);
      if row.None? || !Truthy(Get(row.value, "id")) {
        continue;
      }
      orderData := orderData + [OrderEntry(Get(row.value, "id"), visualIndex + 1)];
    }
    assert toPhysical[..|toPhysical|] == toPhysical;
    return Some(orderData);
  }

  /** Dropping the last visual row changes nothing about the others. */
  lemma PrefixShowsTheSame(data: seq<Row>, toPhysical: seq<int>, i: int)
    requires 0 <= i < |toPhysical| - 1
    ensures Listed(data, toPhysical[..|toPhysical| - 1], i) == Listed(data, toPhysical, i)
    ensures IdShownAt(data, toPhysical[..|toPhysical| - 1], i) == IdShownAt(data, toPhysical, i)
  {
    assert toPhysical[..|toPhysical| - 1][i] == toPhysical[i];
  }

  /** The order lists the issue rows in visual order: strictly increasing
   *  sort numbers, each the visual position plus one of a listed row,
   *  paired with that row's id. */
  lemma {:induction false} OrderIsVisual(data: seq<Row>, toPhysical: seq<int>)
    ensures forall k :: 0 <= k < |OrderData(data, toPhysical)| ==>
      && Listed(data, toPhysical, OrderData(data, toPhysical)[k].sortNumber - 1)
      && OrderData(data, toPhysical)[k].issueId == IdShownAt(data, toPhysical, OrderData(data, toPhysical)[k].sortNumber - 1)
    ensures forall k, j :: 0 <= k < j < |OrderData(data, toPhysical)| ==>
      OrderData(data, toPhysical)[k].sortNumber < OrderData(data, toPhysical)[j].sortNumber
  {
    if toPhysical != [] {
      var last := |toPhysical| - 1;
      var shorter := toPhysical[..last];
      OrderIsVisual(data, shorter);
      var prev := OrderData(data, shorter);
      var order := OrderData(data, toPhysical);
      forall k | 0 <= k < |prev|
        ensures Listed(data, toPhysical, prev[k].sortNumber - 1)
        ensures prev[k].issueId == IdShownAt(data, toPhysical, prev[k].sortNumber - 1)
      {
        var i := prev[k].sortNumber - 1;
        assert 0 <= i < last;
        assert Listed(data, shorter, i) && prev[k].issueId == IdShownAt(data, shorter, i);
        PrefixShowsTheSame(data, toPhysical, i);
      }
      if Listed(data, toPhysical, last) {
        assert order == prev + [OrderEntry(IdShownAt(data, toPhysical, last), last + 1)];
        assert forall k :: 0 <= k < |prev| ==> order[k] == prev[k] && order[k].sortNumber <= last;
      } else {
        assert order == prev;
      }
    }
  }

  /** Some entry of `order` carries sort number `n`. */
  predicate HasSortNumber(order: seq<OrderEntry>, n: int)
  {
    exists k :: 0 <= k < |order| && order[k].sortNumber == n
  }

  /** Every issue row on screen is in the order: the row at visual index
   *  `v` gets sort number `v + 1` exactly when it is listed. */
  lemma {:induction false} EveryIssueRowOrdered(data: seq<Row>, toPhysical: seq<int>, v: int)
    requires 0 <= v < |toPhysical|
    ensures Listed(data, toPhysical, v) <==> HasSortNumber(OrderData(data, toPhysical), v + 1)
  {
    var last := |toPhysical| - 1;
    var shorter := toPhysical[..last];
    var prev := OrderData(data, shorter);
    var order := OrderData(data, toPhysical);
    var extended := Listed(data, toPhysical, last);
    assert order == if extended then prev + [OrderEntry(IdShownAt(data, toPhysical, last), last + 1)] else prev;
    assert forall k :: 0 <= k < |prev| ==> order[k] == prev[k];
    if v < last {
      EveryIssueRowOrdered(data, shorter, v);
      PrefixShowsTheSame(data, toPhysical, v);
      if Listed(data, toPhysical, v) {
        var k :| 0 <= k < |prev| && prev[k].sortNumber == v + 1;
        assert order[k].sortNumber == v + 1;
      } else {
        forall k | 0 <= k < |order|
          ensures order[k].sortNumber != v + 1
        {
          if k < |prev| {
            assert order[k] == prev[k];
          } else {
            assert order[k].sortNumber == last + 1;
          }
        }
      }
    } else if extended {
      assert order[|prev|].sortNumber == v + 1;
    } else {
      assert forall k :: 0 <= k < |order| ==> order[k].sortNumber <= last;
    }
  }
}
