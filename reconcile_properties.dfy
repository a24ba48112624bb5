/**
 What the reconciliation guarantees, stated against an independent
 description of its result: the positions of the listed nodes that survive
 the filter (`Survivors`), in increasing order.
 */
module ReconcileProperties {
  import opened JsValue
  import opened RecentlyListed

  /** The positions, at or after `from`, of the listed nodes the filter keeps,
      in increasing order; each is available (and, by `SurvivorsComplete`,
      every available position is among them). */
  ghost function Survivors(listed: seq<NftItem>, bought: set<string>, cancelled: set<string>, from: nat): (idx: seq<nat>)
    requires from <= |listed|
    ensures |idx| <= |listed| - from
    ensures forall k :: 0 <= k < |idx| ==> from <= idx[k] < |listed| && Available(listed[idx[k]], bought, cancelled)
    ensures forall a, b :: 0 <= a < b < |idx| ==> idx[a] < idx[b]
    decreases |listed| - from
  {
    if from == |listed| then []
    else
      (if Available(listed[from], bought, cancelled) then [from] else [])
      + Survivors(listed, bought, cancelled, from + 1)
  }

  /** The positions of the listed nodes of a response that the filter keeps. */
  ghost function SurvivorIndices(d: QueryData): (idx: seq<nat>)
    ensures |idx| <= |d.listed|
    ensures forall a, b :: 0 <= a < b < |idx| ==> idx[a] < idx[b]
    ensures forall k :: 0 <= k < |idx| ==>
      idx[k] < |d.listed| && Available(d.listed[idx[k]], KeySet(d.bought), KeySet(d.cancelled))
  {
    Survivors(d.listed, KeySet(d.bought), KeySet(d.cancelled), 0)
  }

  /** Every available position at or after `from` survives. */
  lemma {:induction false} SurvivorsComplete(listed: seq<NftItem>, bought: set<string>, cancelled: set<string>, from: nat, j: nat)
    requires from <= j < |listed|
    requires Available(listed[j], bought, cancelled)
    ensures j in Survivors(listed, bought, cancelled, from)
    decreases |listed| - from
  {
    var idx' := Survivors(listed, bought, cancelled, from + 1);
    if j == from {
      assert Survivors(listed, bought, cancelled, from) == [from] + idx';
    } else {
      SurvivorsComplete(listed, bought, cancelled, from + 1, j);
      assert Survivors(listed, bought, cancelled, from)
        == (if Available(listed[from], bought, cancelled) then [from] else []) + idx';
    }
  }

  /** A listed position survives the filter if and only if its node has both
      key fields and its key is in neither exclusion set. */
  lemma SurvivorIff(d: QueryData, j: nat)
    requires j < |d.listed|
    ensures j in SurvivorIndices(d) <==> Available(d.listed[j], KeySet(d.bought), KeySet(d.cancelled))
  {
    if Available(d.listed[j], KeySet(d.bought), KeySet(d.cancelled)) {
      SurvivorsComplete(d.listed, KeySet(d.bought), KeySet(d.cancelled), 0, j);
    }
  }

  /** The filter returns the listed nodes at the surviving positions, in order. */
  lemma {:induction false} FilterIsSurvivors(listed: seq<NftItem>, bought: set<string>, cancelled: set<string>, from: nat)
    requires from <= |listed|
    ensures var idx := Survivors(listed, bought, cancelled, from);
      var f := FilterAvailable(listed[from..], bought, cancelled);
      |f| == |idx| && forall k :: 0 <= k < |f| ==> f[k] == listed[idx[k]]
    decreases |listed| - from
  {
    if from < |listed| {
      FilterIsSurvivors(listed, bought, cancelled, from + 1);
      var idx, idx' := Survivors(listed, bought, cancelled, from), Survivors(listed, bought, cancelled, from + 1);
      var f, f' := FilterAvailable(listed[from..], bought, cancelled), FilterAvailable(listed[from + 1..], bought, cancelled);
      assert listed[from..][0] == listed[from] && listed[from..][1..] == listed[from + 1..];
      assert f == (if Available(listed[from], bought, cancelled) then [listed[from]] else []) + f';
      if Available(listed[from], bought, cancelled) {
        assert f == [listed[from]] + f';
        assert idx == [from] + idx';
      } else {
        assert f == f';
        assert idx == idx';
      }
    }
  }

  /** The result is the first min(100, n) surviving nodes in query order,
      each projected field by field: token id and price copied, contract
      address taken from the node's `nftAddress`. */
  lemma ReconcileIsFirstSurvivors(d: QueryData)
    ensures var idx := SurvivorIndices(d);
      var r := Reconcile(Some(d));
      && |r| == Min(|idx|, DisplayCap)
      && forall k :: 0 <= k < |r| ==>
           && r[k].tokenId == d.listed[idx[k]].tokenId
           && r[k].contractAddress == d.listed[idx[k]].nftAddress
           && r[k].price == d.listed[idx[k]].price
  {
    var bought, cancelled := KeySet(d.bought), KeySet(d.cancelled);
    FilterIsSurvivors(d.listed, bought, cancelled, 0);
    assert d.listed[0..] == d.listed;
    var idx := SurvivorIndices(d);
    var f := FilterAvailable(d.listed, bought, cancelled);
    var shown := Take(f, DisplayCap);
    assert Reconcile(Some(d)) == ProjectAll(shown);
    forall k | 0 <= k < |shown| ensures shown[k] == d.listed[idx[k]] {
      assert shown[k] == f[k];
    }
  }

  /** No shown entry lacks a contract address or token id, and none carries
      the key of any bought or cancelled node, whatever its position or price. */
  lemma ShownEntriesNotExcluded(d: QueryData)
    ensures forall k :: 0 <= k < |Reconcile(Some(d))| ==>
      var e := Reconcile(Some(d))[k];
      && Truthy(e.contractAddress)
      && Truthy(e.tokenId)
      && (forall b :: b in d.bought ==> EntryKey(e) != EventKey(b))
      && (forall c :: c in d.cancelled ==> EntryKey(e) != EventKey(c))
  {
    ReconcileIsFirstSurvivors(d);
  }

  /** With at most one hundred survivors nothing is cut: every available
      listed node is shown. */
  lemma AllAvailableShownUnderCap(d: QueryData, j: nat)
    requires j < |d.listed|
    requires Available(d.listed[j], KeySet(d.bought), KeySet(d.cancelled))
    requires |SurvivorIndices(d)| <= DisplayCap
    ensures Project(d.listed[j]) in Reconcile(Some(d))
  {
    ReconcileIsFirstSurvivors(d);
    SurvivorIff(d, j);
    var idx := SurvivorIndices(d);
    var k :| 0 <= k < |idx| && idx[k] == j;
    assert Reconcile(Some(d))[k] == Project(d.listed[j]);
  }

  /** The bought and cancelled lists matter only through their key sets:
      lists with the same keys, even from different nodes, give the same result. */
  lemma OnlyKeySetsMatter(d: QueryData, bought': seq<ItemCancelledOrBought>, cancelled': seq<ItemCancelledOrBought>)
    requires KeySet(d.bought) == KeySet(bought') && KeySet(d.cancelled) == KeySet(cancelled')
    ensures Reconcile(Some(d)) == Reconcile(Some(QueryData(d.listed, cancelled', bought')))
  {
  }

  /** In particular, reordering or repeating bought or cancelled nodes changes nothing. */
  lemma EventOrderIrrelevant(d: QueryData, bought': seq<ItemCancelledOrBought>, cancelled': seq<ItemCancelledOrBought>)
    requires forall e :: e in d.bought <==> e in bought'
    requires forall e :: e in d.cancelled <==> e in cancelled'
    ensures Reconcile(Some(d)) == Reconcile(Some(QueryData(d.listed, cancelled', bought')))
  {
    assert KeySet(d.bought) == KeySet(bought');
    assert KeySet(d.cancelled) == KeySet(cancelled');
    OnlyKeySetsMatter(d, bought', cancelled');
  }

  /** The listed nodes that carry both a contract address and a token id. */
  function WellKeyed(listed: seq<NftItem>): (r: seq<NftItem>)
  {
    if listed == [] then []
    else
      (if Truthy(listed[0].nftAddress) && Truthy(listed[0].tokenId) then [listed[0]] else [])
      + WellKeyed(listed[1..])
  }

  lemma {:induction false} FilterWithoutExclusions(listed: seq<NftItem>)
    ensures FilterAvailable(listed, {}, {}) == WellKeyed(listed)
  {
    if listed != [] {
      FilterWithoutExclusions(listed[1..]);
    }
  }

  /** With no bought and no cancelled nodes the result is the first hundred
      listed nodes that carry both key fields. */
  lemma NoEventsShowsWellKeyed(d: QueryData)
    requires d.bought == [] && d.cancelled == []
    ensures Reconcile(Some(d)) == ProjectAll(Take(WellKeyed(d.listed), DisplayCap))
  {
    assert KeySet([]) == {};
    FilterWithoutExclusions(d.listed);
  }
}
