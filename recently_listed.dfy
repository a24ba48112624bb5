/**
 The listing reconciliation of the "recently listed" marketplace view: from
 one indexer query response (listed, cancelled and bought nodes) it derives
 the listings still available, in query order, capped at one hundred, and
 projected to the shape the item cards are drawn from.
 */
module RecentlyListed {
  import opened JsValue

  /** The most listings the view ever shows (`slice(0, 100)`). */
  const DisplayCap: nat := 100

  /** A node of `allItemListeds`. Only `nftAddress`, `tokenId` and `price`
      are read by the reconciliation; the rest are carried as they come. */
  datatype NftItem = NftItem(
    rindexerId: Field,
    contractAddress: Field,
    nftAddress: Field,
    price: Field,
    seller: Field,
    tokenId: Field,
    txHash: Field,
    blockNumber: Field)

  /** A node of `allItemCanceleds` or `allItemBoughts`. */
  datatype ItemCancelledOrBought = ItemCancelledOrBought(nftAddress: Field, tokenId: Field)

  /** The `data` member of a query response; the listed nodes are in the
      order the indexer returned them. */
  datatype QueryData = QueryData(
    listed: seq<NftItem>,
    cancelled: seq<ItemCancelledOrBought>,
    bought: seq<ItemCancelledOrBought>)

  /** One entry of the reconciled list, as handed to an item card. */
  datatype Entry = Entry(tokenId: Field, contractAddress: Field, price: Field)

  function Min(a: int, b: int): int
  {
    if a <= b then a else b
  }

  /** The exclusion key `${nftAddress}-${tokenId}`. */
  function Key(nftAddress: string, tokenId: string): (r: string)
    ensures |r| == |nftAddress| + 1 + |tokenId|
    ensures r[..|nftAddress|] == nftAddress && r[|nftAddress|] == '-' && r[|nftAddress| + 1..] == tokenId
  {
    nftAddress + "-" + tokenId
  }

  /** The key of a cancel or buy node: its address text, "-", its token-id text. */
  function EventKey(e: ItemCancelledOrBought): (r: string)
    ensures var a := Render(e.nftAddress);
      |a| < |r| && r[..|a|] == a && r[|a|] == '-' && r[|a| + 1..] == Render(e.tokenId)
  {
    Key(Render(e.nftAddress), Render(e.tokenId))
  }

  /** The key of a listed node: the same key a cancel or buy node for the
      same address and token id has. */
  function ListedKey(n: NftItem): (r: string)
    ensures r == EventKey(ItemCancelledOrBought(n.nftAddress, n.tokenId))
  {
    Key(Render(n.nftAddress), Render(n.tokenId))
  }

  /** The key of a reconciled entry, built from its contract address and token
      id the way the exclusion keys are; it states exclusion over the output. */
  function EntryKey(e: Entry): string
  {
    Key(Render(e.contractAddress), Render(e.tokenId))
  }

  /** The keys of a list of cancel or buy events, as a set. */
  function KeySet(nodes: seq<ItemCancelledOrBought>): (r: set<string>)
    ensures forall e :: e in nodes ==> EventKey(e) in r
    ensures forall k :: k in r ==> exists e :: e in nodes && EventKey(e) == k
  {
    set e | e in nodes :: EventKey(e)
  }

  lemma KeySetAppend(nodes: seq<ItemCancelledOrBought>, e: ItemCancelledOrBought)
    ensures KeySet(nodes + [e]) == KeySet(nodes) + {EventKey(e)}
  {
  }

  /** One `forEach` loop of the hook: adds the key of every node to a fresh
      set, one node at a time. */
  method CollectKeys(nodes: seq<ItemCancelledOrBought>) returns (keys: set<string>)
    ensures keys == KeySet(nodes)
    ensures forall e :: e in nodes ==> EventKey(e) in keys
    ensures forall k :: k in keys ==> exists e :: e in nodes && EventKey(e) == k
  {
    keys := {};
    var i := 0;
    while i < |nodes|
      invariant 0 <= i <= |nodes|
      invariant keys == KeySet(nodes[..i])
    {
      assert nodes[..i + 1] == nodes[..i] + [nodes[i]];
      KeySetAppend(nodes[..i], nodes[i]);
      keys := keys + {EventKey(nodes[i])};
      i := i + 1;
    }
    assert nodes[..i] == nodes;
  }

  /** The filter callback: both key fields present and the key in neither
      exclusion set. */
  predicate Available(n: NftItem, bought: set<string>, cancelled: set<string>)
    ensures Available(n, bought, cancelled) ==>
      n.nftAddress.Str? && n.tokenId.Str? && ListedKey(n) !in bought + cancelled
  {
    && Truthy(n.nftAddress)
    && Truthy(n.tokenId)
    && ListedKey(n) !in bought
    && ListedKey(n) !in cancelled
  }

  /** `listed.filter(...)`: the available nodes, in their input order. */
  function FilterAvailable(listed: seq<NftItem>, bought: set<string>, cancelled: set<string>): (r: seq<NftItem>)
    ensures |r| <= |listed|
    ensures forall n :: n in r ==> n in listed && Available(n, bought, cancelled)
  {
    if listed == [] then []
    else
      (if Available(listed[0], bought, cancelled) then [listed[0]] else [])
      + FilterAvailable(listed[1..], bought, cancelled)
  }

  /** `s.slice(0, n)`: the first `n` elements, or all of `s` when it is shorter. */
  function Take<T>(s: seq<T>, n: nat): (r: seq<T>)
    ensures r <= s
    ensures |r| == Min(|s|, n)
  {
    if |s| <= n then s else s[..n]
  }

  /** The `map` callback: the card's contract address is the node's `nftAddress`. */
  function Project(n: NftItem): (r: Entry)
    ensures EntryKey(r) == ListedKey(n)
    ensures Truthy(n.nftAddress) && Truthy(n.tokenId) ==> Truthy(r.contractAddress) && Truthy(r.tokenId)
  {
    Entry(n.tokenId, n.nftAddress, n.price)
  }

  /** `map` with the projection: one entry per node, in the same order. */
  function ProjectAll(s: seq<NftItem>): (r: seq<Entry>)
    ensures |r| == |s|
    ensures forall k :: 0 <= k < |s| ==>
      r[k].tokenId == s[k].tokenId && r[k].contractAddress == s[k].nftAddress && r[k].price == s[k].price
  {
    seq(|s|, k requires 0 <= k < |s| => Project(s[k]))
  }

  /** The reconciled list for a response, or the empty list when there is none. */
  function Reconcile(data: Option<QueryData>): (r: seq<Entry>)
    ensures data.None? ==> r == []
    ensures |r| <= DisplayCap
    ensures data.Some? ==> |r| <= |data.value.listed|
  {
    match data
    case None => []
    case Some(d) =>
      ProjectAll(Take(FilterAvailable(d.listed, KeySet(d.bought), KeySet(d.cancelled)), DisplayCap))
  }

  /** The `useMemo` body of the hook: build the two exclusion sets with loops,
      then filter, cap and project the listed nodes. */
  method ReconcileResponse(data: Option<QueryData>) returns (list: seq<Entry>)
    ensures list == Reconcile(data)
  {
    if data.None? {
      return [];
    }
    var d := data.value;
    var boughtNfts := CollectKeys(d.bought);
    var cancelledNfts := CollectKeys(d.cancelled);
    var availableNfts := FilterAvailable(d.listed, boughtNfts, cancelledNfts);
    list := ProjectAll(Take(availableNfts, DisplayCap));
  }
}
