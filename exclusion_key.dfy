/**
 The exclusion key is a plain concatenation with "-". It identifies a
 (contract, token) pair only when the contract part holds no "-": otherwise
 two different pairs can share a key, and an event for one pair hides a
 listing of the other.
 */
module ExclusionKey {
  import opened JsValue
  import opened RecentlyListed

  /** When neither contract address contains "-", equal keys mean equal pairs. */
  lemma KeyInjective(a1: string, t1: string, a2: string, t2: string)
    requires '-' !in a1 && '-' !in a2
    requires Key(a1, t1) == Key(a2, t2)
    ensures a1 == a2 && t1 == t2
  {
  }

  /** An accepted listed node's key is its own address string and token id
      string joined by "-": neither field is absent or null, so neither adds
      its rendered text. The strings themselves may still read "undefined". */
  lemma AvailableKeyIsPlain(n: NftItem, bought: set<string>, cancelled: set<string>)
    requires Available(n, bought, cancelled)
    ensures ListedKey(n) == Key(n.nftAddress.s, n.tokenId.s)
  {
  }

  /** When neither the listing's address text nor any event's address text
      contains "-", a listed node is excluded by a set of events exactly when
      one of them has the same address text and token id text. */
  lemma ExclusionByPair(n: NftItem, events: seq<ItemCancelledOrBought>)
    requires '-' !in Render(n.nftAddress)
    requires forall e :: e in events ==> '-' !in Render(e.nftAddress)
    ensures ListedKey(n) in KeySet(events) <==>
      exists e :: e in events
        && Render(e.nftAddress) == Render(n.nftAddress)
        && Render(e.tokenId) == Render(n.tokenId)
  {
  }

  function Listed(nftAddress: string, tokenId: string, price: string): NftItem
  {
    NftItem(Missing, Missing, Str(nftAddress), Str(price), Missing, Str(tokenId), Missing, Missing)
  }

  function Event(nftAddress: string, tokenId: string): ItemCancelledOrBought
  {
    ItemCancelledOrBought(Str(nftAddress), Str(tokenId))
  }

  /** A purchase of token "1-2" of contract "0xA" hides the listing of token
      "2" of contract "0xA-1": both have the key "0xA-1-2". */
  lemma KeyCollisionHidesListing()
    ensures Reconcile(Some(QueryData([Listed("0xA-1", "2", "5")], [], [Event("0xA", "1-2")]))) == []
  {
    var d := QueryData([Listed("0xA-1", "2", "5")], [], [Event("0xA", "1-2")]);
    assert ListedKey(d.listed[0]) == EventKey(d.bought[0]);
    assert ListedKey(d.listed[0]) in KeySet(d.bought);
  }

  lemma SingleEventKeySet(a: string, t: string)
    ensures KeySet([Event(a, t)]) == {Key(a, t)}
  {
    assert EventKey(Event(a, t)) == Key(a, t);
  }

  lemma FilterDropsFirstOfTwo(a: NftItem, b: NftItem, bought: set<string>, cancelled: set<string>)
    requires !Available(a, bought, cancelled) && Available(b, bought, cancelled)
    ensures FilterAvailable([a, b], bought, cancelled) == [b]
  {
    assert [a, b][1..] == [b];
    assert [b][1..] == [];
  }

  lemma DistinctExampleKeys()
    ensures Key("0xB", "2") != Key("0xA", "1")
  {
    assert Key("0xB", "2")[2] == 'B' && Key("0xA", "1")[2] == 'A';
  }

  lemma ExampleAvailability()
    ensures !Available(Listed("0xA", "1", "10"), {Key("0xA", "1")}, {})
    ensures Available(Listed("0xB", "2", "20"), {Key("0xA", "1")}, {})
  {
    DistinctExampleKeys();
    assert ListedKey(Listed("0xA", "1", "10")) == Key("0xA", "1");
    assert ListedKey(Listed("0xB", "2", "20")) == Key("0xB", "2");
  }

  /** A bought listing is removed and the rest is shown, contract address
      taken from `nftAddress`. */
  lemma BoughtListingRemoved()
    ensures Reconcile(Some(QueryData(
        [Listed("0xA", "1", "10"), Listed("0xB", "2", "20")], [], [Event("0xA", "1")])))
      == [Entry(Str("2"), Str("0xB"), Str("20"))]
  {
    var a, b := Listed("0xA", "1", "10"), Listed("0xB", "2", "20");
    SingleEventKeySet("0xA", "1");
    assert KeySet([]) == {};
    ExampleAvailability();
    FilterDropsFirstOfTwo(a, b, {Key("0xA", "1")}, {});
    assert Take([b], DisplayCap) == [b];
    assert ProjectAll([b]) == [Entry(Str("2"), Str("0xB"), Str("20"))];
  }

  /** An event whose token id is absent has the key "<address>-undefined", so
      it hides a listing whose token id is the text "undefined". */
  lemma AbsentTokenIdKey()
    ensures Reconcile(Some(QueryData(
        [Listed("0xA", "undefined", "7")], [ItemCancelledOrBought(Str("0xA"), Missing)], []))) == []
  {
    var d := QueryData([Listed("0xA", "undefined", "7")], [ItemCancelledOrBought(Str("0xA"), Missing)], []);
    assert ListedKey(d.listed[0]) == EventKey(d.cancelled[0]);
    assert ListedKey(d.listed[0]) in KeySet(d.cancelled);
  }
}
