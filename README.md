# Recently listed NFTs: listing reconciliation

This project models the listing reconciliation of an NFT marketplace front-end.
The "recently listed" view gets one response from an indexer's GraphQL query.
The response has three node lists: items listed, items cancelled and items bought.
The view derives from them the listings that are still available:

1. It builds the set of keys `${nftAddress}-${tokenId}` of the bought nodes and the set of keys of the cancelled nodes. Each set is built by its own `forEach` loop.
2. It keeps, in query order, the listed nodes that have a truthy `nftAddress` and a truthy `tokenId` and whose key is in neither set.
3. It keeps at most the first 100 of those nodes.
4. It projects each of them to `{tokenId, contractAddress, price}`. `contractAddress` is taken from the node's `nftAddress`.

When there is no response yet, the list is empty.

Files:

- `js_value.dfy` (module `JsValue`): a JSON string field as JavaScript sees it. The field is absent, `null` or a string. The module gives its template-literal text (`undefined`, `null` or the string) and its truthiness.
- `recently_listed.dfy` (module `RecentlyListed`): the node shapes and the exclusion key. It holds the loop that collects a key set (`CollectKeys`) and the pure filter, cap and projection. `Reconcile` is the function that specifies the result. `ReconcileResponse` is the hook's body as a method: two loops build the sets, then the pure pipeline runs.
- `reconcile_properties.dfy` (module `ReconcileProperties`): an independent description of the result. `Survivors` gives the increasing positions of the listed nodes that pass the filter. The lemmas relate the result to those positions: the length, the order, the projected fields, exclusion, and dependence on the key sets only.
- `exclusion_key.dfy` (module `ExclusionKey`): what the `-`-joined key does and does not identify, with concrete responses.

The key is built from the node's `nftAddress`, not its `contractAddress` field. The card's `contractAddress` is also copied from `nftAddress`. The model follows the code.

A token that was bought or cancelled once stays hidden even if it is listed again later. Exclusion is by key alone. `ShownEntriesNotExcluded` states this.

## Model

| member | source | states |
|---|---|---|
| `JsValue.Render` | src/components/RecentlyListed.tsx:111 | by definition an absent field renders as "undefined", a null one as "null" and a string as itself; the ensures states that an absent or null field renders as a non-empty text without `-` |
| `JsValue.Truthy` | src/components/RecentlyListed.tsx:119 | the fields `!x` treats as missing are exactly the absent field, `null` and the empty string |
| `RecentlyListed.Key` | src/components/RecentlyListed.tsx:120 | the key is laid out as the address, then `-` at position len(address), then the token id |
| `RecentlyListed.EventKey` | src/components/RecentlyListed.tsx:111 | a cancel or buy node's key is its address text, `-`, then its token-id text |
| `RecentlyListed.ListedKey` | src/components/RecentlyListed.tsx:120 | a listed node's key equals the key of a cancel or buy node with the same address and token id |
| `RecentlyListed.KeySet` | src/components/RecentlyListed.tsx:106-116 | the set after the `forEach` loops holds every node's key and only keys of nodes |
| `RecentlyListed.Available` | src/components/RecentlyListed.tsx:119-121 | an accepted node has a string address and token id (never absent or null) and its key is in neither exclusion set; `SurvivorIff` gives both directions of acceptance |
| `RecentlyListed.Project` | src/components/RecentlyListed.tsx:124-128 | the entry's key, built from its contractAddress and tokenId, equals the node's listing key, and a node with both key fields gives an entry with both |
| `RecentlyListed.ProjectAll` | src/components/RecentlyListed.tsx:124-128 | one entry per node in the same order, carrying tokenId, nftAddress as contractAddress, and price |
| `RecentlyListed.CollectKeys` | src/components/RecentlyListed.tsx:106-116 | the loop's set holds exactly the keys of the given nodes: each node's key is in it and each member is some node's key |
| `RecentlyListed.FilterAvailable` | src/components/RecentlyListed.tsx:118-122 | the filter never grows the list and keeps only listed nodes with both key fields truthy and a key in neither exclusion set |
| `RecentlyListed.Take` | src/components/RecentlyListed.tsx:124 | `slice(0, n)` returns a prefix of length min(length, n) |
| `RecentlyListed.Reconcile` | src/components/RecentlyListed.tsx:102-131 | no data gives the empty list; otherwise at most 100 entries and at most one per listed node |
| `RecentlyListed.ReconcileResponse` | src/components/RecentlyListed.tsx:102-131 | the hook body, with its sets built by loops, returns exactly the specified reconciliation |
| `ReconcileProperties.Survivors` | src/components/RecentlyListed.tsx:118-122 | the surviving positions from `from` on are strictly increasing, at most one per listed node, and each holds an available node |
| `ReconcileProperties.SurvivorIndices` | src/components/RecentlyListed.tsx:118-122 | the surviving positions of a response are strictly increasing, in range, and each holds a node with both key fields whose key is in neither exclusion set |
| `ReconcileProperties.SurvivorsComplete` | src/components/RecentlyListed.tsx:118-122 | every available position from `from` on is among the surviving positions |
| `ReconcileProperties.SurvivorIff` | src/components/RecentlyListed.tsx:118-122 | a listed position survives if and only if its node has both key fields and its key is in neither the bought nor the cancelled key set |
| `ReconcileProperties.FilterIsSurvivors` | src/components/RecentlyListed.tsx:118-122 | the filtered list is the listed nodes at the surviving positions, in input order |
| `ReconcileProperties.ReconcileIsFirstSurvivors` | src/components/RecentlyListed.tsx:118-128 | the result has min(100, survivors) entries; entry k comes from the k-th survivor, with its tokenId and price, and with contractAddress set to the node's nftAddress |
| `ReconcileProperties.ShownEntriesNotExcluded` | src/components/RecentlyListed.tsx:110-122 | every shown entry has a truthy contract address and token id, and its key differs from the key of every bought and every cancelled node |
| `ReconcileProperties.AllAvailableShownUnderCap` | src/components/RecentlyListed.tsx:118-124 | with at most 100 survivors, every available listed node appears in the result |
| `ReconcileProperties.OnlyKeySetsMatter` | src/components/RecentlyListed.tsx:106-121 | bought and cancelled lists with the same key sets, even from different nodes, give the same result |
| `ReconcileProperties.EventOrderIrrelevant` | src/components/RecentlyListed.tsx:106-116 | reordering or duplicating bought or cancelled nodes leaves the result unchanged |
| `ReconcileProperties.FilterWithoutExclusions` | src/components/RecentlyListed.tsx:118-122 | with both key sets empty, the filter keeps exactly the nodes with both key fields truthy |
| `ReconcileProperties.NoEventsShowsWellKeyed` | src/components/RecentlyListed.tsx:118-128 | with no bought and no cancelled nodes, the result is the first 100 listed nodes with both key fields, projected |
| `ExclusionKey.AvailableKeyIsPlain` | src/components/RecentlyListed.tsx:119-120 | an accepted node's key is its own address string and token id string joined by `-`; neither field is absent or null, so neither adds its rendered text (the strings may still read "undefined", see `AbsentTokenIdKey`) |
| `ExclusionKey.KeyInjective` | src/components/RecentlyListed.tsx:120 | when neither address contains `-`, equal keys mean equal address and equal token id |
| `ExclusionKey.ExclusionByPair` | src/components/RecentlyListed.tsx:110-121 | when neither the listing's address text nor any event's address text contains `-`, a listed node is excluded exactly when some event has the same address text and token id text |
| `ExclusionKey.KeyCollisionHidesListing` | src/components/RecentlyListed.tsx:110-121 | without that condition, a purchase of a different pair ("0xA", "1-2") hides the listing ("0xA-1", "2") |
| `ExclusionKey.BoughtListingRemoved` | src/components/RecentlyListed.tsx:102-128 | listings (0xA,1,10) and (0xB,2,20) with (0xA,1) bought give exactly one entry: (2, 0xB, 20) |
| `ExclusionKey.AbsentTokenIdKey` | src/components/RecentlyListed.tsx:114-121 | a cancel event with no token id has the key "0xA-undefined" and hides a listing whose token id is the text "undefined" |

## Left out

- Fetching the response (src/components/RecentlyListed.tsx:79-90) is an HTTP POST plus JSON parsing. The model takes the parsed response as its input.
- The GraphQL query text (src/components/RecentlyListed.tsx:46-73) is not modelled. The server applies its `first: 20` limit and its block-number and transaction-index ordering. The model takes the order of the listed nodes as given.
- `useQuery` and `useMemo` caching and the loading and error flags are framework behaviour. The model recomputes the result from the response each time.
- A response object whose inner `data` member is missing, as in a GraphQL error reply, makes the hook throw. The model takes a response of the declared shape.
- The rendering of the cards in `RecentlyListedNFTs` is UI and is not modelled.
- The page component (src/app/page.tsx) is not modelled. It consists of the wallet library's account hook, React state, the compliance HTTP request and the boolean `isApproved && success`.
- Field values other than absent, `null` or a string are not modelled, because the declared types are strings. For example, a JSON number is left out.
