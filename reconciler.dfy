/** The gift reconciler of the product-gifts component: it takes the sellers
    of the selected item from the primary product query and keeps, seller by
    seller, the gifts whose positional SKU id is among the highlighted ids. */
module Reconciler {
  import opened Common

  datatype GiftImage = GiftImage(imageUrl: string, imageLabel: string, imageText: string)

  /** A gift record; it carries no SKU id of its own. */
  datatype Gift = Gift(productName: string, brand: string, linkText: string, description: string,
                       skuName: string, images: seq<GiftImage>)

  /** A seller of the primary query: `giftSkuIds[i]` is meant to be the SKU
      id of `gifts[i]`, but nothing checks that the lists line up or have the
      same length. A missing list is the empty list: `giftSkuIds ?? []`, and
      a missing `gifts` fails the `?.length` test like an empty one. */
  datatype Seller = Seller(giftSkuIds: seq<string>, gifts: seq<Gift>)

  /** An item of the primary query; missing `sellers` is the empty list. */
  datatype Item = Item(itemId: string, sellers: seq<Seller>)

  /** The primary query data: the items of `data.product`. */
  datatype Response = Response(items: seq<Item>)

  /** The sellers of the first item whose id is the selected one; none when
      the data is missing or no item matches (an absent selected id matches
      no item, since `itemId === undefined` never holds). */
  function SelectedSellers(data: Option<Response>, selectedItemId: Option<string>): (r: seq<Seller>)
    ensures data.None? || selectedItemId.None? ==> r == []
    ensures data.Some? && (forall j :: 0 <= j < |data.value.items| ==> Some(data.value.items[j].itemId) != selectedItemId) ==> r == []
    ensures r != [] ==> exists i :: 0 <= i < |data.value.items| && r == data.value.items[i].sellers &&
                                    Some(data.value.items[i].itemId) == selectedItemId &&
                                    forall j :: 0 <= j < i ==> Some(data.value.items[j].itemId) != selectedItemId
    ensures data.Some? ==> forall i :: 0 <= i < |data.value.items| && Some(data.value.items[i].itemId) == selectedItemId &&
                                       (forall j :: 0 <= j < i ==> Some(data.value.items[j].itemId) != selectedItemId) ==>
                                       r == data.value.items[i].sellers
  {
    if data.None? then []
    else
      match Find(data.value.items, (it: Item) => Some(it.itemId) == selectedItemId)
      case None => []
      case Some(item) => item.sellers
  }

  /** `highlighted.includes(giftSkuIds[i])`: position `i` has an id and it is
      highlighted; past the end of `giftSkuIds` the id is `undefined`, which
      no list of strings includes. */
  predicate IsHighlightedAt(giftSkuIds: seq<string>, i: nat, highlighted: seq<string>) {
    i < |giftSkuIds| && giftSkuIds[i] in highlighted
  }

  /** `gifts.filter((_gift, index) => highlighted.includes(giftSkuIds[index]))`. */
  function FilterByPosition(gifts: seq<Gift>, giftSkuIds: seq<string>, highlighted: seq<string>): (r: seq<Gift>)
    ensures |r| <= |gifts|
  {
    if gifts == [] then []
    else
      var n := |gifts| - 1;
      FilterByPosition(gifts[..n], giftSkuIds, highlighted) +
        if IsHighlightedAt(giftSkuIds, n, highlighted) then [gifts[n]] else []
  }

  /** The positions below `n` that the filter keeps, in increasing order. */
  function KeptPositions(n: nat, giftSkuIds: seq<string>, highlighted: seq<string>): (r: seq<nat>)
    ensures forall k :: 0 <= k < |r| ==> r[k] < n && IsHighlightedAt(giftSkuIds, r[k], highlighted)
    ensures forall k, l :: 0 <= k < l < |r| ==> r[k] < r[l]
    ensures forall i :: 0 <= i < n && IsHighlightedAt(giftSkuIds, i, highlighted) ==> i in r
  {
    if n == 0 then []
    else KeptPositions(n - 1, giftSkuIds, highlighted) +
           if IsHighlightedAt(giftSkuIds, n - 1, highlighted) then [n - 1] else []
  }

  /** The filter keeps exactly the gifts at the kept positions, in their
      original order: gift `i` is kept iff `i < |giftSkuIds|` and
      `giftSkuIds[i]` is highlighted, and ids past the last gift are never read. */
  lemma {:induction false} FilterByPositionKeepsPositions(gifts: seq<Gift>, giftSkuIds: seq<string>, highlighted: seq<string>)
    ensures |FilterByPosition(gifts, giftSkuIds, highlighted)| == |KeptPositions(|gifts|, giftSkuIds, highlighted)|
    ensures forall k :: 0 <= k < |KeptPositions(|gifts|, giftSkuIds, highlighted)| ==>
              KeptPositions(|gifts|, giftSkuIds, highlighted)[k] < |gifts| &&
              FilterByPosition(gifts, giftSkuIds, highlighted)[k] == gifts[KeptPositions(|gifts|, giftSkuIds, highlighted)[k]]
  {
    if gifts != [] {
      var n := |gifts| - 1;
      FilterByPositionKeepsPositions(gifts[..n], giftSkuIds, highlighted);
      assert forall i :: 0 <= i < n ==> gifts[..n][i] == gifts[i];
    }
  }

  /** A gift is kept iff some position holding it is highlighted. */
  lemma {:induction false} FilterByPositionMembers(gifts: seq<Gift>, giftSkuIds: seq<string>, highlighted: seq<string>, g: Gift)
    ensures g in FilterByPosition(gifts, giftSkuIds, highlighted) <==>
            exists i :: 0 <= i < |gifts| && gifts[i] == g && IsHighlightedAt(giftSkuIds, i, highlighted)
  {
    if gifts != [] {
      var n := |gifts| - 1;
      FilterByPositionMembers(gifts[..n], giftSkuIds, highlighted, g);
      if exists i :: 0 <= i < |gifts| && gifts[i] == g && IsHighlightedAt(giftSkuIds, i, highlighted) {
        var i :| 0 <= i < |gifts| && gifts[i] == g && IsHighlightedAt(giftSkuIds, i, highlighted);
        if i < n {
          assert gifts[..n][i] == g;
        }
      }
    }
  }

  /** Ids beyond the number of gifts make no difference. */
  lemma {:induction false} ExtraIdsIgnored(gifts: seq<Gift>, giftSkuIds: seq<string>, extra: seq<string>, highlighted: seq<string>)
    requires |giftSkuIds| >= |gifts|
    ensures FilterByPosition(gifts, giftSkuIds + extra, highlighted) == FilterByPosition(gifts, giftSkuIds, highlighted)
  {
    if gifts != [] {
      var n := |gifts| - 1;
      ExtraIdsIgnored(gifts[..n], giftSkuIds, extra, highlighted);
      assert (giftSkuIds + extra)[n] == giftSkuIds[n];
    }
  }

  /** With nothing highlighted, no gift is kept. */
  lemma {:induction false} NothingHighlightedNothingKept(gifts: seq<Gift>, giftSkuIds: seq<string>)
    ensures FilterByPosition(gifts, giftSkuIds, []) == []
  {
    if gifts != [] {
      NothingHighlightedNothingKept(gifts[..|gifts| - 1], giftSkuIds);
    }
  }

  /** What one seller contributes: its filtered gifts, when there are both
      highlighted ids and gifts; nothing otherwise. */
  function SellerGifts(seller: Seller, highlighted: seq<string>): (r: seq<Gift>)
    ensures |r| <= |seller.gifts|
  {
    if |highlighted| > 0 && |seller.gifts| > 0 then FilterByPosition(seller.gifts, seller.giftSkuIds, highlighted)
    else []
  }

  /** The emptiness test before the filter changes nothing: the filter alone
      already yields nothing without highlighted ids or gifts. */
  lemma SellerGuardIsRedundant(seller: Seller, highlighted: seq<string>)
    ensures SellerGifts(seller, highlighted) == FilterByPosition(seller.gifts, seller.giftSkuIds, highlighted)
  {
    if highlighted == [] {
      NothingHighlightedNothingKept(seller.gifts, seller.giftSkuIds);
    }
  }

  /** `sellers.reduce((acc, curr) => acc.concat(<curr's gifts>), [])`. */
  function ReconcileGifts(sellers: seq<Seller>, highlighted: seq<string>): seq<Gift>
  {
    Flatten(sellers, (s: Seller) => SellerGifts(s, highlighted))
  }

  /** No highlighted ids, no gifts, whatever the sellers hold. */
  lemma NoHighlightsNoGifts(sellers: seq<Seller>)
    ensures ReconcileGifts(sellers, []) == []
  {
    var f := (s: Seller) => SellerGifts(s, []);
    if ReconcileGifts(sellers, []) != [] {
      FlattenMembers(sellers, f, ReconcileGifts(sellers, [])[0]);
      assert false;
    }
  }

  /** Seller order is kept: reconciling two runs of sellers concatenates
      their results, so the whole is each seller's list in turn. */
  lemma ReconcileAppend(a: seq<Seller>, b: seq<Seller>, highlighted: seq<string>)
    ensures ReconcileGifts(a + b, highlighted) == ReconcileGifts(a, highlighted) + ReconcileGifts(b, highlighted)
  {
    FlattenAppend(a, b, (s: Seller) => SellerGifts(s, highlighted));
  }

  /** The number of gifts of all sellers together. */
  function TotalGifts(sellers: seq<Seller>): nat
  {
    SumOfLengths(sellers, (s: Seller) => s.gifts)
  }

  /** The result is never longer than all gifts together. */
  lemma ReconcileBounded(sellers: seq<Seller>, highlighted: seq<string>)
    ensures |ReconcileGifts(sellers, highlighted)| <= TotalGifts(sellers)
  {
    var f := (s: Seller) => SellerGifts(s, highlighted);
    FlattenLength(sellers, f);
    SumOfLengthsMonotone(sellers, f, (s: Seller) => s.gifts);
  }

  /** A gift is in the result iff some seller holds it at a position whose
      id is highlighted. */
  lemma ReconcileMembers(sellers: seq<Seller>, highlighted: seq<string>, g: Gift)
    ensures g in ReconcileGifts(sellers, highlighted) <==>
            exists k, i :: 0 <= k < |sellers| && 0 <= i < |sellers[k].gifts| && sellers[k].gifts[i] == g &&
                           IsHighlightedAt(sellers[k].giftSkuIds, i, highlighted)
  {
    FlattenMembers(sellers, (s: Seller) => SellerGifts(s, highlighted), g);
    forall k | 0 <= k < |sellers|
      ensures g in SellerGifts(sellers[k], highlighted) <==>
              exists i :: 0 <= i < |sellers[k].gifts| && sellers[k].gifts[i] == g &&
                          IsHighlightedAt(sellers[k].giftSkuIds, i, highlighted)
    {
      SellerGuardIsRedundant(sellers[k], highlighted);
      FilterByPositionMembers(sellers[k].gifts, sellers[k].giftSkuIds, highlighted, g);
    }
  }

  /** The gifts list of the component: the selected item's sellers, reconciled. */
  function SelectedGifts(data: Option<Response>, selectedItemId: Option<string>, highlighted: seq<string>): seq<Gift>
  {
    ReconcileGifts(SelectedSellers(data, selectedItemId), highlighted)
  }

  /** Without the primary data, or without an item matching the selected id,
      there are no gifts. */
  lemma NoSelectedItemNoGifts(data: Option<Response>, selectedItemId: Option<string>, highlighted: seq<string>)
    requires data.None? || forall j :: 0 <= j < |data.value.items| ==> Some(data.value.items[j].itemId) != selectedItemId
    ensures SelectedGifts(data, selectedItemId, highlighted) == []
  {
  }
}
