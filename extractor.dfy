/** The highlighted-gift-id extractor (`getCurrentItemHighLightedGifts`): it
    reads the additional-info query of the selected product and collects,
    for the selected item, the gift SKU ids listed under the gifts key of
    every discount highlight of every seller. */
module Extractor {
  import opened Common
  import opened Text

  /** One `{ key, value }` entry of a discount highlight's additional info.
      A missing value behaves like the empty string: both are falsy. */
  datatype AdditionalInfo = AdditionalInfo(key: string, value: string)

  /** A discount highlight; a missing `additionalInfo` list, or a missing
      highlight, finds no entry and is the empty list here. */
  datatype DiscountHighlight = DiscountHighlight(additionalInfo: seq<AdditionalInfo>)

  /** A seller of the additional-info query. `discountHighlights` is `None`
      when the seller, its commercial offer or the list itself is missing. */
  datatype Seller = Seller(discountHighlights: Option<seq<DiscountHighlight>>)

  /** An item; missing `sellers` behaves like an empty list (`?? []`). */
  datatype Item = Item(itemId: string, sellers: seq<Seller>)

  datatype Product = Product(productId: string, items: seq<Item>)

  /** The additional-info query data; missing `products` is the empty list. */
  datatype Response = Response(products: seq<Product>)

  /** A JavaScript id that is neither `undefined` nor the empty string (truthy). */
  predicate Present(id: Option<string>) {
    id.Some? && id.value != ""
  }

  /** Every id is non-empty and has no whitespace at either end. */
  predicate CleanIds(ids: seq<string>) {
    forall id :: id in ids ==> id != "" && IsTrimmed(id)
  }

  // ---------------------------------------------------------------------
  // One highlight: find the keyed entry, split, trim, drop empties.
  // ---------------------------------------------------------------------

  /** What one comma-separated piece contributes: its trim, unless empty. */
  function KeptPiece(piece: string): (r: seq<string>)
    ensures CleanIds(r)
  {
    var t := Trim(piece);
    if t == "" then [] else [t]
  }

  /** `.map(id => id.trim()).filter(id => id)` over the pieces, in order. */
  function NonEmptyTrimmed(pieces: seq<string>): (r: seq<string>)
    ensures |r| <= |pieces|
    ensures CleanIds(r)
  {
    if pieces == [] then [] else KeptPiece(pieces[0]) + NonEmptyTrimmed(pieces[1..])
  }

  /** The ids kept are exactly the non-empty trims of the pieces. */
  lemma {:induction false} NonEmptyTrimmedMembers(pieces: seq<string>, id: string)
    ensures id in NonEmptyTrimmed(pieces) <==> id != "" && exists p :: p in pieces && Trim(p) == id
  {
    if pieces != [] {
      NonEmptyTrimmedMembers(pieces[1..], id);
      assert id in KeptPiece(pieces[0]) <==> id != "" && Trim(pieces[0]) == id;
      assert forall p :: p in pieces <==> p == pieces[0] || p in pieces[1..];
    }
  }

  /** The trim of every piece, empty ones included. */
  function Trims(pieces: seq<string>): (r: seq<string>)
    ensures |r| == |pieces|
    ensures forall k :: 0 <= k < |r| ==> r[k] == Trim(pieces[k])
  {
    if pieces == [] then [] else [Trim(pieces[0])] + Trims(pieces[1..])
  }

  /** When no piece trims to the empty string, every piece is kept,
      trimmed, in its place. */
  lemma {:induction false} NothingBlankNothingDropped(pieces: seq<string>, ids: seq<string>)
    requires |ids| == |pieces|
    requires forall k :: 0 <= k < |pieces| ==> Trim(pieces[k]) == ids[k] && ids[k] != ""
    ensures NonEmptyTrimmed(pieces) == ids
  {
    if pieces != [] {
      assert KeptPiece(pieces[0]) == [ids[0]] by {
        assert Trim(pieces[0]) == ids[0];
      }
      assert forall k :: 0 <= k < |pieces| - 1 ==> pieces[1..][k] == pieces[k + 1] && ids[1..][k] == ids[k + 1];
      NothingBlankNothingDropped(pieces[1..], ids[1..]);
      assert ids == [ids[0]] + ids[1..];
    }
  }

  /** No deduplication: every non-empty trimmed piece is kept as many times
      as it occurs, and the empty id never is. */
  lemma {:induction false} NonEmptyTrimmedKeepsOccurrences(pieces: seq<string>)
    ensures multiset(NonEmptyTrimmed(pieces))[""] == 0
    ensures forall id :: id != "" ==> multiset(NonEmptyTrimmed(pieces))[id] == multiset(Trims(pieces))[id]
  {
    if pieces != [] {
      NonEmptyTrimmedKeepsOccurrences(pieces[1..]);
      assert Trims(pieces) == [Trim(pieces[0])] + Trims(pieces[1..]);
      assert NonEmptyTrimmed(pieces) == KeptPiece(pieces[0]) + NonEmptyTrimmed(pieces[1..]);
    }
  }

  /** Order preservation: trimming and filtering distributes over concatenation. */
  lemma {:induction false} NonEmptyTrimmedAppend(a: seq<string>, b: seq<string>)
    ensures NonEmptyTrimmed(a + b) == NonEmptyTrimmed(a) + NonEmptyTrimmed(b)
  {
    if a == [] {
      assert a + b == b;
    } else {
      var kept := KeptPiece(a[0]);
      assert NonEmptyTrimmed(a + b) == kept + NonEmptyTrimmed(a[1..] + b) by {
        assert (a + b)[1..] == a[1..] + b;
        assert (a + b)[0] == a[0];
      }
      NonEmptyTrimmedAppend(a[1..], b);
      ConcatAssoc(kept, NonEmptyTrimmed(a[1..]), NonEmptyTrimmed(b));
    }
  }

  /** The ids a keyed value lists; an empty value lists none. */
  function ValueIds(value: string): (r: seq<string>)
    ensures CleanIds(r)
  {
    if value == "" then [] else NonEmptyTrimmed(SplitOnComma(value))
  }

  /** Each id of a value is the trim of one of its comma-separated fields,
      and each field that trims to a non-empty string gives an id. */
  lemma ValueIdsAreTrimmedFields(value: string, id: string)
    ensures id in ValueIds(value) <==> id != "" && exists p :: p in SplitOnComma(value) && Trim(p) == id
  {
    NonEmptyTrimmedMembers(SplitOnComma(value), id);
    if value == "" {
      assert SplitOnComma(value) == [""];
      assert Trim("") == "";
    }
  }

  /** The value of the first additional-info entry whose key is `giftsKey`. */
  function KeyedValue(h: DiscountHighlight, giftsKey: string): (r: Option<string>)
    ensures r.None? <==> forall j :: 0 <= j < |h.additionalInfo| ==> h.additionalInfo[j].key != giftsKey
  {
    match Find(h.additionalInfo, (info: AdditionalInfo) => info.key == giftsKey)
    case None => None
    case Some(info) => Some(info.value)
  }

  /** The ids one highlight contributes. */
  function HighlightIds(h: DiscountHighlight, giftsKey: string): (r: seq<string>)
    ensures CleanIds(r)
  {
    match KeyedValue(h, giftsKey)
    case None => []
    case Some(value) => ValueIds(value)
  }

  /** A highlight without the key contributes nothing; with it, only the first
      entry carrying the key is read, whatever entries follow. */
  lemma OnlyFirstKeyedEntryCounts(pre: seq<AdditionalInfo>, info: AdditionalInfo, post: seq<AdditionalInfo>, giftsKey: string)
    requires forall j :: 0 <= j < |pre| ==> pre[j].key != giftsKey
    requires info.key == giftsKey
    ensures HighlightIds(DiscountHighlight(pre + [info] + post), giftsKey) == ValueIds(info.value)
  {
    FindStopsAtFirstMatch(pre, info, post, (i: AdditionalInfo) => i.key == giftsKey);
  }

  /** A highlight contributes no id iff no entry carries the key, or every
      comma-separated field of the first keyed value is blank (an empty
      value is a single blank field). */
  lemma HighlightAddsNothingIffBlank(h: DiscountHighlight, giftsKey: string)
    ensures HighlightIds(h, giftsKey) == [] <==>
            KeyedValue(h, giftsKey).None? ||
            forall p :: p in SplitOnComma(KeyedValue(h, giftsKey).value) ==> Trim(p) == ""
  {
    if KeyedValue(h, giftsKey).Some? {
      var value := KeyedValue(h, giftsKey).value;
      if HighlightIds(h, giftsKey) == [] {
        forall p | p in SplitOnComma(value)
          ensures Trim(p) == ""
        {
          ValueIdsAreTrimmedFields(value, Trim(p));
        }
      } else {
        ValueIdsAreTrimmedFields(value, HighlightIds(h, giftsKey)[0]);
      }
    }
  }

  // ---------------------------------------------------------------------
  // Sellers and highlights: the nested loops.
  // ---------------------------------------------------------------------

  /** Concatenating lists of clean ids gives clean ids. */
  lemma FlattenClean<T>(xs: seq<T>, f: T -> seq<string>)
    requires forall x :: CleanIds(f(x))
    ensures CleanIds(Flatten(xs, f))
  {
    forall id | id in Flatten(xs, f)
      ensures id != "" && IsTrimmed(id)
    {
      FlattenMembers(xs, f, id);
    }
  }

  /** All ids of a list of highlights, in order. */
  function HighlightsIds(hs: seq<DiscountHighlight>, giftsKey: string): (r: seq<string>)
    ensures CleanIds(r)
  {
    var f := (h: DiscountHighlight) => HighlightIds(h, giftsKey);
    FlattenClean(hs, f);
    Flatten(hs, f)
  }

  /** The ids one seller contributes; none when its highlights are missing. */
  function SellerIds(seller: Seller, giftsKey: string): (r: seq<string>)
    ensures CleanIds(r)
  {
    match seller.discountHighlights
    case None => []
    case Some(hs) => HighlightsIds(hs, giftsKey)
  }

  /** The ids of a list of sellers, with a missing highlight list read as
      empty (the corrected reading, see `SellersIdsAsWritten`). */
  function SellersIds(sellers: seq<Seller>, giftsKey: string): (r: seq<string>)
    ensures CleanIds(r)
  {
    var f := (s: Seller) => SellerIds(s, giftsKey);
    FlattenClean(sellers, f);
    Flatten(sellers, f)
  }

  /** The ids of a list of sellers as the extractor is written: iterating a
      seller whose discount highlights are missing throws a `TypeError`;
      otherwise the ids are those of `SellersIds`. */
  function SellersIdsAsWritten(sellers: seq<Seller>, giftsKey: string): (r: Outcome<seq<string>>)
    ensures r.Throws? <==> exists i :: 0 <= i < |sellers| && sellers[i].discountHighlights.None?
    ensures r.Returns? ==> r.value == SellersIds(sellers, giftsKey)
  {
    if sellers == [] then Returns([])
    else
      var n := |sellers| - 1;
      assert forall i :: 0 <= i < n ==> sellers[..n][i] == sellers[i];
      match SellersIdsAsWritten(sellers[..n], giftsKey)
      case Throws => Throws
      case Returns(ids) =>
        match sellers[n].discountHighlights
        case None => Throws
        case Some(hs) => Returns(ids + HighlightsIds(hs, giftsKey))
  }

  /** Order is kept and nothing is merged: the ids of consecutive runs of
      sellers are concatenated. */
  lemma SellersIdsAppend(a: seq<Seller>, b: seq<Seller>, giftsKey: string)
    ensures SellersIds(a + b, giftsKey) == SellersIds(a, giftsKey) + SellersIds(b, giftsKey)
  {
    FlattenAppend(a, b, (s: Seller) => SellerIds(s, giftsKey));
  }

  /** No deduplication across highlights: their id count is the sum of the
      per-highlight counts. */
  lemma HighlightsIdsLength(hs: seq<DiscountHighlight>, giftsKey: string)
    ensures |HighlightsIds(hs, giftsKey)| == SumOfLengths(hs, (h: DiscountHighlight) => HighlightIds(h, giftsKey))
  {
    FlattenLength(hs, (h: DiscountHighlight) => HighlightIds(h, giftsKey));
  }

  /** Every id collected from sellers is clean, and comes from one highlight
      of one seller. */
  lemma {:induction false} SellersIdsMembers(sellers: seq<Seller>, giftsKey: string, id: string)
    ensures id in SellersIds(sellers, giftsKey) <==>
            exists i :: 0 <= i < |sellers| && sellers[i].discountHighlights.Some? &&
              exists j :: 0 <= j < |sellers[i].discountHighlights.value| &&
                id in HighlightIds(sellers[i].discountHighlights.value[j], giftsKey)
    ensures id in SellersIds(sellers, giftsKey) ==> id != "" && IsTrimmed(id)
  {
    FlattenMembers(sellers, (s: Seller) => SellerIds(s, giftsKey), id);
    forall i | 0 <= i < |sellers| && sellers[i].discountHighlights.Some?
      ensures id in SellerIds(sellers[i], giftsKey) <==>
              exists j :: 0 <= j < |sellers[i].discountHighlights.value| &&
                id in HighlightIds(sellers[i].discountHighlights.value[j], giftsKey)
    {
      FlattenMembers(sellers[i].discountHighlights.value, (h: DiscountHighlight) => HighlightIds(h, giftsKey), id);
    }
  }

  // ---------------------------------------------------------------------
  // The lookups and the whole extractor.
  // ---------------------------------------------------------------------

  /** The item the extractor reads: nothing unless the data, a product and
      both ids are there; then the first item with the selected id in the
      first product with the given id. */
  function SelectedItem(data: Option<Response>, productId: Option<string>, selectedItemId: Option<string>): (r: Option<Item>)
    ensures r.Some? ==> data.Some? && |data.value.products| > 0 && Present(productId) && Present(selectedItemId)
    ensures r.Some? ==> r.value.itemId == selectedItemId.value
  {
    if data.None? || |data.value.products| == 0 || !Present(productId) || !Present(selectedItemId) then None
    else
      match Find(data.value.products, (p: Product) => p.productId == productId.value)
      case None => None
      case Some(product) => Find(product.items, (it: Item) => it.itemId == selectedItemId.value)
  }

  /** Only the first product with the id is consulted, even when a later one
      with the same id has the item. */
  lemma FirstMatchingProductOnly(pre: seq<Product>, product: Product, post: seq<Product>, productId: string, selectedItemId: string)
    requires forall j :: 0 <= j < |pre| ==> pre[j].productId != productId
    requires product.productId == productId
    requires productId != "" && selectedItemId != ""
    ensures SelectedItem(Some(Response(pre + [product] + post)), Some(productId), Some(selectedItemId)) ==
            Find(product.items, (it: Item) => it.itemId == selectedItemId)
  {
    FindStopsAtFirstMatch(pre, product, post, (p: Product) => p.productId == productId);
  }

  /** A response holding one product with one item selects that item. */
  lemma SoleProductSoleItem(productId: string, item: Item)
    requires productId != "" && item.itemId != ""
    ensures SelectedItem(Some(Response([Product(productId, [item])])), Some(productId), Some(item.itemId)) == Some(item)
  {
    var product := Product(productId, [item]);
    FindStopsAtFirstMatch([], product, [], (p: Product) => p.productId == productId);
    FindStopsAtFirstMatch([], item, [], (it: Item) => it.itemId == item.itemId);
    assert [product] == [] + [product] + [];
    assert [item] == [] + [item] + [];
  }

  /** `getCurrentItemHighLightedGifts` as written; every id it returns is
      non-empty and has no whitespace at either end. */
  function HighlightedGiftsAsWritten(data: Option<Response>, productId: Option<string>, selectedItemId: Option<string>, giftsKey: string): (r: Outcome<seq<string>>)
    ensures r.Returns? ==> CleanIds(r.value)
  {
    match SelectedItem(data, productId, selectedItemId)
    case None => Returns([])
    case Some(item) => SellersIdsAsWritten(item.sellers, giftsKey)
  }

  /** `getCurrentItemHighLightedGifts` with a seller's missing discount
      highlights read as an empty list instead of a thrown `TypeError`;
      every id it returns is non-empty and has no whitespace at either end. */
  function HighlightedGifts(data: Option<Response>, productId: Option<string>, selectedItemId: Option<string>, giftsKey: string): (r: seq<string>)
    ensures CleanIds(r)
  {
    match SelectedItem(data, productId, selectedItemId)
    case None => []
    case Some(item) => SellersIds(item.sellers, giftsKey)
  }

  /** The guard: missing data, no products, or a missing or empty id yields no ids. */
  lemma NoIdsWithoutInputs(data: Option<Response>, productId: Option<string>, selectedItemId: Option<string>, giftsKey: string)
    requires data.None? || |data.value.products| == 0 || !Present(productId) || !Present(selectedItemId)
    ensures HighlightedGiftsAsWritten(data, productId, selectedItemId, giftsKey) == Returns([])
    ensures HighlightedGifts(data, productId, selectedItemId, giftsKey) == []
  {
  }

  /** A lookup miss is not an error: without a product carrying the id, or
      without the item in the first such product, there are no ids. */
  lemma NoIdsOnLookupMiss(products: seq<Product>, i: nat, productId: string, selectedItemId: string, giftsKey: string)
    requires forall j :: 0 <= j < i && j < |products| ==> products[j].productId != productId
    requires i < |products| ==> products[i].productId == productId &&
                                forall k :: 0 <= k < |products[i].items| ==> products[i].items[k].itemId != selectedItemId
    ensures HighlightedGiftsAsWritten(Some(Response(products)), Some(productId), Some(selectedItemId), giftsKey) == Returns([])
  {
    if i < |products| {
      assert products == products[..i] + [products[i]] + products[i + 1..];
      FindStopsAtFirstMatch(products[..i], products[i], products[i + 1..], (p: Product) => p.productId == productId);
    }
  }

  /** One more highlight adds its own ids at the end. */
  lemma HighlightsIdsPrefix(hs: seq<DiscountHighlight>, j: nat, giftsKey: string)
    requires j < |hs|
    ensures HighlightsIds(hs[..j + 1], giftsKey) == HighlightsIds(hs[..j], giftsKey) + HighlightIds(hs[j], giftsKey)
  {
    assert hs[..j + 1][..j] == hs[..j];
  }

  /** One more seller with highlights adds their ids at the end. */
  lemma SellersIdsAsWrittenPrefix(sellers: seq<Seller>, i: nat, giftsKey: string)
    requires i < |sellers| && sellers[i].discountHighlights.Some?
    requires SellersIdsAsWritten(sellers[..i], giftsKey).Returns?
    ensures SellersIdsAsWritten(sellers[..i + 1], giftsKey) ==
            Returns(SellersIdsAsWritten(sellers[..i], giftsKey).value + HighlightsIds(sellers[i].discountHighlights.value, giftsKey))
  {
    assert sellers[..i + 1][..i] == sellers[..i];
    assert sellers[..i + 1][i] == sellers[i];
  }

  /** The extractor as written, with the nested seller and highlight loops
      that grow the accumulated id list. */
  method GetCurrentItemHighlightedGifts(data: Option<Response>, productId: Option<string>, selectedItemId: Option<string>, giftsKey: string)
    returns (r: Outcome<seq<string>>)
    ensures r == HighlightedGiftsAsWritten(data, productId, selectedItemId, giftsKey)
  {
    var item := SelectedItem(data, productId, selectedItemId);
    if item.None? {
      return Returns([]);
    }
    var sellers := item.value.sellers;
    var ids: seq<string> := [];
    var i := 0;
    while i < |sellers|
      invariant 0 <= i <= |sellers|
      invariant SellersIdsAsWritten(sellers[..i], giftsKey) == Returns(ids)
    {
      var highlights := sellers[i].discountHighlights;
      if highlights.None? {
        return Throws;
      }
      var hs := highlights.value;
      ghost var before := ids;
      var j := 0;
      while j < |hs|
        invariant 0 <= j <= |hs|
        invariant ids == before + HighlightsIds(hs[..j], giftsKey)
      {
        HighlightsIdsPrefix(hs, j, giftsKey);
        ConcatAssoc(before, HighlightsIds(hs[..j], giftsKey), HighlightIds(hs[j], giftsKey));
        ids := ids + HighlightIds(hs[j], giftsKey);
        j := j + 1;
      }
      assert hs[..j] == hs;
      SellersIdsAsWrittenPrefix(sellers, i, giftsKey);
      i := i + 1;
    }
    assert sellers[..i] == sellers;
    return Returns(ids);
  }

  /** The code as written and the corrected reading agree, except that the
      former throws exactly when a seller of the selected item lacks its
      discount highlights. */
  lemma AsWrittenThrowsOnlyOnMissingHighlights(data: Option<Response>, productId: Option<string>, selectedItemId: Option<string>, giftsKey: string)
    ensures HighlightedGiftsAsWritten(data, productId, selectedItemId, giftsKey).Throws? <==>
            SelectedItem(data, productId, selectedItemId).Some? &&
            exists i :: 0 <= i < |SelectedItem(data, productId, selectedItemId).value.sellers| &&
                        SelectedItem(data, productId, selectedItemId).value.sellers[i].discountHighlights.None?
    ensures HighlightedGiftsAsWritten(data, productId, selectedItemId, giftsKey).Returns? ==>
            HighlightedGiftsAsWritten(data, productId, selectedItemId, giftsKey).value == HighlightedGifts(data, productId, selectedItemId, giftsKey)
  {
  }

  /** The input that exposes the discrepancy: the selected item has one
      seller whose discount highlights are missing. */
  lemma MissingHighlightsThrow(giftsKey: string)
    ensures HighlightedGiftsAsWritten(Some(Response([Product("P1", [Item("I1", [Seller(None)])])])),
                                      Some("P1"), Some("I1"), giftsKey) == Throws
    ensures HighlightedGifts(Some(Response([Product("P1", [Item("I1", [Seller(None)])])])),
                             Some("P1"), Some("I1"), giftsKey) == []
  {
    var item := Item("I1", [Seller(None)]);
    SoleProductSoleItem("P1", item);
    assert SellersIdsAsWritten(item.sellers, giftsKey) == Throws by {
      assert item.sellers[0].discountHighlights.None?;
    }
    FlattenOne(Seller(None), (s: Seller) => SellerIds(s, giftsKey));
  }
}
