/** The product-gifts component's own decisions: which ids and gifts it
    computes for the product context, the state snapshot it hands to its
    children, and when it renders nothing. */
module ProductGifts {
  import opened Common
  import Extractor
  import Reconciler
  import Text

  /** `number | 'showAll'`. */
  datatype MaxVisibleItems = Count(n: int) | ShowAll

  /** The `maxVisibleItems` prop: one value, or one value per breakpoint. */
  datatype MaxVisibleItemsInput = Fixed(value: MaxVisibleItems) | PerBreakpoint(values: map<string, MaxVisibleItems>)

  /** The snapshot shared with the children. */
  datatype State = State(gifts: seq<Reconciler.Gift>, maxVisibleItems: MaxVisibleItems)

  /** What the product context supplies: `product?.productId` and `selectedItem?.itemId`. */
  datatype ProductContext = ProductContext(productId: Option<string>, selectedItemId: Option<string>)

  /** The `{ data, loading, error }` triple of a query. */
  datatype QueryResult<T> = QueryResult(data: Option<T>, loading: bool, error: bool)

  /** `null`, or the state provider wrapping the children. */
  datatype Rendered = Nothing | GiftsProvider(state: State)

  function ProductIdOf(context: Option<ProductContext>): Option<string> {
    if context.Some? then context.value.productId else None
  }

  function SelectedItemIdOf(context: Option<ProductContext>): Option<string> {
    if context.Some? then context.value.selectedItemId else None
  }

  /** The prop with its default: `'showAll'` when it is not given. */
  function MaxVisibleItemsProp(configured: Option<MaxVisibleItemsInput>): MaxVisibleItemsInput
  {
    match configured
    case None => Fixed(ShowAll)
    case Some(input) => input
  }

  /** `getCurrentItemHighLightedGifts` as the component calls it, on every
      render: it throws when a seller of the selected item lacks its
      discount highlights. */
  function HighlightedIds(context: Option<ProductContext>, additionalInfo: QueryResult<Extractor.Response>, giftsKey: string): (r: Outcome<seq<string>>)
    ensures r.Returns? ==> Extractor.CleanIds(r.value)
    ensures !Extractor.Present(ProductIdOf(context)) ==> r == Returns([])
  {
    Extractor.HighlightedGiftsAsWritten(additionalInfo.data, ProductIdOf(context), SelectedItemIdOf(context), giftsKey)
  }

  /** The sellers of the selected item in the primary query. */
  function Sellers(context: Option<ProductContext>, primary: QueryResult<Reconciler.Response>): seq<Reconciler.Seller>
  {
    Reconciler.SelectedSellers(primary.data, SelectedItemIdOf(context))
  }

  /** Some seller of the selected item holds a gift at a position whose SKU
      id is highlighted. */
  predicate SomeGiftHighlighted(sellers: seq<Reconciler.Seller>, highlighted: seq<string>) {
    exists k, i :: 0 <= k < |sellers| && 0 <= i < |sellers[k].gifts| &&
                   Reconciler.IsHighlightedAt(sellers[k].giftSkuIds, i, highlighted)
  }

  /** What the component renders once the highlighted ids are known: `null`
      while a query is loading or when no gift is left, and otherwise the
      state provider with the snapshot. `resolve` stands for the
      responsive-value resolution of the prop for the current screen size. */
  function Snapshot(context: Option<ProductContext>, primary: QueryResult<Reconciler.Response>, additionalInfoLoading: bool,
                    highlighted: seq<string>, maxVisibleItems: Option<MaxVisibleItemsInput>,
                    resolve: MaxVisibleItemsInput -> MaxVisibleItems): Rendered
  {
    var state := State(Reconciler.SelectedGifts(primary.data, SelectedItemIdOf(context), highlighted),
                       resolve(MaxVisibleItemsProp(maxVisibleItems)));
    if primary.loading || additionalInfoLoading || |state.gifts| == 0 then Nothing
    else GiftsProvider(state)
  }

  /** What the component does as written: it throws when the extractor
      throws, and otherwise renders the snapshot. */
  function Render(context: Option<ProductContext>, primary: QueryResult<Reconciler.Response>,
                  additionalInfo: QueryResult<Extractor.Response>, maxVisibleItems: Option<MaxVisibleItemsInput>,
                  resolve: MaxVisibleItemsInput -> MaxVisibleItems, giftsKey: string): Outcome<Rendered>
  {
    match HighlightedIds(context, additionalInfo, giftsKey)
    case Throws => Throws
    case Returns(highlighted) => Returns(Snapshot(context, primary, additionalInfo.loading, highlighted, maxVisibleItems, resolve))
  }

  /** The component on the corrected extractor, which reads a seller's
      missing discount highlights as an empty list. */
  function RenderCorrected(context: Option<ProductContext>, primary: QueryResult<Reconciler.Response>,
                           additionalInfo: QueryResult<Extractor.Response>, maxVisibleItems: Option<MaxVisibleItemsInput>,
                           resolve: MaxVisibleItemsInput -> MaxVisibleItems, giftsKey: string): Rendered
  {
    var highlighted := Extractor.HighlightedGifts(additionalInfo.data, ProductIdOf(context), SelectedItemIdOf(context), giftsKey);
    Snapshot(context, primary, additionalInfo.loading, highlighted, maxVisibleItems, resolve)
  }

  /** Whenever the component as written does not throw, it renders what the
      corrected component renders; it throws only on a missing highlight list. */
  lemma RenderAgreesWithCorrected(context: Option<ProductContext>, primary: QueryResult<Reconciler.Response>,
                                  additionalInfo: QueryResult<Extractor.Response>, maxVisibleItems: Option<MaxVisibleItemsInput>,
                                  resolve: MaxVisibleItemsInput -> MaxVisibleItems, giftsKey: string)
    ensures Render(context, primary, additionalInfo, maxVisibleItems, resolve, giftsKey).Returns? ==>
            Render(context, primary, additionalInfo, maxVisibleItems, resolve, giftsKey).value ==
            RenderCorrected(context, primary, additionalInfo, maxVisibleItems, resolve, giftsKey)
  {
    Extractor.AsWrittenThrowsOnlyOnMissingHighlights(additionalInfo.data, ProductIdOf(context), SelectedItemIdOf(context), giftsKey);
  }

  /** The component throws exactly when the selected item of the
      additional-info query has a seller without discount highlights, even
      while loading. Otherwise nothing is rendered iff a query is loading or
      no seller holds a gift at a highlighted position; a rendered snapshot
      carries the resolved cap, `'showAll'` when the prop is not given. */
  lemma RenderDecision(context: Option<ProductContext>, primary: QueryResult<Reconciler.Response>,
                       additionalInfo: QueryResult<Extractor.Response>, maxVisibleItems: Option<MaxVisibleItemsInput>,
                       resolve: MaxVisibleItemsInput -> MaxVisibleItems, giftsKey: string)
    ensures var item := Extractor.SelectedItem(additionalInfo.data, ProductIdOf(context), SelectedItemIdOf(context));
            Render(context, primary, additionalInfo, maxVisibleItems, resolve, giftsKey).Throws? <==>
            item.Some? && exists k :: 0 <= k < |item.value.sellers| && item.value.sellers[k].discountHighlights.None?
    ensures Render(context, primary, additionalInfo, maxVisibleItems, resolve, giftsKey).Returns? ==>
            (Render(context, primary, additionalInfo, maxVisibleItems, resolve, giftsKey).value.Nothing? <==>
             primary.loading || additionalInfo.loading ||
             !SomeGiftHighlighted(Sellers(context, primary), HighlightedIds(context, additionalInfo, giftsKey).value))
    ensures Render(context, primary, additionalInfo, maxVisibleItems, resolve, giftsKey).Returns? &&
            Render(context, primary, additionalInfo, maxVisibleItems, resolve, giftsKey).value.GiftsProvider? ==>
            Render(context, primary, additionalInfo, maxVisibleItems, resolve, giftsKey).value.state.maxVisibleItems ==
            resolve(if maxVisibleItems.None? then Fixed(ShowAll) else maxVisibleItems.value)
  {
    Extractor.AsWrittenThrowsOnlyOnMissingHighlights(additionalInfo.data, ProductIdOf(context), SelectedItemIdOf(context), giftsKey);
    var ids := HighlightedIds(context, additionalInfo, giftsKey);
    if ids.Returns? {
      var sellers := Sellers(context, primary);
      var gifts := Reconciler.ReconcileGifts(sellers, ids.value);
      if gifts != [] {
        Reconciler.ReconcileMembers(sellers, ids.value, gifts[0]);
      }
      if SomeGiftHighlighted(sellers, ids.value) {
        var k, i :| 0 <= k < |sellers| && 0 <= i < |sellers[k].gifts| &&
                    Reconciler.IsHighlightedAt(sellers[k].giftSkuIds, i, ids.value);
        Reconciler.ReconcileMembers(sellers, ids.value, sellers[k].gifts[i]);
      }
    }
  }

  /** A query error is only logged: with the same data and loading flags,
      the component does the same thing whatever the error flags say. */
  lemma ErrorsDoNotSuppress(context: Option<ProductContext>, primary: QueryResult<Reconciler.Response>,
                            additionalInfo: QueryResult<Extractor.Response>, maxVisibleItems: Option<MaxVisibleItemsInput>,
                            resolve: MaxVisibleItemsInput -> MaxVisibleItems, giftsKey: string, primaryError: bool, additionalInfoError: bool)
    ensures Render(context, primary.(error := primaryError), additionalInfo.(error := additionalInfoError),
                   maxVisibleItems, resolve, giftsKey) ==
            Render(context, primary, additionalInfo, maxVisibleItems, resolve, giftsKey)
  {
  }

  /** Without a product id the extractor returns no ids before it reaches
      any seller, hence there are no gifts and nothing is rendered, whatever
      the primary query returned. */
  lemma NoProductIdRendersNothing(context: Option<ProductContext>, primary: QueryResult<Reconciler.Response>,
                                  additionalInfo: QueryResult<Extractor.Response>, maxVisibleItems: Option<MaxVisibleItemsInput>,
                                  resolve: MaxVisibleItemsInput -> MaxVisibleItems, giftsKey: string)
    requires !Extractor.Present(ProductIdOf(context))
    ensures Render(context, primary, additionalInfo, maxVisibleItems, resolve, giftsKey) == Returns(Nothing)
  {
    Reconciler.NoHighlightsNoGifts(Sellers(context, primary));
  }

  /** Outside a product context the component renders nothing rather than failing. */
  lemma MissingContextRendersNothing(primary: QueryResult<Reconciler.Response>,
                                     additionalInfo: QueryResult<Extractor.Response>, maxVisibleItems: Option<MaxVisibleItemsInput>,
                                     resolve: MaxVisibleItemsInput -> MaxVisibleItems, giftsKey: string)
    ensures Render(None, primary, additionalInfo, maxVisibleItems, resolve, giftsKey) == Returns(Nothing)
  {
    NoProductIdRendersNothing(None, primary, additionalInfo, maxVisibleItems, resolve, giftsKey);
  }

  /** End to end: a rendered snapshot holds a gift iff some seller of the
      selected item holds it at a position whose SKU id was extracted; each
      such id is non-empty and trimmed. */
  lemma ShownGiftsAreHighlighted(context: Option<ProductContext>, primary: QueryResult<Reconciler.Response>,
                                 additionalInfo: QueryResult<Extractor.Response>, maxVisibleItems: Option<MaxVisibleItemsInput>,
                                 resolve: MaxVisibleItemsInput -> MaxVisibleItems, giftsKey: string, g: Reconciler.Gift)
    ensures Render(context, primary, additionalInfo, maxVisibleItems, resolve, giftsKey).Returns? &&
            Render(context, primary, additionalInfo, maxVisibleItems, resolve, giftsKey).value.GiftsProvider? ==>
            (g in Render(context, primary, additionalInfo, maxVisibleItems, resolve, giftsKey).value.state.gifts <==>
             exists k, i :: 0 <= k < |Sellers(context, primary)| && 0 <= i < |Sellers(context, primary)[k].gifts| &&
               Sellers(context, primary)[k].gifts[i] == g &&
               Reconciler.IsHighlightedAt(Sellers(context, primary)[k].giftSkuIds, i, HighlightedIds(context, additionalInfo, giftsKey).value))
    ensures HighlightedIds(context, additionalInfo, giftsKey).Returns? ==>
            forall id :: id in HighlightedIds(context, additionalInfo, giftsKey).value ==> id != "" && Text.IsTrimmed(id)
  {
    var ids := HighlightedIds(context, additionalInfo, giftsKey);
    if ids.Returns? {
      Reconciler.ReconcileMembers(Sellers(context, primary), ids.value, g);
    }
  }
}
