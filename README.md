# Product gifts: a verified model of the gift-matching pipeline

The product-gifts storefront component shows the gifts offered with the SKU
selected on a product page. It turns two product-query results into the list
of gift records to show, in three stages:

- **Extractor** (`getCurrentItemHighLightedGifts`): it reads the
  additional-info query. It finds the first product with the page's product
  id, then the first item with the selected SKU id. It walks every seller and
  every discount highlight of that item. In each highlight it takes the first
  additional-info entry carrying the gifts key, splits its value on `','`,
  trims each piece and drops the empty ones.
- **Reconciler**: it reads the primary product query. It finds the first item
  with the selected SKU id. For each of that item's sellers it keeps the gift
  at position `i` iff `giftSkuIds[i]` is among the extracted ids, and then it
  concatenates the sellers' results.
- **Render decision**: it builds the `{ gifts, maxVisibleItems }` snapshot.
  It renders nothing while a query is loading or when no gift is left.

The project is organised in these modules:

- `common.dfy` (`Common`): `Option`, `Outcome` (returns or throws), the
  first-match search behind JavaScript's `Array.prototype.find`, and `Flatten`,
  the left fold that concatenates per-element lists (`reduce` with `concat`,
  or a loop that appends).
- `text.dfy` (`Text`): `String.prototype.split(',')` and
  `String.prototype.trim()`, with the ECMAScript whitespace and
  line-terminator characters written out.
- `extractor.dfy` (`Extractor`): the extractor. The imperative method
  `GetCurrentItemHighlightedGifts` keeps the source's nested loops and is
  proved equal to the recursive specification `HighlightedGiftsAsWritten`.
- `reconciler.dfy` (`Reconciler`): the positional gift filter and the fold
  over sellers.
- `product_gifts.dfy` (`ProductGifts`): the component's decisions on top of
  both stages.
- `scenarios.dfy` (`Scenarios`): worked inputs with their exact outputs.

The gifts key `GIFTS_ADDITIONALINFO_KEY` is a parameter `giftsKey`
throughout, because `./constants` is not part of this model.

Absent optional fields whose JavaScript behaviour is that of an empty list
are modelled as empty sequences:

- `?? []`;
- an optional `find` on `undefined`;
- a falsy `?.length`.

A missing additional-info `value` is the empty string, since both are falsy.

Some absences make the code throw. One of them is modelled, together with
the throw: a seller of the additional-info query without
`commertialOffer.discountHighlights`. It is kept as an `Option`, and the
component as written (`ProductGifts.Render`) returns an `Outcome` that is
`Throws` in that case. The other absences that would throw are excluded by
the declared record types; "## Left out" lists them.

## Model

| member | source | states |
|---|---|---|
| Common.Find | react/utils/functions.ts:12-14 | `find` yields nothing iff no element matches, and otherwise the element at the first matching index |
| Common.FindStopsAtFirstMatch | react/utils/functions.ts:21-23 | elements after the first match are never consulted |
| Text.Trim | react/utils/functions.ts:27 | `trim()` leaves a string whose first and last characters are not whitespace, no longer than its input |
| Text.TrimIsInfix | react/utils/functions.ts:27 | the trim is an infix of the piece with only whitespace before and after it |
| Text.TrimTrimmed | react/utils/functions.ts:27 | trimming a string without whitespace at its ends leaves it unchanged |
| Text.SplitOnComma | react/utils/functions.ts:26 | `split(',')` yields at least one piece, no piece contains a comma, and the pieces joined with `','` give back the value |
| Text.SplitJoin | react/utils/functions.ts:26 | splitting the comma-join of one or more comma-free pieces gives back exactly those pieces |
| Extractor.NonEmptyTrimmed | react/utils/functions.ts:27-28 | the trim-and-filter chain never lengthens the list, and every id it keeps is non-empty and trimmed |
| Extractor.NonEmptyTrimmedMembers | react/utils/functions.ts:25-28 | an id is kept iff it is non-empty and is the trim of one of the pieces |
| Extractor.NonEmptyTrimmedKeepsOccurrences | react/utils/functions.ts:25-29 | no deduplication: each non-empty trimmed piece is kept once per occurrence, and the empty id never |
| Extractor.NothingBlankNothingDropped | react/utils/functions.ts:27-28 | when no piece trims to blank, the result is every piece trimmed, in place |
| Extractor.NonEmptyTrimmedAppend | react/utils/functions.ts:25-29 | trim-and-filter keeps the order of the pieces: it distributes over concatenation |
| Extractor.ValueIds | react/utils/functions.ts:24-28 | every id a keyed value lists is non-empty and trimmed |
| Extractor.ValueIdsAreTrimmedFields | react/utils/functions.ts:24-28 | an id comes from a keyed value iff it is non-empty and the trim of one of its comma-separated fields |
| Extractor.KeyedValue | react/utils/functions.ts:21-23 | the keyed lookup fails iff no additional-info entry carries the gifts key |
| Extractor.HighlightIds | react/utils/functions.ts:21-29 | the ids of one highlight are all non-empty and trimmed |
| Extractor.OnlyFirstKeyedEntryCounts | react/utils/functions.ts:21-24 | only the first entry with the gifts key is read, whatever entries follow it |
| Extractor.HighlightAddsNothingIffBlank | react/utils/functions.ts:21-28 | a highlight adds no id iff it has no keyed entry or every field of its value trims to blank (an empty value included) |
| Extractor.SellersIdsAsWritten | react/utils/functions.ts:16-32 | the loops throw iff some seller lacks its discount highlights, and otherwise return the concatenated ids of all highlights |
| Extractor.HighlightsIds | react/utils/functions.ts:19-29 | every id collected over a list of highlights is non-empty and trimmed |
| Extractor.SellerIds | react/utils/functions.ts:19-29 | every id one seller contributes is non-empty and trimmed |
| Extractor.SellersIds | react/utils/functions.ts:18-29 | every id collected over the sellers is non-empty and trimmed |
| Extractor.SellersIdsAppend | react/utils/functions.ts:18-29 | the ids of consecutive runs of sellers are concatenated, in seller order |
| Extractor.HighlightsIdsLength | react/utils/functions.ts:19-29 | the id count over highlights is the sum of the per-highlight counts, with nothing merged |
| Extractor.SellersIdsMembers | react/utils/functions.ts:18-29 | an id is collected iff it comes from some highlight of some seller, and every collected id is non-empty and trimmed |
| Extractor.SelectedItem | react/utils/functions.ts:8-14 | an item is found only past the guard, and it carries the selected id |
| Extractor.FirstMatchingProductOnly | react/utils/functions.ts:12-14 | only the first product with the id is searched for the item |
| Extractor.SoleProductSoleItem | react/utils/functions.ts:12-14 | a response with one product holding one item selects that item |
| Extractor.HighlightedGiftsAsWritten | react/utils/functions.ts:3-35 | whenever the extractor as written returns, every id it returns is non-empty and has no whitespace at either end |
| Extractor.HighlightedGifts | react/utils/functions.ts:3-35 | every id the corrected extractor returns is non-empty and has no whitespace at either end |
| Extractor.NoIdsWithoutInputs | react/utils/functions.ts:8-10 | missing data, no products, or a missing or empty product or item id gives no ids |
| Extractor.NoIdsOnLookupMiss | react/utils/functions.ts:12-18 | no product with the id, or no item with the id in the first such product, gives no ids and no error |
| Extractor.HighlightsIdsPrefix | react/utils/functions.ts:19-29 | one more highlight appends its own ids at the end |
| Extractor.SellersIdsAsWrittenPrefix | react/utils/functions.ts:18-32 | one more seller with highlights appends their ids at the end |
| Extractor.GetCurrentItemHighlightedGifts | react/utils/functions.ts:3-35 | the nested seller and highlight loops compute exactly `HighlightedGiftsAsWritten` |
| Extractor.AsWrittenThrowsOnlyOnMissingHighlights | react/utils/functions.ts:18-20 | the extractor throws exactly when a seller of the selected item lacks discount highlights, and otherwise agrees with the corrected reading |
| Extractor.MissingHighlightsThrow | react/utils/functions.ts:19-20 | one seller without discount highlights makes the extractor throw, while the corrected reading returns no ids |
| Reconciler.SelectedSellers | react/ProductGifts.tsx:69-72 | no data, no selected id or no matching item gives no sellers, and otherwise the result is exactly the sellers of the first item whose id is the selected one |
| Reconciler.FilterByPosition | react/ProductGifts.tsx:80-82 | the positional filter never lengthens the gift list |
| Reconciler.KeptPositions | react/ProductGifts.tsx:77-82 | the kept positions are exactly the highlighted ones below the gift count, in increasing order |
| Reconciler.FilterByPositionKeepsPositions | react/ProductGifts.tsx:77-82 | the filter yields the gifts at the kept positions, in their original relative order |
| Reconciler.FilterByPositionMembers | react/ProductGifts.tsx:77-82 | a gift is kept iff it sits at a position below the number of SKU ids whose SKU id is highlighted |
| Reconciler.ExtraIdsIgnored | react/ProductGifts.tsx:77-81 | SKU ids past the last gift make no difference |
| Reconciler.NothingHighlightedNothingKept | react/ProductGifts.tsx:80-82 | the filter keeps nothing when no id is highlighted |
| Reconciler.SellerGifts | react/ProductGifts.tsx:76-83 | a seller never contributes more gifts than it holds |
| Reconciler.SellerGuardIsRedundant | react/ProductGifts.tsx:79-83 | the emptiness test before the filter does not change a seller's result |
| Reconciler.NoHighlightsNoGifts | react/ProductGifts.tsx:79-85 | with no highlighted ids the reconciled list is empty, whatever the sellers hold |
| Reconciler.ReconcileGifts | react/ProductGifts.tsx:74-86 | the fold over sellers; ReconcileAppend, ReconcileBounded and ReconcileMembers state its properties |
| Common.Flatten | react/ProductGifts.tsx:74-86 | the left fold that concatenates per-element lists; FlattenAppend, FlattenLength and FlattenMembers state its properties |
| Reconciler.ReconcileAppend | react/ProductGifts.tsx:74-86 | the reconciled list is the concatenation of the sellers' results, in seller order |
| Reconciler.ReconcileBounded | react/ProductGifts.tsx:80-85 | the reconciled list is never longer than all gifts together |
| Reconciler.ReconcileMembers | react/ProductGifts.tsx:74-86 | a gift is reconciled iff some seller holds it at a position whose SKU id is highlighted |
| Reconciler.SelectedGifts | react/ProductGifts.tsx:69-86 | the selected item's sellers, reconciled; NoSelectedItemNoGifts and ReconcileMembers state its properties |
| Reconciler.NoSelectedItemNoGifts | react/ProductGifts.tsx:69-72 | without the primary data or a matching item there are no gifts |
| ProductGifts.MaxVisibleItemsProp | react/ProductGifts.tsx:33 | the prop with its default `'showAll'`; RenderDecision states what reaches the snapshot |
| ProductGifts.HighlightedIds | react/ProductGifts.tsx:63-67 | the extractor as written, called on every render: when it returns, every id is non-empty and trimmed, and without a product id it returns no ids |
| ProductGifts.Snapshot | react/ProductGifts.tsx:69-111 | what is rendered once the ids are known; RenderDecision states its properties |
| ProductGifts.Render | react/ProductGifts.tsx:63-111 | the component as written, throwing when the extractor throws; RenderDecision, ShownGiftsAreHighlighted and ErrorsDoNotSuppress state its properties |
| ProductGifts.RenderCorrected | react/ProductGifts.tsx:63-111 | the component on the corrected extractor; RenderAgreesWithCorrected relates it to Render |
| ProductGifts.RenderAgreesWithCorrected | react/ProductGifts.tsx:63-111 | whenever the component as written does not throw, it renders what the corrected component renders |
| ProductGifts.RenderDecision | react/ProductGifts.tsx:63-111 | the component throws exactly when a seller of the selected additional-info item lacks discount highlights; otherwise it renders nothing iff a query is loading or no seller holds a gift at a highlighted position, and a rendered snapshot carries the resolved cap, `'showAll'` by default |
| ProductGifts.ErrorsDoNotSuppress | react/ProductGifts.tsx:99-105 | query errors change nothing in what the component does |
| ProductGifts.NoProductIdRendersNothing | react/ProductGifts.tsx:63-105 | without a product id the component does not throw and renders nothing |
| ProductGifts.MissingContextRendersNothing | react/ProductGifts.tsx:93-105 | outside a product context the component does not throw and renders nothing |
| ProductGifts.ShownGiftsAreHighlighted | react/ProductGifts.tsx:63-111 | a rendered snapshot holds a gift iff some seller of the selected item holds it at a position whose SKU id was extracted, and every extracted id is non-empty and trimmed |
| Scenarios.ExtractsListedIds | react/utils/functions.ts:3-35 | the value `"G1, G2,G3"` of the only highlight of the selected item yields G1, G2, G3 in order |
| Scenarios.HighlightListsIds | react/utils/functions.ts:21-28 | a highlight whose only entry is `gifts: "G1, G2,G3"` yields G1, G2, G3 |
| Scenarios.SplitsAndTrimsIds | react/utils/functions.ts:25-28 | `"G1, G2,G3"` gives the ids G1, G2, G3 |
| Scenarios.SplitsIntoThree | react/utils/functions.ts:26 | `"G1, G2,G3"` splits into `"G1"`, `" G2"`, `"G3"` |
| Scenarios.KeepsThreeIds | react/utils/functions.ts:27-28 | trimming and filtering those pieces keeps all three, trimmed |
| Scenarios.TrimsLeadingSpace | react/utils/functions.ts:27 | `" G2"` trims to `"G2"` |
| Scenarios.KeepsGiftAtHighlightedPosition | react/ProductGifts.tsx:77-85 | with SKU ids G2, G9 against G1, G2, G3, only the first gift is kept |
| Scenarios.SecondSellerAddsNothing | react/ProductGifts.tsx:74-86 | a second seller with no highlighted SKU id adds nothing after the first seller's gift |

## Left out

- React rendering and hooks are not modelled: `useQuery`, `useProduct`, `useCssHandles`, `useMemo` and the JSX wrapper. Both query results (data, loading flag, error flag) and the product context are inputs.
- The queries' `skip` options are not modelled; a skipped query is an input without data.
- `useResponsiveValue` breakpoint resolution is a library call. It is the parameter `resolve` of `ProductGifts.Render`.
- `console.error` logging is I/O. Only its consequence is modelled: errors change nothing in what is rendered.
- The context provider, its default value and `useProductGiftsState` are left out: they are ambient React scope.
- `defineMessages` and the editor `schema` are left out: they are translation and configuration metadata.
- The GraphQL query documents are not part of this model.
- The value of `GIFTS_ADDITIONALINFO_KEY` is not part of this model (`./constants`); it is the parameter `giftsKey`.
- `react/typings/Product.ts` holds type declarations only. The record shapes follow it and the field accesses of the two core files.
- Reconciler.SellerGifts: a seller whose `commertialOffer` itself is missing would make the `giftSkuIds` read at react/ProductGifts.tsx:77 throw. The model assumes the offer is present, as react/typings/Product.ts:27-31 declares it required.
- Reconciler.SelectedSellers: primary data without `product` or `items` would make react/ProductGifts.tsx:69 throw. The model assumes both are present, as react/typings/Product.ts:16-20 declares them required.
- Extractor.SelectedItem: a matched product without `items` would make react/utils/functions.ts:14 throw. The model assumes every product carries its item list. The additional-info response shape is not declared in the typings, and the model follows the declared primary-query shape, where item lists are required.
- Extractor.HighlightedGifts: it reads a missing `discountHighlights` list as empty. The code as written throws there instead; `HighlightedGiftsAsWritten`, the method and `ProductGifts.Render` model that behaviour (see Findings). `ProductGifts.RenderCorrected` is the component on the corrected reading.

## Findings

| source | as written | input that shows it | evidently intended | confidence | as-written member | corrected member |
|---|---|---|---|---|---|---|
| react/utils/functions.ts:19-20 | the inner loop iterates `seller?.commertialOffer?.discountHighlights`; the optional chaining yields `undefined` when the seller, its offer or the list is missing, and `for...of` over `undefined` throws a `TypeError`, so the component fails to render | product P1 with item I1 whose only seller has no `discountHighlights`, selected as P1/I1 | a seller without discount highlights contributes no ids, as the optional chaining and the `?? []` on the outer loop suggest | medium; not executed | Extractor.MissingHighlightsThrow | Extractor.AsWrittenThrowsOnlyOnMissingHighlights |
