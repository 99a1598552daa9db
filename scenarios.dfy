/** Worked examples of the extractor and the reconciler on small inputs. */
module Scenarios {
  import opened Common
  import opened Text
  import opened Extractor
  import opened Reconciler

  /** Product P1, item I1, one seller with one highlight whose `gifts` entry
      lists `"G1, G2,G3"`: the ids are G1, G2 and G3, trimmed, in order. */
  lemma ExtractsListedIds()
    ensures HighlightedGifts(
              Some(Extractor.Response([Product("P1", [Extractor.Item("I1", [Extractor.Seller(Some([
                DiscountHighlight([AdditionalInfo("gifts", "G1, G2,G3")])]))])])])),
              Some("P1"), Some("I1"), "gifts") == ["G1", "G2", "G3"]
  {
    var h := DiscountHighlight([AdditionalInfo("gifts", "G1, G2,G3")]);
    var seller := Extractor.Seller(Some([h]));
    var item := Extractor.Item("I1", [seller]);
    SoleProductSoleItem("P1", item);
    HighlightListsIds();
    FlattenOne(h, (h: DiscountHighlight) => HighlightIds(h, "gifts"));
    FlattenOne(seller, (s: Extractor.Seller) => SellerIds(s, "gifts"));
  }

  /** The highlight whose only entry is `gifts: "G1, G2,G3"` yields G1, G2, G3. */
  lemma HighlightListsIds()
    ensures HighlightIds(DiscountHighlight([AdditionalInfo("gifts", "G1, G2,G3")]), "gifts") == ["G1", "G2", "G3"]
  {
    var info := AdditionalInfo("gifts", "G1, G2,G3");
    OnlyFirstKeyedEntryCounts([], info, [], "gifts");
    assert [info] == [] + [info] + [];
    SplitsAndTrimsIds();
  }

  /** `"G1, G2,G3"` splits into three pieces that trim to G1, G2 and G3. */
  lemma SplitsAndTrimsIds()
    ensures ValueIds("G1, G2,G3") == ["G1", "G2", "G3"]
  {
    SplitsIntoThree();
    KeepsThreeIds();
  }

  /** `"G1, G2,G3".split(',')` is `["G1", " G2", "G3"]`. */
  lemma SplitsIntoThree()
    ensures SplitOnComma("G1, G2,G3") == ["G1", " G2", "G3"]
  {
    var pieces := ["G1", " G2", "G3"];
    assert JoinWithComma(pieces[2..]) == "G3";
    assert JoinWithComma(pieces[1..]) == " G2,G3";
    assert JoinWithComma(pieces) == "G1, G2,G3";
    SplitJoin(pieces);
  }

  /** Trimming and filtering `["G1", " G2", "G3"]` keeps all three, trimmed. */
  lemma KeepsThreeIds()
    ensures NonEmptyTrimmed(["G1", " G2", "G3"]) == ["G1", "G2", "G3"]
  {
    var pieces := ["G1", " G2", "G3"];
    var ids := ["G1", "G2", "G3"];
    forall k | 0 <= k < 3
      ensures Trim(pieces[k]) == ids[k] && ids[k] != ""
    {
      if k == 0 {
        TrimTrimmed("G1");
      } else if k == 1 {
        TrimsLeadingSpace();
      } else {
        TrimTrimmed("G3");
      }
    }
    NothingBlankNothingDropped(pieces, ids);
  }

  /** The piece `" G2"` trims to `"G2"`. */
  lemma TrimsLeadingSpace()
    ensures Trim(" G2") == "G2"
  {
    assert " G2"[1..] == "G2";
  }

  /** One seller with `giftSkuIds = ["G2", "G9"]` and gifts A and B, against
      the ids G1, G2, G3: only A, whose id is G2, is kept. */
  lemma KeepsGiftAtHighlightedPosition(giftA: Gift, giftB: Gift)
    ensures ReconcileGifts([Reconciler.Seller(["G2", "G9"], [giftA, giftB])], ["G1", "G2", "G3"]) == [giftA]
  {
    var seller := Reconciler.Seller(["G2", "G9"], [giftA, giftB]);
    var highlighted := ["G1", "G2", "G3"];
    assert "G9" !in highlighted;
    assert [giftA, giftB][..1] == [giftA];
    assert [giftA][..0] == [];
    assert FilterByPosition([giftA, giftB], ["G2", "G9"], highlighted) == [giftA];
    assert SellerGifts(seller, highlighted) == [giftA];
    FlattenOne(seller, (s: Reconciler.Seller) => SellerGifts(s, highlighted));
  }

  /** Two sellers, the first with one matching gift and the second with none:
      the result is that one gift. */
  lemma SecondSellerAddsNothing(giftA: Gift, giftB: Gift)
    ensures ReconcileGifts([Reconciler.Seller(["G2"], [giftA]), Reconciler.Seller(["G7"], [giftB])], ["G2"]) == [giftA]
  {
    var s1 := Reconciler.Seller(["G2"], [giftA]);
    var s2 := Reconciler.Seller(["G7"], [giftB]);
    assert [giftA][..0] == [];
    assert [giftB][..0] == [];
    assert SellerGifts(s1, ["G2"]) == [giftA];
    assert SellerGifts(s2, ["G2"]) == [];
    ReconcileAppend([s1], [s2], ["G2"]);
    assert [s1] + [s2] == [s1, s2];
    assert [s1][..0] == [];
    assert [s2][..0] == [];
  }
}
