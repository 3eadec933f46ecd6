/**
 The `/match` endpoint. It does no matching: every demand item is paired with the
 same fixed candidate.
 */
module Matcher {
  import opened Records

  const CandidateId := "jp_001"
  const CandidatePriceJpy := 220.0
  const CandidateSimilarity := 0.95
  const CandidateWeightG := 40.0
  const CandidateThicknessCm := 2.0
  const CandidateUrl := "https://example.jp/item/1"

  /** The record emitted for one demand item. */
  function MatchOne(it: SgItem): MatchRow {
    MatchRow(it.sgId, CandidateId, CandidatePriceJpy, Some(CandidateSimilarity),
             Some(CandidateWeightG), Some(CandidateThicknessCm), Some(CandidateUrl))
  }

  /** The fixed candidate record, whatever the item. */
  predicate IsFixedCandidate(m: MatchRow) {
    && m.jpId == "jp_001"
    && m.jpPriceJpy == 220.0
    && m.simText == Some(0.95)
    && m.weightG == Some(40.0)
    && m.thicknessCm == Some(2.0)
    && m.jpUrl == Some("https://example.jp/item/1")
  }

  /** One record per item, in item order, each the fixed candidate for that item's id. */
  function Match(items: seq<SgItem>): (r: seq<MatchRow>)
    ensures |r| == |items|
    ensures forall i :: 0 <= i < |items| ==> r[i].sgId == items[i].sgId && IsFixedCandidate(r[i])
    decreases |items|
  {
    if |items| == 0 then []
    else [MatchOne(items[0])] + Match(items[1..])
  }

  /** Matching a concatenation matches each part independently. */
  lemma {:induction false} MatchAppend(a: seq<SgItem>, b: seq<SgItem>)
    ensures Match(a + b) == Match(a) + Match(b)
    decreases |a|
  {
    if |a| == 0 {
      assert a + b == b;
    } else {
      assert (a + b)[1..] == a[1..] + b;
      MatchAppend(a[1..], b);
    }
  }
}
