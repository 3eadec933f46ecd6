/**
 The `/score` endpoint: per match, a reference sell price, a landed cost and a
 gross margin; rows whose rounded margin reaches the threshold are kept and
 ranked by that margin, highest first.

 `round` is the parameter `rnd`; the lemmas that depend on how it rounds ask
 only for `Rounding.ValidRounding(rnd)`.
 */
module Scorer {
  import opened Records
  import opened Rounding
  import opened StableSort

  /** The only candidate id with its own reference prices. */
  const ReferenceJpId := "jp_001"

  /** The reference sell prices for a candidate id. */
  function ReferencePrice(jpId: string): (r: SellPriceRef)
    ensures jpId == "jp_001" ==> r == SellPriceRef(6.2, 8.5)
    ensures jpId != "jp_001" ==> r == SellPriceRef(12.0, 16.0)
    ensures 0.0 < r.p25 < r.median
  {
    if jpId == ReferenceJpId then SellPriceRef(6.2, 8.5)
    else SellPriceRef(12.0, 16.0)
  }

  /** The shipping estimate: a flat cost, whatever the parcel. */
  function EstimateShipCost(weightG: Option<real>, thicknessCm: Option<real>): (c: real)
    ensures c == 2.2
  {
    2.2
  }

  /** Every intermediate figure of one match's cost computation. */
  datatype Costs = Costs(
    jpCostSgd: real,
    ship: real,
    cif: real,
    gstAmt: real,
    platformFee: real,
    paymentFee: real,
    landed: real,
    gm: real)

  /** Python's `max(0.0, v)`. */
  function FloorAtZero(v: real): (r: real)
    ensures r >= 0.0 && r >= v
    ensures r == v || r == 0.0
  {
    if v > 0.0 then v else 0.0
  }

  /** Landed cost and unrounded gross margin of `m` resold at `ref`. */
  function CostsOf(m: MatchRow, ref: SellPriceRef, fees: Fees): (c: Costs)
    requires ref.median > 0.0
    ensures c.landed == c.jpCostSgd + c.ship + c.gstAmt + c.platformFee + c.paymentFee
    ensures c.jpCostSgd == m.jpPriceJpy * fees.fxJpySgd
    ensures c.ship == EstimateShipCost(m.weightG, m.thicknessCm)
    ensures c.cif == c.jpCostSgd + c.ship
    ensures c.gstAmt == c.cif * fees.gstRate
    ensures c.platformFee == ref.median * fees.platformFeeRate
    ensures c.paymentFee == ref.median * fees.paymentFeeRate
    ensures c.gm >= 0.0
    ensures c.gm > 0.0 <==> c.landed < ref.median
    ensures c.gm > 0.0 ==> c.gm == (ref.median - c.landed) / ref.median
    ensures 0.0 <= c.landed ==> c.gm <= 1.0
  {
    var median := ref.median;
    var jpCostSgd := m.jpPriceJpy * fees.fxJpySgd;
    var ship := EstimateShipCost(m.weightG, m.thicknessCm);
    var cif := jpCostSgd + ship;
    var gstAmt := cif * fees.gstRate;
    var platformFee := median * fees.platformFeeRate;
    var paymentFee := median * fees.paymentFeeRate;
    var landed := jpCostSgd + ship + gstAmt + platformFee + paymentFee;
    MarginSign(median, landed);
    var gm := FloorAtZero((median - landed) / median);
    Costs(jpCostSgd, ship, cif, gstAmt, platformFee, paymentFee, landed, gm)
  }

  /** With a positive sell price, the raw margin is positive exactly when cost is below price. */
  lemma MarginSign(median: real, landed: real)
    requires median > 0.0
    ensures (median - landed) / median > 0.0 <==> landed < median
    ensures 0.0 <= landed ==> (median - landed) / median <= 1.0
  {
    var q := (median - landed) / median;
    assert q * median == median - landed;
    if q > 0.0 {
      assert q * median > 0.0;
    }
    if landed < median {
      assert q <= 0.0 ==> q * median <= 0.0;
    }
    if 0.0 <= landed && q > 1.0 {
      assert q * median > 1.0 * median;
    }
  }

  /** The landed cost as one formula: tax on source cost plus shipping, fees on the median. */
  lemma LandedClosedForm(m: MatchRow, ref: SellPriceRef, fees: Fees)
    requires ref.median > 0.0
    ensures CostsOf(m, ref, fees).landed
         == (m.jpPriceJpy * fees.fxJpySgd + 2.2) * (1.0 + fees.gstRate)
            + ref.median * (fees.platformFeeRate + fees.paymentFeeRate)
  {
  }

  /** The 25th-percentile price never enters the cost or margin. */
  lemma CostsIgnoreP25(m: MatchRow, ref1: SellPriceRef, ref2: SellPriceRef, fees: Fees)
    requires ref1.median == ref2.median > 0.0
    ensures CostsOf(m, ref1, fees) == CostsOf(m, ref2, fees)
  {
  }

  /** A higher landed cost never gives a higher margin. */
  lemma MarginFallsAsLandedRises(median: real, l1: real, l2: real)
    requires median > 0.0 && l1 <= l2
    ensures FloorAtZero((median - l2) / median) <= FloorAtZero((median - l1) / median)
  {
    var q1 := (median - l1) / median;
    var q2 := (median - l2) / median;
    assert q1 - q2 == (l2 - l1) / median;
    assert (l2 - l1) / median >= 0.0;
  }

  /** A dearer source item never has a larger margin (for non-negative fx and tax above -100%). */
  lemma MarginFallsAsPriceRises(m1: MatchRow, m2: MatchRow, ref: SellPriceRef, fees: Fees)
    requires ref.median > 0.0
    requires fees.fxJpySgd >= 0.0 && fees.gstRate >= -1.0
    requires m1.jpPriceJpy <= m2.jpPriceJpy
    ensures CostsOf(m2, ref, fees).gm <= CostsOf(m1, ref, fees).gm
  {
    LandedClosedForm(m1, ref, fees);
    LandedClosedForm(m2, ref, fees);
    var a1 := m1.jpPriceJpy * fees.fxJpySgd + 2.2;
    var a2 := m2.jpPriceJpy * fees.fxJpySgd + 2.2;
    var g := 1.0 + fees.gstRate;
    ProductNonNegative(m2.jpPriceJpy - m1.jpPriceJpy, fees.fxJpySgd);
    assert (m2.jpPriceJpy - m1.jpPriceJpy) * fees.fxJpySgd == a2 - a1;
    ProductNonNegative(a2 - a1, g);
    assert a2 * g - a1 * g == (a2 - a1) * g;
    MarginFallsAsLandedRises(ref.median, CostsOf(m1, ref, fees).landed, CostsOf(m2, ref, fees).landed);
  }

  lemma ProductNonNegative(x: real, y: real)
    requires x >= 0.0 && y >= 0.0
    ensures x * y >= 0.0
  {
  }

  /** The output row for one match, before the threshold test. */
  function RowOf(m: MatchRow, fees: Fees, rnd: (real, nat) -> real): (r: Row)
    ensures r.sgId == m.sgId && r.jpId == m.jpId && r.jpUrl == m.jpUrl
    ensures r.sellPriceRef == ReferencePrice(m.jpId)
    ensures r.landedCost == rnd(CostsOf(m, ReferencePrice(m.jpId), fees).landed, 2)
    ensures r.gm == rnd(CostsOf(m, ReferencePrice(m.jpId), fees).gm, 3)
  {
    var ref := ReferencePrice(m.jpId);
    var c := CostsOf(m, ref, fees);
    Row(m.sgId, m.jpId, ref, rnd(c.landed, 2), rnd(c.gm, 3), m.jpUrl)
  }

  /** The threshold test, applied to the rounded margin. */
  predicate Passes(m: MatchRow, fees: Fees, rnd: (real, nat) -> real) {
    RowOf(m, fees, rnd).gm >= fees.gmThreshold
  }

  /** A kept row, scored by its rounded margin. */
  function Keep(m: MatchRow, fees: Fees, rnd: (real, nat) -> real): ScoredRow {
    var row := RowOf(m, fees, rnd);
    ScoredRow(row, row.gm)
  }

  /** `o` is the kept row of some match in `ms` that passes. */
  ghost predicate Emitted(o: ScoredRow, ms: seq<MatchRow>, fees: Fees, rnd: (real, nat) -> real) {
    exists i :: 0 <= i < |ms| && Passes(ms[i], fees, rnd) && o == Keep(ms[i], fees, rnd)
  }

  /** The loop of `/score` before sorting: the passing rows, in match order. */
  function Filtered(ms: seq<MatchRow>, fees: Fees, rnd: (real, nat) -> real): (r: seq<ScoredRow>)
    ensures |r| <= |ms|
    ensures forall o :: o in r ==> o.score == o.row.gm && o.score >= fees.gmThreshold
    decreases |ms|
  {
    if |ms| == 0 then []
    else (if Passes(ms[0], fees, rnd) then [Keep(ms[0], fees, rnd)] else []) + Filtered(ms[1..], fees, rnd)
  }

  /** A row is kept if and only if it comes from a match whose rounded margin passes. */
  lemma {:induction false} FilteredMembers(ms: seq<MatchRow>, fees: Fees, rnd: (real, nat) -> real)
    ensures forall o :: o in Filtered(ms, fees, rnd) <==> Emitted(o, ms, fees, rnd)
    decreases |ms|
  {
    if |ms| != 0 {
      FilteredMembers(ms[1..], fees, rnd);
      forall o ensures o in Filtered(ms, fees, rnd) <==> Emitted(o, ms, fees, rnd) {
        if Emitted(o, ms[1..], fees, rnd) {
          var j :| 0 <= j < |ms[1..]| && Passes(ms[1..][j], fees, rnd) && o == Keep(ms[1..][j], fees, rnd);
          assert ms[1..][j] == ms[j + 1];
        }
        if Emitted(o, ms, fees, rnd) {
          var i :| 0 <= i < |ms| && Passes(ms[i], fees, rnd) && o == Keep(ms[i], fees, rnd);
          if i > 0 {
            assert ms[1..][i - 1] == ms[i];
          }
        }
      }
    }
  }

  /** A single match yields its own kept row if it passes, and nothing otherwise. */
  lemma FilteredOne(m: MatchRow, fees: Fees, rnd: (real, nat) -> real)
    ensures Filtered([m], fees, rnd) == if Passes(m, fees, rnd) then [Keep(m, fees, rnd)] else []
  {
    assert [m][1..] == [];
  }

  /** Filtering a concatenation filters each part: rows never interact. */
  lemma {:induction false} FilteredAppend(a: seq<MatchRow>, b: seq<MatchRow>, fees: Fees, rnd: (real, nat) -> real)
    ensures Filtered(a + b, fees, rnd) == Filtered(a, fees, rnd) + Filtered(b, fees, rnd)
    decreases |a|
  {
    if |a| == 0 {
      assert a + b == b;
    } else {
      assert (a + b)[0] == a[0];
      assert (a + b)[1..] == a[1..] + b;
      FilteredAppend(a[1..], b, fees, rnd);
    }
  }

  /** Nothing is dropped exactly when every match passes. */
  lemma {:induction false} FilteredKeepsAllIff(ms: seq<MatchRow>, fees: Fees, rnd: (real, nat) -> real)
    ensures |Filtered(ms, fees, rnd)| == |ms| <==> forall i :: 0 <= i < |ms| ==> Passes(ms[i], fees, rnd)
    decreases |ms|
  {
    if |ms| != 0 {
      FilteredKeepsAllIff(ms[1..], fees, rnd);
      if forall i :: 0 <= i < |ms| ==> Passes(ms[i], fees, rnd) {
        forall i | 0 <= i < |ms[1..]| ensures Passes(ms[1..][i], fees, rnd) {
          assert ms[1..][i] == ms[i + 1];
        }
      } else if Passes(ms[0], fees, rnd) {
        var i :| 0 <= i < |ms| && !Passes(ms[i], fees, rnd);
        assert ms[1..][i - 1] == ms[i];
      }
    }
  }

  /** Everything is dropped exactly when no match passes. */
  lemma FilteredEmptyIff(ms: seq<MatchRow>, fees: Fees, rnd: (real, nat) -> real)
    ensures Filtered(ms, fees, rnd) == [] <==> forall i :: 0 <= i < |ms| ==> !Passes(ms[i], fees, rnd)
  {
    FilteredMembers(ms, fees, rnd);
    if Filtered(ms, fees, rnd) != [] {
      assert Filtered(ms, fees, rnd)[0] in Filtered(ms, fees, rnd);
    } else {
      forall i | 0 <= i < |ms| ensures !Passes(ms[i], fees, rnd) {
        if Passes(ms[i], fees, rnd) {
          assert Emitted(Keep(ms[i], fees, rnd), ms, fees, rnd);
        }
      }
    }
  }

  /** The threshold takes no part in computing a row. */
  lemma RowIgnoresThreshold(m: MatchRow, fees: Fees, rnd: (real, nat) -> real, t: real)
    ensures RowOf(m, fees.(gmThreshold := t), rnd) == RowOf(m, fees, rnd)
  {
    var ref := ReferencePrice(m.jpId);
    assert CostsOf(m, ref, fees.(gmThreshold := t)) == CostsOf(m, ref, fees);
  }

  /** Raising the threshold only removes rows. */
  lemma {:induction false} RaisingThresholdOnlyDrops(ms: seq<MatchRow>, fees: Fees, rnd: (real, nat) -> real, t: real)
    requires t >= fees.gmThreshold
    ensures multiset(Filtered(ms, fees.(gmThreshold := t), rnd)) <= multiset(Filtered(ms, fees, rnd))
    decreases |ms|
  {
    if |ms| != 0 {
      var raised := fees.(gmThreshold := t);
      RaisingThresholdOnlyDrops(ms[1..], fees, rnd, t);
      RowIgnoresThreshold(ms[0], fees, rnd, t);
      var h' := if Passes(ms[0], raised, rnd) then [Keep(ms[0], raised, rnd)] else [];
      var h := if Passes(ms[0], fees, rnd) then [Keep(ms[0], fees, rnd)] else [];
      assert multiset(h') <= multiset(h);
      assert Filtered(ms, raised, rnd) == h' + Filtered(ms[1..], raised, rnd);
      assert Filtered(ms, fees, rnd) == h + Filtered(ms[1..], fees, rnd);
    }
  }

  /** The ranking key: the score of a kept row. */
  function ScoreOf(o: ScoredRow): real {
    o.score
  }

  /** `/score`: the passing rows, sorted by score from highest to lowest, ties in match order. */
  function Score(req: ScoreReq, rnd: (real, nat) -> real): (r: seq<ScoredRow>)
    ensures NonIncreasing(r, ScoreOf)
    ensures multiset(r) == multiset(Filtered(req.matches, req.fees, rnd))
    ensures forall k :: WithKey(r, ScoreOf, k) == WithKey(Filtered(req.matches, req.fees, rnd), ScoreOf, k)
    ensures |r| <= |req.matches|
    ensures forall o :: o in r ==> o.score == o.row.gm && o.score >= req.fees.gmThreshold
  {
    var kept := Filtered(req.matches, req.fees, rnd);
    var r := SortDesc(kept, ScoreOf);
    assert |r| == |multiset(r)| == |multiset(kept)| == |kept|;
    assert forall o :: o in r ==> o in multiset(kept);
    r
  }

  /**
   The output is the only arrangement of the kept rows that is ordered by
   score, highest first, with equal scores in match order.
   */
  lemma ScoreIsTheStableRanking(req: ScoreReq, rnd: (real, nat) -> real, t: seq<ScoredRow>)
    requires NonIncreasing(t, ScoreOf)
    requires forall k :: WithKey(t, ScoreOf, k) == WithKey(Filtered(req.matches, req.fees, rnd), ScoreOf, k)
    ensures t == Score(req, rnd)
  {
    SortedArrangementUnique(t, Score(req, rnd), ScoreOf);
  }

  /** A row is in the output if and only if its match passes the rounded threshold test. */
  lemma ScoreMembers(req: ScoreReq, rnd: (real, nat) -> real)
    ensures forall o :: o in Score(req, rnd) <==> Emitted(o, req.matches, req.fees, rnd)
  {
    FilteredMembers(req.matches, req.fees, rnd);
    var kept := Filtered(req.matches, req.fees, rnd);
    assert forall o :: o in Score(req, rnd) <==> o in multiset(kept);
  }

  /** Every output row has a non-negative score, for any rounding within its error bound. */
  lemma ScoresNonNegative(req: ScoreReq, rnd: (real, nat) -> real)
    requires ValidRounding(rnd)
    ensures forall o :: o in Score(req, rnd) ==> o.score >= 0.0
  {
    ScoreMembers(req, rnd);
    forall o | o in Score(req, rnd) ensures o.score >= 0.0 {
      var i :| 0 <= i < |req.matches| && Passes(req.matches[i], req.fees, rnd) && o == Keep(req.matches[i], req.fees, rnd);
      var m := req.matches[i];
      assert 0.0 <= CostsOf(m, ReferencePrice(m.jpId), req.fees).gm;
    }
  }

  /** A margin at least half a unit of the third decimal above the threshold always passes. */
  lemma ClearMarginPasses(m: MatchRow, fees: Fees, rnd: (real, nat) -> real)
    requires ValidRounding(rnd)
    requires CostsOf(m, ReferencePrice(m.jpId), fees).gm >= fees.gmThreshold + Half(3)
    ensures Passes(m, fees, rnd)
  {
    var gm := CostsOf(m, ReferencePrice(m.jpId), fees).gm;
    assert -Half(3) <= rnd(gm, 3) - gm;
  }

  /** A margin more than half a unit of the third decimal below the threshold never passes. */
  lemma ClearMarginFails(m: MatchRow, fees: Fees, rnd: (real, nat) -> real)
    requires ValidRounding(rnd)
    requires CostsOf(m, ReferencePrice(m.jpId), fees).gm < fees.gmThreshold - Half(3)
    ensures !Passes(m, fees, rnd)
  {
    var gm := CostsOf(m, ReferencePrice(m.jpId), fees).gm;
    assert rnd(gm, 3) - gm <= Half(3);
  }
}
