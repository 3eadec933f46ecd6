/**
 The demo data path: every record `/match` emits, scored with the request
 defaults, has landed cost 5.4919 SGD and margin 3.0081 / 8.5 (about 0.354),
 below the 0.5 threshold, so `/score` of `/match`'s output is always empty.
 */
module Demo {
  import opened Records
  import opened Rounding
  import opened Matcher
  import opened Scorer

  /** The exact cost figures of the fixed candidate under the default fees. */
  lemma FixedCandidateCosts(m: MatchRow)
    requires IsFixedCandidate(m)
    ensures ReferencePrice(m.jpId) == SellPriceRef(6.2, 8.5)
    ensures CostsOf(m, ReferencePrice(m.jpId), DefaultFees).jpCostSgd == 1.98
    ensures CostsOf(m, ReferencePrice(m.jpId), DefaultFees).cif == 4.18
    ensures CostsOf(m, ReferencePrice(m.jpId), DefaultFees).landed == 5.4919
    ensures CostsOf(m, ReferencePrice(m.jpId), DefaultFees).gm == 3.0081 / 8.5
  {
    var c := CostsOf(m, ReferencePrice(m.jpId), DefaultFees);
    assert c.landed == 1.98 + 2.2 + 0.3344 + 0.68 + 0.2975;
  }

  /** Rounded half-to-even, the fixed candidate's row shows 5.49 and 0.354. */
  lemma FixedCandidateRow(m: MatchRow)
    requires IsFixedCandidate(m)
    ensures RowOf(m, DefaultFees, RoundHalfEven).landedCost == 5.49
    ensures RowOf(m, DefaultFees, RoundHalfEven).gm == 0.354
  {
    FixedCandidateCosts(m);
    assert Pow10(2) == 100 && Pow10(3) == 1000 by {
      assert Pow10(1) == 10;
    }
    var s2 := 5.4919 * Scale(2);
    assert s2 == 549.19;
    assert s2.Floor == 549;
    assert RoundUnits(5.4919, 2) == 549;
    var s3 := (3.0081 / 8.5) * Scale(3);
    assert s3 == 3008.1 / 8.5;
    assert 353.0 <= s3 < 354.0;
    assert s3.Floor == 353;
    assert s3 - 353.0 > 0.5;
    assert RoundUnits(3.0081 / 8.5, 3) == 354;
  }

  /** Whatever valid rounding is used, the fixed candidate misses the default threshold. */
  lemma FixedCandidateDropped(m: MatchRow, rnd: (real, nat) -> real)
    requires IsFixedCandidate(m)
    requires ValidRounding(rnd)
    ensures !Passes(m, DefaultFees, rnd)
  {
    FixedCandidateCosts(m);
    assert Pow10(3) == 1000 by {
      assert Pow10(1) == 10 && Pow10(2) == 100;
    }
    assert 3.0081 / 8.5 < 0.5 - Half(3);
    ClearMarginFails(m, DefaultFees, rnd);
  }

  /** Scoring the output of `/match` with the default fees returns no rows. */
  lemma MatchThenScoreIsEmpty(items: seq<SgItem>, rnd: (real, nat) -> real)
    requires ValidRounding(rnd)
    ensures Score(ScoreReq(Match(items), DefaultFees), rnd) == []
  {
    var ms := Match(items);
    forall i | 0 <= i < |ms| ensures !Passes(ms[i], DefaultFees, rnd) {
      FixedCandidateDropped(ms[i], rnd);
    }
    FilteredEmptyIff(ms, DefaultFees, rnd);
  }
}
