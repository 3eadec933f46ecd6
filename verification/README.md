# crossborder scoring pipeline, modelled in Dafny

This project models the logic of `api/main.py` in the crossborder demo service. The
service pairs Singapore-market demand items (`sg_id`) with Japanese source items
(`jp_id`), then scores each pair for resale profitability.

- `/match` (`Matcher.Match`) does no matching. Every demand item gets the same fixed
  candidate: `jp_001`, 220 JPY, 40 g, 2 cm, similarity 0.95.
- `/score` (`Scorer.Score`) handles each match record the same way:
  - It looks up a reference sell price pair (p25, median) by `jp_id`.
  - It converts the JPY price at the request's FX rate and adds the flat 2.2 SGD
    shipping estimate.
  - It charges GST on that CIF sum (cost plus shipping).
  - It charges the platform and payment fees on the median sell price.
  - It floors the gross margin `(median - landed) / median` at 0.
  - It rounds the landed cost to 2 places and the margin to 3.
  - It keeps the row when the rounded margin reaches `gm_threshold`.
  - It sorts the kept rows by score (the rounded margin), highest first. The sort is
    stable, so equal scores stay in match order.

Files:

- `records.dfy`: the request and response records, and the request-model defaults
  (`DefaultFees`: fx 0.009, GST 0.08, platform 0.08, payment 0.035, threshold 0.5).
- `rounding.dfy`: the rounding contract the scorer depends on (`ValidRounding`), and a
  concrete round-half-to-even on exact reals that satisfies it.
- `matcher.dfy`: the `/match` stub.
- `stable_sort.dfy`: a stable sort into non-increasing key order. It is characterised by
  three facts: order, the per-key subsequence (stability), and the multiset of
  elements. A uniqueness lemma shows those facts determine the result.
- `scorer.dfy`: reference prices, the shipping stub, the cost breakdown, the
  threshold filter and `/score`.
- `demo.dfy`: the literal demo data path. Scoring `/match`'s output with the default
  fees always yields an empty list.

Python's `round(x, n)` is a parameter `rnd: (real, nat) -> real` of the scorer. The
threshold and non-negativity lemmas assume only `ValidRounding(rnd)`:

- `|rnd(x, n) - x| <= 0.5 * 10^-n`;
- `rnd(x, n) >= 0` whenever `x >= 0`.

So the lemmas do not depend on how IEEE doubles behave. `Rounding.RoundHalfEven` meets
this contract and gives the exact demo figures 5.49 and 0.354.

`api/main.py` has no fuzzy title matcher, no shipping-band table, no reference-price
resolver and no error types. `/match` and the shipping estimate are stubs, and the
reference prices are a two-way branch on `jp_id`. The model follows the code.

## Model

| member | source | states |
|---|---|---|
| Matcher.Match | api/main.py:37-51 | exactly one record per demand item, in item order, carrying that item's `sg_id`; every record is the fixed candidate `jp_001`, 220 JPY, similarity 0.95, 40 g, 2 cm, `https://example.jp/item/1` |
| Matcher.MatchAppend | api/main.py:40-51 | items are matched independently: matching a concatenation is the concatenation of the matches |
| Scorer.ReferencePrice | api/main.py:78-82 | `jp_001` maps to (6.2, 8.5), every other id to (12.0, 16.0); the median is always positive, so the margin division is defined |
| Scorer.EstimateShipCost | api/main.py:71-72 | the shipping estimate is 2.2 for every weight and thickness, including absent ones |
| Scorer.FloorAtZero | api/main.py:91 | `max(0.0, v)` is non-negative, at least `v`, and either `v` or 0 |
| Scorer.CostsOf | api/main.py:84-91 | ship is the shipping estimate (2.2); CIF = JPY cost converted at fx + ship; GST = CIF * GST rate; landed = converted cost + ship + GST + platform fee + payment fee; both fees are on the median; the margin is never negative; it is positive iff landed < median, when it equals (median - landed) / median; it is at most 1 when landed >= 0 |
| Scorer.MarginSign | api/main.py:91 | for a positive median, the raw margin is positive iff landed < median, and at most 1 for a non-negative landed cost |
| Scorer.LandedClosedForm | api/main.py:84-90 | landed = (price * fx + 2.2) * (1 + GST) + median * (platform rate + payment rate) |
| Scorer.CostsIgnoreP25 | api/main.py:80-91 | two reference pairs with the same median give identical costs and margin: p25 never enters the computation |
| Scorer.MarginFallsAsPriceRises | api/main.py:84-91 | for the same reference price (same `jp_id`), with fx >= 0 and GST >= -100%, a higher JPY price never gives a higher margin |
| Scorer.RowOf | api/main.py:93-100 | the row carries its match's `sg_id`, `jp_id` and `jp_url`, and the reference prices of its `jp_id`; its landed cost and margin are the computed figures rounded to 2 and 3 places |
| Scorer.RowIgnoresThreshold | api/main.py:84-100 | the threshold takes no part in computing a row |
| Scorer.Filtered | api/main.py:76-103 | the scoring loop keeps no more rows than there are matches, and every kept row has score equal to its rounded margin and at least the threshold |
| Scorer.FilteredMembers | api/main.py:77-103 | a row is kept iff it is the row of some match whose rounded margin is at least the threshold |
| Scorer.FilteredOne | api/main.py:93-103 | one match contributes exactly its own kept row when its rounded margin reaches the threshold, and nothing otherwise; with `FilteredAppend` this gives at most one row per match |
| Scorer.FilteredAppend | api/main.py:77-103 | the loop treats each match on its own: filtering a concatenation concatenates the filtered parts |
| Scorer.FilteredKeepsAllIff | api/main.py:101-103 | nothing is dropped iff every match's rounded margin reaches the threshold |
| Scorer.FilteredEmptyIff | api/main.py:101-103 | everything is dropped iff no match's rounded margin reaches the threshold |
| Scorer.RaisingThresholdOnlyDrops | api/main.py:101-103 | raising the threshold gives a sub-multiset of the kept rows |
| Scorer.Score | api/main.py:74-106 | `/score` output is ordered by score, non-increasing; equal scores keep match order; it is a permutation of the kept rows; it has no more rows than there are matches; every row has score == rounded gm >= threshold |
| Scorer.ScoreIsTheStableRanking | api/main.py:105 | any arrangement of the kept rows that is ordered by score and keeps equal scores in match order is exactly the output |
| Scorer.ScoreMembers | api/main.py:76-105 | a row is in the output iff it comes from a match whose rounded margin is at least the threshold |
| Scorer.ScoresNonNegative | api/main.py:91-102 | under any rounding meeting `ValidRounding` (within half a unit of the last kept place, and non-negative values stay non-negative), every output score is non-negative |
| Scorer.ClearMarginPasses | api/main.py:98-101 | under any valid rounding, an unrounded margin at least 0.0005 above the threshold is kept |
| Scorer.ClearMarginFails | api/main.py:98-101 | under any valid rounding, an unrounded margin more than 0.0005 below the threshold is dropped |
| StableSort.Insert | api/main.py:105 | insertion adds exactly one occurrence of the element to the multiset |
| StableSort.InsertSorted | api/main.py:105 | insertion keeps a non-increasing sequence non-increasing |
| StableSort.InsertWithKey | api/main.py:105 | on sorted input, the inserted element goes after every element with an equal key (stability) |
| StableSort.SortDesc | api/main.py:105 | `sort(reverse=True)`: the result is a permutation, non-increasing by key, and has the same subsequence of elements for every key |
| StableSort.SortedArrangementUnique | api/main.py:105 | two non-increasing sequences with the same per-key subsequences are equal |
| Rounding.RoundUnits | api/main.py:97-98 | the rounded unit count is within half a unit of the scaled value; exact halves go to the even unit; non-negative values stay non-negative |
| Rounding.RoundHalfEven | api/main.py:97-98 | `round(x, n)` on exact reals is within 0.5 * 10^-n of x, keeps non-negative values non-negative, and has at most n decimals |
| Rounding.RoundHalfEvenIdempotent | api/main.py:97-98 | rounding an already rounded value to the same precision changes nothing |
| Rounding.RoundHalfEvenKeepsDecimals | api/main.py:97-98 | a value with at most n decimals is its own rounding |
| Demo.FixedCandidateCosts | api/main.py:84-91 | with the default fees, the fixed candidate costs 1.98 SGD; CIF is 4.18; landed is 5.4919; the margin is 3.0081 / 8.5 |
| Demo.FixedCandidateRow | api/main.py:93-98 | rounded half-to-even, the fixed candidate's row shows landed cost 5.49 and margin 0.354 |
| Demo.FixedCandidateDropped | api/main.py:101 | under any valid rounding, the fixed candidate's rounded margin is below the default threshold 0.5 |
| Demo.MatchThenScoreIsEmpty | api/main.py:37-106 | scoring the output of `/match` with the default request fields returns no rows, whatever the demand items |

## Left out

- The FastAPI app, route decorators and `/health` (api/main.py:6-11) are left out. They are transport only.
- `/sg_demand` (api/main.py:14-25) is left out. It returns a fixed dummy payload and has no logic.
- Pydantic validation and coercion of the request models (api/main.py:28-35, 54-69) are left out. The model uses plain records. The `ScoreReq` defaults are `DefaultFees`. The optional `MatchRow` fields are `Option`s that the caller fills in, so Pydantic's own defaults for them (40 g, 2 cm) are not applied. An explicit `None` for a fee field is not modelled, because in the source it raises a `TypeError`. The shipping stub ignores `weight_g` and `thickness_cm`, so an absent value changes nothing.
- IEEE-754 arithmetic is left out. Prices and rates are exact reals, so a float comparison that lands on the other side of the threshold because of representation error is not reproduced. The rounding contract bounds that effect to half a unit of the third decimal.
- CPython's `round` on binary doubles is left out. `RoundHalfEven` rounds the exact real, so a tie in decimal notation is rounded to even here, while CPython rounds the nearest double.
- The response envelopes (`{"matches": ...}`, `{"scored": ...}`) and the JSON shape of `sell_price_ref` are left out. The model returns the sequences and records directly.
