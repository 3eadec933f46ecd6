/**
 The request and response records of the `/match` and `/score` endpoints
 (api/main.py), as plain immutable values. Prices, rates and margins are exact
 reals; an `Optional` field of the request models is an `Option`.
 */
module Records {

  datatype Option<T> = None | Some(value: T)

  /** A demand-side item posted to `/match` (`SgItem`). */
  datatype SgItem = SgItem(
    sgId: string,
    title: Option<string>,
    priceP25: Option<real>,
    priceMedian: Option<real>)

  /** A matched pair posted to `/score` (`MatchRow`). */
  datatype MatchRow = MatchRow(
    sgId: string,
    jpId: string,
    jpPriceJpy: real,
    simText: Option<real>,
    weightG: Option<real>,
    thicknessCm: Option<real>,
    jpUrl: Option<string>)

  /** The rate and threshold fields of a `/score` request (`ScoreReq` less its match list). */
  datatype Fees = Fees(
    fxJpySgd: real,
    gstRate: real,
    platformFeeRate: real,
    paymentFeeRate: real,
    gmThreshold: real)

  /** A `/score` request. */
  datatype ScoreReq = ScoreReq(matches: seq<MatchRow>, fees: Fees)

  /** The request-model defaults used when a field is not supplied. */
  const DefaultFees := Fees(0.009, 0.08, 0.08, 0.035, 0.5)

  /** The reference sell prices a candidate is resold at (`sell_price_ref`). */
  datatype SellPriceRef = SellPriceRef(p25: real, median: real)

  /** One evaluated match, with landed cost and gross margin already rounded. */
  datatype Row = Row(
    sgId: string,
    jpId: string,
    sellPriceRef: SellPriceRef,
    landedCost: real,
    gm: real,
    jpUrl: Option<string>)

  /** A row that passed the margin threshold, with its ranking score. */
  datatype ScoredRow = ScoredRow(row: Row, score: real)
}
