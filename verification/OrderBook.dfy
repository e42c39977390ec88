/** Absolute price levels of one market, with the best price of each side kept up to date instead of searched for. */
module OrderBook {
  import opened Wrappers

  datatype Market = Spot | UmPerpetual | UmDelivery | CmPerpetual | CmDelivery

  datatype Product = Product(market: Market, symbol: string)

  datatype Level = Level(price: real, quantity: real)

  type Side = map<real, real>

  predicate ValidLevels(levels: seq<Level>) {
    forall i :: 0 <= i < |levels| ==> levels[i].price > 0.0 && levels[i].quantity >= 0.0
  }

  datatype Snapshot = Snapshot(product: Product, lastUpdateId: int, bids: seq<Level>, asks: seq<Level>) {
    /** The constructor refuses anything else. */
    predicate Valid() {
      product.symbol != "" && lastUpdateId >= 0 && ValidLevels(bids) && ValidLevels(asks)
    }
  }

  /** One depth event: it covers the update ids from `first` to `final` with absolute quantities. */
  datatype Update = Update(
    product: Product, first: int, final: int, previous: Option<int>, bids: seq<Level>, asks: seq<Level>)
  {
    /** The constructor refuses anything else. */
    predicate Valid() {
      && product.symbol != "" && 0 <= first <= final
      && (product.market == Spot <==> previous.None?)
      && (previous.Some? ==> previous.value >= 0)
      && ValidLevels(bids) && ValidLevels(asks)
    }
  }

  // ---------------------------------------------------------------- the book as a value

  /** A level of zero quantity removes its price; removing an absent price is no error. */
  function Put(side: Side, level: Level): Side {
    if level.quantity == 0.0 then side - {level.price} else side[level.price := level.quantity]
  }

  function Replay(side: Side, levels: seq<Level>): Side {
    if levels == [] then side else Put(Replay(side, levels[..|levels| - 1]), levels[|levels| - 1])
  }

  datatype State = State(updateId: int, bids: Side, asks: Side) {
    function After(u: Update): State {
      State(u.final, Replay(bids, u.bids), Replay(asks, u.asks))
    }
  }

  function Opening(s: Snapshot): State {
    State(s.lastUpdateId, Replay(map[], s.bids), Replay(map[], s.asks))
  }

  /** Quantity at a price; no level means none. */
  function QuantityAt(side: Side, price: real): real {
    if price in side then side[price] else 0.0
  }

  /** What a list of levels says of one price: its last word. */
  function LastWord(levels: seq<Level>, price: real): Option<real> {
    if levels == [] then None
    else
      var n := |levels| - 1;
      if levels[n].price == price then Some(levels[n].quantity) else LastWord(levels[..n], price)
  }

  /** Replaying levels gives each price the last word on it, and leaves every other price alone. */
  lemma {:induction false} ReplayGivesLastWord(side: Side, levels: seq<Level>, price: real)
    ensures QuantityAt(Replay(side, levels), price) ==
            if LastWord(levels, price).Some? then LastWord(levels, price).value else QuantityAt(side, price)
  {
    if levels != [] {
      ReplayGivesLastWord(side, levels[..|levels| - 1], price);
    }
  }

  lemma ReplayGrows(side: Side, levels: seq<Level>, level: Level)
    ensures Replay(side, levels + [level]) == Put(Replay(side, levels), level)
  {
    assert (levels + [level])[..|levels|] == levels;
  }

  /** Sides never hold an empty level. */
  ghost predicate Positive(side: Side) {
    forall p :: p in side ==> p > 0.0 && side[p] > 0.0
  }

  lemma {:induction false} ReplayStaysPositive(side: Side, levels: seq<Level>)
    requires Positive(side) && ValidLevels(levels)
    ensures Positive(Replay(side, levels))
  {
    if levels != [] {
      ReplayStaysPositive(side, levels[..|levels| - 1]);
    }
  }

  // ---------------------------------------------------------------- best prices

  predicate Better(isBid: bool, p: real, q: real) {
    if isBid then p > q else p < q
  }

  /** No price of the side is better. */
  ghost predicate Bounds(side: Side, best: Option<real>, isBid: bool) {
    if best.None? then side == map[] else forall p :: p in side ==> !Better(isBid, p, best.value)
  }

  ghost predicate IsBest(side: Side, best: Option<real>, isBid: bool) {
    Bounds(side, best, isBid) && (best.Some? ==> best.value in side)
  }

  /** The search that the kept price saves. */
  method RecomputeBest(side: Side, isBid: bool) returns (best: Option<real>)
    ensures IsBest(side, best, isBid)
  {
    if side.Keys == {} {
      return None;
    }
    SomePrice(side.Keys);
    var p :| p in side.Keys;
    best := Some(p);
    var rest := side.Keys - {p};
    while rest != {}
      invariant best.Some? && best.value in side && rest <= side.Keys
      invariant forall q :: q in side ==> q in rest || !Better(isBid, q, best.value)
      decreases rest
    {
      SomePrice(rest);
      var q :| q in rest;
      rest := rest - {q};
      if Better(isBid, q, best.value) {
        best := Some(q);
      }
    }
  }

  lemma SomePrice(prices: set<real>)
    ensures prices == {} || exists p :: p in prices
  {
    if forall p :: p !in prices {
      assert prices == {};
    }
  }

  /** Applies levels one by one, touching the best price only where it must change. */
  method ApplySide(side: Side, levels: seq<Level>, best: Option<real>, isBid: bool)
    returns (after: Side, bestAfter: Option<real>)
    requires IsBest(side, best, isBid)
    ensures after == Replay(side, levels) && IsBest(after, bestAfter, isBid)
  {
    after, bestAfter := side, best;
    var bestDeleted := false;
    var i := 0;
    while i < |levels|
      invariant 0 <= i <= |levels| && after == Replay(side, levels[..i])
      invariant Bounds(after, bestAfter, isBid)
      invariant bestAfter.Some? && !bestDeleted ==> bestAfter.value in after
    {
      var level := levels[i];
      assert levels[..i + 1] == levels[..i] + [level];
      ReplayGrows(side, levels[..i], level);
      if level.quantity == 0.0 {
        after := after - {level.price};
        if bestAfter.Some? && level.price == bestAfter.value {
          bestDeleted := true;
        }
      } else {
        after := after[level.price := level.quantity];
        if bestAfter.None? || Better(isBid, level.price, bestAfter.value) {
          bestAfter := Some(level.price);
        }
      }
      i := i + 1;
    }
    assert levels[..i] == levels;
    if bestDeleted {
      bestAfter := RecomputeBest(after, isBid);
    } else if after == map[] {
      bestAfter := None;
    } else if bestAfter.None? || bestAfter.value !in after {
      bestAfter := RecomputeBest(after, isBid);
    }
  }

  class Book {
    const product: Product
    var updateId: int
    var bids: Side
    var asks: Side
    var bestBidPrice: Option<real>
    var bestAskPrice: Option<real>

    ghost predicate Valid()
      reads this
    {
      IsBest(bids, bestBidPrice, true) && IsBest(asks, bestAskPrice, false)
    }

    function Contents(): State
      reads this
    {
      State(updateId, bids, asks)
    }

    constructor (s: Snapshot)
      ensures Valid() && Contents() == Opening(s) && product == s.product
    {
      product, updateId := s.product, s.lastUpdateId;
      bids, asks := Replay(map[], s.bids), Replay(map[], s.asks);
      bestBidPrice, bestAskPrice := None, None;
      new;
      bestBidPrice := RecomputeBest(bids, true);
      bestAskPrice := RecomputeBest(asks, false);
    }

    method Apply(u: Update)
      requires Valid() && u.product == product
      modifies this
      ensures Valid() && Contents() == old(Contents()).After(u)
    {
      bids, bestBidPrice := ApplySide(bids, u.bids, bestBidPrice, true);
      asks, bestAskPrice := ApplySide(asks, u.asks, bestAskPrice, false);
      updateId := u.final;
    }

    /** Read off the two kept prices, this is a statement about all prices of both sides. */
    method IsCrossed() returns (crossed: bool)
      requires Valid()
      ensures crossed <==> exists p, q :: p in bids && q in asks && p >= q
    {
      crossed := bestBidPrice.Some? && bestAskPrice.Some? && bestBidPrice.value >= bestAskPrice.value;
    }
  }
}
