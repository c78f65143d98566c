/** The FTX order book (src/ftx_model.rs): bids and asks as maps from price
    to quantity, kept up to date from `partial` and `update` messages, and
    queried for the best levels and for the average price of a market order.
    Prices and quantities are exact decimals in the source, `real` here. */
module FtxOrderbook {
  import opened Common

  datatype Side = Buy | Sell

  datatype OrderbookAction = Partial | Update

  /** One price level: (price, quantity). */
  type Level = (real, real)

  /** The book part of an `orderbook` channel message. */
  datatype OrderbookData = OrderbookData(action: OrderbookAction, bids: seq<Level>, asks: seq<Level>)

  datatype Orderbook = Orderbook(symbol: string, bids: map<real, real>, asks: map<real, real>)

  // -----------------------------------------------------------------------
  // Applying a delta

  /** True when a listed level deletes its price instead of setting it: only
      an `update` does that, and only for quantity zero. */
  predicate Removes(action: OrderbookAction, quantity: real)
  {
    action.Update? && quantity == 0.0
  }

  /** The effect of one listed level on one side of the book. */
  function ApplyLevel(side: map<real, real>, level: Level, action: OrderbookAction): map<real, real>
  {
    if Removes(action, level.1) then side - {level.0} else side[level.0 := level.1]
  }

  /** Some level of `levels` has price `p`. */
  predicate Listed(levels: seq<Level>, p: real)
  {
    exists i :: 0 <= i < |levels| && levels[i].0 == p
  }

  /** Level `i` is the last one listing its price. */
  predicate LastAt(levels: seq<Level>, i: int)
    requires 0 <= i < |levels|
  {
    forall j :: i < j < |levels| ==> levels[j].0 != levels[i].0
  }

  /** What one side must look like after a delta with `levels`: prices not
      listed keep their level; a listed price takes the quantity of its last
      listing, or disappears when that listing removes it. */
  ghost predicate SideAfter(before: map<real, real>, levels: seq<Level>, action: OrderbookAction,
                            after: map<real, real>)
  {
    && (forall p :: !Listed(levels, p) ==> (p in after <==> p in before))
    && (forall p :: p in after && !Listed(levels, p) ==> p in before && after[p] == before[p])
    && (forall i :: 0 <= i < |levels| && LastAt(levels, i) ==>
          if Removes(action, levels[i].1) then levels[i].0 !in after
          else levels[i].0 in after && after[levels[i].0] == levels[i].1)
  }

  /** One more level keeps `SideAfter` true of the longer delta. */
  lemma UpdateSideStep(before: map<real, real>, levels: seq<Level>, action: OrderbookAction,
                       mid: map<real, real>)
    requires |levels| > 0
    requires SideAfter(before, levels[..|levels| - 1], action, mid)
    ensures SideAfter(before, levels, action, ApplyLevel(mid, levels[|levels| - 1], action))
  {
    var n := |levels|;
    var init := levels[..n - 1];
    var last := levels[n - 1];
    var after := ApplyLevel(mid, last, action);
    forall p | !Listed(levels, p)
      ensures (p in after <==> p in before)
      ensures p in after ==> p in before && after[p] == before[p]
    {
      assert p != last.0 by {
        assert levels[n - 1].0 == last.0;
      }
    }
    forall i | 0 <= i < n && LastAt(levels, i)
      ensures if Removes(action, levels[i].1) then levels[i].0 !in after
              else levels[i].0 in after && after[levels[i].0] == levels[i].1
    {
      if i < n - 1 {
        assert levels[i] == init[i];
        assert levels[i].0 != last.0;
        assert LastAt(init, i) by {
          forall j | i < j < |init| ensures init[j].0 != init[i].0 {
            assert init[j] == levels[j];
          }
        }
      }
    }
  }

  /** Applies the listed levels of one side in order (the source's `for`
      loop over `data.bids` or `data.asks`). */
  function UpdateSide(side: map<real, real>, levels: seq<Level>, action: OrderbookAction): (r: map<real, real>)
    ensures SideAfter(side, levels, action, r)
    decreases |levels|
  {
    if |levels| == 0 then side
    else
      var mid := UpdateSide(side, levels[..|levels| - 1], action);
      UpdateSideStep(side, levels, action, mid);
      ApplyLevel(mid, levels[|levels| - 1], action)
  }

  /** A fresh, empty book for `symbol` (`Orderbook::new`). */
  function New(symbol: string): (b: Orderbook)
    ensures b.symbol == symbol
    ensures |b.bids| == 0 && |b.asks| == 0
  {
    Orderbook(symbol, map[], map[])
  }

  /** `Orderbook::update`: bids of the delta act on the bids only, asks on the
      asks only, and the symbol never changes. */
  function Update(book: Orderbook, data: OrderbookData): (r: Orderbook)
    ensures r.symbol == book.symbol
    ensures SideAfter(book.bids, data.bids, data.action, r.bids)
    ensures SideAfter(book.asks, data.asks, data.action, r.asks)
    ensures data.bids == [] ==> r.bids == book.bids
    ensures data.asks == [] ==> r.asks == book.asks
  {
    Orderbook(book.symbol, UpdateSide(book.bids, data.bids, data.action),
              UpdateSide(book.asks, data.asks, data.action))
  }

  /** Every listed price has a last listing. */
  lemma {:induction false} LastListing(levels: seq<Level>, p: real) returns (i: nat)
    requires Listed(levels, p)
    ensures i < |levels| && levels[i].0 == p && LastAt(levels, i)
  {
    var n := |levels|;
    if levels[n - 1].0 == p {
      i := n - 1;
    } else {
      var init := levels[..n - 1];
      var k :| 0 <= k < n && levels[k].0 == p;
      assert init[k].0 == p;
      i := LastListing(init, p);
      assert levels[i] == init[i];
      forall j | i < j < n ensures levels[j].0 != levels[i].0 {
        if j < n - 1 {
          assert levels[j] == init[j];
        }
      }
    }
  }

  /** `SideAfter` pins the new side down completely: the contract of
      `UpdateSide` is the whole truth about it. */
  lemma SideAfterUnique(before: map<real, real>, levels: seq<Level>, action: OrderbookAction,
                        a1: map<real, real>, a2: map<real, real>)
    requires SideAfter(before, levels, action, a1)
    requires SideAfter(before, levels, action, a2)
    ensures a1 == a2
  {
    forall p ensures (p in a1 <==> p in a2) && (p in a1 ==> a1[p] == a2[p]) {
      if Listed(levels, p) {
        var i := LastListing(levels, p);
      }
    }
    assert a1.Keys == a2.Keys;
  }

  /** A `partial` never deletes: after it every listed price is present with
      the quantity of its last listing, zero included, and every price of the
      old side is still present (a partial merges, it does not replace). */
  lemma PartialMerges(book: Orderbook, data: OrderbookData, p: real)
    requires data.action.Partial?
    ensures p in book.bids ==> p in Update(book, data).bids
    ensures p in book.asks ==> p in Update(book, data).asks
    ensures Listed(data.bids, p) ==> p in Update(book, data).bids
    ensures Listed(data.asks, p) ==> p in Update(book, data).asks
  {
    if Listed(data.bids, p) {
      var i := LastListing(data.bids, p);
    }
    if Listed(data.asks, p) {
      var i := LastListing(data.asks, p);
    }
  }

  /** An `update` whose every listing of a price on a side has quantity
      zero leaves that price absent from that side. */
  lemma UpdateRemovesZeroLevels(book: Orderbook, data: OrderbookData, p: real)
    requires data.action.Update?
    ensures (Listed(data.bids, p) && forall i :: 0 <= i < |data.bids| && data.bids[i].0 == p ==> data.bids[i].1 == 0.0)
            ==> p !in Update(book, data).bids
    ensures (Listed(data.asks, p) && forall i :: 0 <= i < |data.asks| && data.asks[i].0 == p ==> data.asks[i].1 == 0.0)
            ==> p !in Update(book, data).asks
  {
    if Listed(data.bids, p) {
      var i := LastListing(data.bids, p);
    }
    if Listed(data.asks, p) {
      var i := LastListing(data.asks, p);
    }
  }

  // -----------------------------------------------------------------------
  // Best levels

  /** A finite non-empty set of prices has a greatest element. */
  lemma {:induction false} MaxExists(s: set<real>) returns (x: real)
    requires |s| > 0
    ensures x in s && forall y :: y in s ==> y <= x
  {
    var z := AnyElement(s);
    var rest := s - {z};
    if |rest| == 0 {
      x := z;
      forall y | y in s ensures y <= x {
        assert y !in rest;
      }
    } else {
      var m := MaxExists(rest);
      x := if z <= m then m else z;
      forall y | y in s ensures y <= x {
        if y != z {
          assert y in rest;
        }
      }
    }
  }

  /** A finite non-empty set of prices has a least element. */
  lemma {:induction false} MinExists(s: set<real>) returns (x: real)
    requires |s| > 0
    ensures x in s && forall y :: y in s ==> x <= y
  {
    var z := AnyElement(s);
    var rest := s - {z};
    if |rest| == 0 {
      x := z;
      forall y | y in s ensures x <= y {
        assert y !in rest;
      }
    } else {
      var m := MinExists(rest);
      x := if m <= z then m else z;
      forall y | y in s ensures x <= y {
        if y != z {
          assert y in rest;
        }
      }
    }
  }

  /** The highest price on a non-empty side. */
  function MaxKey(m: map<real, real>): (p: real)
    requires |m| > 0
    ensures p in m && forall q :: q in m ==> q <= p
  {
    assert exists p :: p in m && forall q :: q in m ==> q <= p by {
      var x := MaxExists(m.Keys);
      assert x in m && forall q :: q in m ==> q <= x;
    }
    var p :| p in m && forall q :: q in m ==> q <= p; p
  }

  /** The lowest price on a non-empty side. */
  function MinKey(m: map<real, real>): (p: real)
    requires |m| > 0
    ensures p in m && forall q :: q in m ==> p <= q
  {
    assert exists p :: p in m && forall q :: q in m ==> p <= q by {
      var x := MinExists(m.Keys);
      assert x in m && forall q :: q in m ==> x <= q;
    }
    var p :| p in m && forall q :: q in m ==> p <= q; p
  }

  /** `bid_price`: the highest bid price, if any. */
  function BidPrice(book: Orderbook): (r: Option<real>)
    ensures r.None? <==> |book.bids| == 0
    ensures r.Some? ==> r.value in book.bids && forall q :: q in book.bids ==> q <= r.value
  {
    if |book.bids| == 0 then None else Some(MaxKey(book.bids))
  }

  /** `ask_price`: the lowest ask price, if any. */
  function AskPrice(book: Orderbook): (r: Option<real>)
    ensures r.None? <==> |book.asks| == 0
    ensures r.Some? ==> r.value in book.asks && forall q :: q in book.asks ==> r.value <= q
  {
    if |book.asks| == 0 then None else Some(MinKey(book.asks))
  }

  /** `mid_price`: the average of best bid and best ask, when both exist. */
  function MidPrice(book: Orderbook): (r: Option<real>)
    ensures r.Some? <==> |book.bids| > 0 && |book.asks| > 0
    ensures r.Some? ==> r.value == (BidPrice(book).value + AskPrice(book).value) / 2.0
  {
    match (BidPrice(book), AskPrice(book))
    case (Some(b), Some(a)) => Some((b + a) / 2.0)
    case _ => None
  }

  /** In a book that is not crossed, the mid price lies between best bid and
      best ask. */
  lemma MidPriceBetween(book: Orderbook)
    requires |book.bids| > 0 && |book.asks| > 0
    requires BidPrice(book).value <= AskPrice(book).value
    ensures BidPrice(book).value <= MidPrice(book).value <= AskPrice(book).value
  {
  }

  /** `best_bid`: the highest bid price with its quantity. */
  function BestBid(book: Orderbook): (r: Option<Level>)
    ensures r.None? <==> |book.bids| == 0
    ensures r.Some? ==> r.value.0 in book.bids && r.value.1 == book.bids[r.value.0]
    ensures r.Some? ==> r.value.0 == BidPrice(book).value
  {
    if |book.bids| == 0 then None else var p := MaxKey(book.bids); Some((p, book.bids[p]))
  }

  /** `best_ask`: the lowest ask price with its quantity. */
  function BestAsk(book: Orderbook): (r: Option<Level>)
    ensures r.None? <==> |book.asks| == 0
    ensures r.Some? ==> r.value.0 in book.asks && r.value.1 == book.asks[r.value.0]
    ensures r.Some? ==> r.value.0 == AskPrice(book).value
  {
    if |book.asks| == 0 then None else var p := MinKey(book.asks); Some((p, book.asks[p]))
  }

  /** `best_bid_and_ask`: both best levels, when both sides are non-empty. */
  function BestBidAndAsk(book: Orderbook): (r: Option<(Level, Level)>)
    ensures r.Some? <==> |book.bids| > 0 && |book.asks| > 0
    ensures r.Some? ==> r.value == (BestBid(book).value, BestAsk(book).value)
  {
    match (BestBid(book), BestAsk(book))
    case (Some(b), Some(a)) => Some((b, a))
    case _ => None
  }

  // -----------------------------------------------------------------------
  // Walking the book

  /** `l` lists every level of `m` exactly once. */
  ghost predicate Lists(l: seq<Level>, m: map<real, real>)
  {
    && |l| == |m|
    && (forall i :: 0 <= i < |l| ==> l[i].0 in m && m[l[i].0] == l[i].1)
    && (forall p :: p in m ==> exists i :: 0 <= i < |l| && l[i].0 == p)
  }

  predicate Increasing(l: seq<Level>)
  {
    forall i, j :: 0 <= i < j < |l| ==> l[i].0 < l[j].0
  }

  predicate Decreasing(l: seq<Level>)
  {
    forall i, j :: 0 <= i < j < |l| ==> l[i].0 > l[j].0
  }

  /** Putting the lowest level in front of an ascending listing of the rest
      gives an ascending listing of the whole side. */
  lemma AscendingCons(m: map<real, real>, p: real, tail: seq<Level>)
    requires p in m && forall q :: q in m ==> p <= q
    requires Lists(tail, m - {p}) && Increasing(tail)
    ensures Lists([(p, m[p])] + tail, m) && Increasing([(p, m[p])] + tail)
  {
    ConsListsSide(m, p, tail);
    ConsIncreasing(m, p, tail);
  }

  lemma ConsListsSide(m: map<real, real>, p: real, tail: seq<Level>)
    requires p in m
    requires Lists(tail, m - {p})
    ensures Lists([(p, m[p])] + tail, m)
  {
    var rest := m - {p};
    var l := [(p, m[p])] + tail;
    assert rest.Keys == m.Keys - {p};
    assert |l| == |m|;
    forall i | 0 <= i < |l| ensures l[i].0 in m && m[l[i].0] == l[i].1 {
      if i > 0 {
        assert l[i] == tail[i - 1];
        assert tail[i - 1].0 in rest;
      }
    }
    forall q | q in m ensures exists i :: 0 <= i < |l| && l[i].0 == q {
      if q == p {
        assert l[0].0 == q;
      } else {
        assert q in rest;
        var i :| 0 <= i < |tail| && tail[i].0 == q;
        assert l[i + 1].0 == q;
      }
    }
  }

  lemma ConsIncreasing(m: map<real, real>, p: real, tail: seq<Level>)
    requires p in m && forall q :: q in m ==> p <= q
    requires forall i :: 0 <= i < |tail| ==> tail[i].0 in m - {p}
    requires Increasing(tail)
    ensures Increasing([(p, m[p])] + tail)
  {
    var l := [(p, m[p])] + tail;
    forall i, j | 0 <= i < j < |l| ensures l[i].0 < l[j].0 {
      assert l[j] == tail[j - 1];
      if i > 0 {
        assert l[i] == tail[i - 1];
      } else {
        assert tail[j - 1].0 in m - {p};
      }
    }
  }

  /** The levels of a side in ascending price order (a `BTreeMap` iterator). */
  function Ascending(m: map<real, real>): (l: seq<Level>)
    ensures Lists(l, m) && Increasing(l)
    decreases |m|
  {
    if |m| == 0 then []
    else
      var p := MinKey(m);
      var rest := m - {p};
      assert rest.Keys == m.Keys - {p};
      var tail := Ascending(rest);
      AscendingCons(m, p, tail);
      [(p, m[p])] + tail
  }

  /** `l` backwards. */
  function Reverse(l: seq<Level>): (r: seq<Level>)
    ensures |r| == |l|
    ensures forall i :: 0 <= i < |l| ==> r[i] == l[|l| - 1 - i]
  {
    seq(|l|, i requires 0 <= i < |l| => l[|l| - 1 - i])
  }

  /** Reversing an ascending listing gives a descending one of the same side. */
  lemma ReverseAscending(m: map<real, real>, a: seq<Level>)
    requires Lists(a, m) && Increasing(a)
    ensures Lists(Reverse(a), m) && Decreasing(Reverse(a))
  {
    ReverseLists(m, a);
    var l := Reverse(a);
    forall i, j | 0 <= i < j < |l| ensures l[i].0 > l[j].0 {
      assert l[i] == a[|a| - 1 - i] && l[j] == a[|a| - 1 - j];
    }
  }

  lemma ReverseLists(m: map<real, real>, a: seq<Level>)
    requires Lists(a, m)
    ensures Lists(Reverse(a), m)
  {
    var l := Reverse(a);
    forall i | 0 <= i < |l| ensures l[i].0 in m && m[l[i].0] == l[i].1 {
      assert l[i] == a[|a| - 1 - i];
    }
    forall p | p in m ensures exists i :: 0 <= i < |l| && l[i].0 == p {
      var k :| 0 <= k < |a| && a[k].0 == p;
      assert l[|a| - 1 - k].0 == p;
    }
  }

  /** The levels of a side in descending price order (a reversed iterator). */
  function Descending(m: map<real, real>): (l: seq<Level>)
    ensures Lists(l, m) && Decreasing(l)
  {
    var a := Ascending(m);
    ReverseAscending(m, a);
    Reverse(a)
  }

  /** The levels a market order consumes, best price first: asks from the
      lowest for a buy, bids from the highest for a sell. */
  function Ladder(book: Orderbook, side: Side): seq<Level>
  {
    match side
    case Buy => Ascending(book.asks)
    case Sell => Descending(book.bids)
  }

  function SumQty(l: seq<Level>): real
  {
    if |l| == 0 then 0.0 else l[0].1 + SumQty(l[1..])
  }

  /** Σ price·quantity. */
  function Dot(l: seq<Level>): real
  {
    if |l| == 0 then 0.0 else l[0].0 * l[0].1 + Dot(l[1..])
  }

  /** The fills of a market order for `remaining` against `ladder` (step 1 of
      `quote`), or `None` when the ladder runs out first. Each fill takes the
      price of the level at the same position and either the whole level or,
      for the last one only, a positive part of it. */
  function Fill(ladder: seq<Level>, remaining: real): (r: Option<seq<Level>>)
    ensures r.Some? ==> |r.value| <= |ladder|
    ensures r.Some? ==> forall k :: 0 <= k < |r.value| ==> r.value[k].0 == ladder[k].0
    ensures r.Some? ==> forall k :: 0 <= k < |r.value| - 1 ==> r.value[k] == ladder[k]
    ensures r.Some? ==> forall k :: 0 <= k < |r.value| ==>
              r.value[k].1 == ladder[k].1 || 0.0 < r.value[k].1 < ladder[k].1
    ensures r.Some? && remaining > 0.0 ==> |r.value| > 0 && SumQty(r.value) == remaining
    ensures remaining <= 0.0 ==> r == Some([])
    decreases |ladder|
  {
    if remaining <= 0.0 then Some([])
    else if |ladder| == 0 then None
    else if ladder[0].1 <= remaining then
      match Fill(ladder[1..], remaining - ladder[0].1)
      case None => None
      case Some(rest) =>
        var f := [ladder[0]] + rest;
        assert f[1..] == rest;
        Some(f)
    else
      Some([(ladder[0].0, remaining)])
  }

  /** `quote`: the average execution price of a market order for `quantity`,
      or `None` when the book cannot fill it. Dividing by a zero quantity
      panics in the source, so callers must not ask for it; a negative
      quantity fills nothing and quotes zero. */
  function Quote(book: Orderbook, side: Side, quantity: real): (r: Option<real>)
    requires quantity != 0.0
    ensures quantity > 0.0 && NonNegative(book.bids) && NonNegative(book.asks) ==>
              (r.None? <==> quantity > Depth(book, side))
    ensures r.Some? ==> QuoteFills(book, side, quantity).Some?
                        && r.value == Dot(QuoteFills(book, side, quantity).value) / quantity
    ensures quantity < 0.0 ==> r == Some(0.0)
  {
    LadderFillFailsIffTooLarge(book, side, quantity);
    NegativeFillsNothing(book, side, quantity);
    var fills := QuoteFills(book, side, quantity);
    if fills.None? then None else Some(Dot(fills.value) / quantity)
  }

  /** A negative quantity takes no fills, so it costs nothing. */
  lemma NegativeFillsNothing(book: Orderbook, side: Side, quantity: real)
    ensures quantity < 0.0 ==> QuoteFills(book, side, quantity) == Some([]) && Dot([]) / quantity == 0.0
  {
  }

  // -----------------------------------------------------------------------
  // Properties of quote

  predicate NonNegative(m: map<real, real>)
  {
    forall p :: p in m ==> m[p] >= 0.0
  }

  predicate NonNegativeLevels(l: seq<Level>)
  {
    forall k :: 0 <= k < |l| ==> l[k].1 >= 0.0
  }

  /** All the quantity resting on a side. */
  function Total(m: map<real, real>): real
  {
    SumQty(Ascending(m))
  }

  /** The quantity a market order on `side` can consume. */
  function Depth(book: Orderbook, side: Side): real
  {
    match side
    case Buy => Total(book.asks)
    case Sell => Total(book.bids)
  }

  lemma {:induction false} SumQtyNonNegative(l: seq<Level>)
    requires NonNegativeLevels(l)
    ensures SumQty(l) >= 0.0
  {
    if |l| > 0 {
      SumQtyNonNegative(l[1..]);
    }
  }

  lemma {:induction false} SumQtyAppend(a: seq<Level>, b: seq<Level>)
    ensures SumQty(a + b) == SumQty(a) + SumQty(b)
  {
    if |a| > 0 {
      assert (a + b)[1..] == a[1..] + b;
      SumQtyAppend(a[1..], b);
    } else {
      assert a + b == b;
    }
  }

  lemma {:induction false} SumQtyReverse(l: seq<Level>)
    ensures SumQty(Reverse(l)) == SumQty(l)
  {
    if |l| > 0 {
      var r := Reverse(l);
      assert r == Reverse(l[1..]) + [l[0]];
      SumQtyAppend(Reverse(l[1..]), [l[0]]);
      SumQtyReverse(l[1..]);
      assert [l[0]][1..] == [];
    }
  }

  /** The ladder of a side holds exactly that side's quantity. */
  lemma LadderDepth(book: Orderbook, side: Side)
    ensures SumQty(Ladder(book, side)) == Depth(book, side)
  {
    if side == Sell {
      SumQtyReverse(Ascending(book.bids));
    }
  }

  /** With non-negative levels, filling a positive quantity fails exactly when
      it exceeds everything in the ladder. */
  lemma {:induction false} FillFailsIffTooLarge(ladder: seq<Level>, remaining: real)
    requires remaining > 0.0
    requires NonNegativeLevels(ladder)
    ensures Fill(ladder, remaining).None? <==> remaining > SumQty(ladder)
  {
    if |ladder| > 0 {
      var rest := ladder[1..];
      SumQtyNonNegative(rest);
      if ladder[0].1 < remaining {
        FillFailsIffTooLarge(rest, remaining - ladder[0].1);
      }
    }
  }

  /** With non-negative quantities, walking a side's ladder for a positive
      amount fails exactly when the amount exceeds the side's depth. */
  lemma LadderFillFailsIffTooLarge(book: Orderbook, side: Side, quantity: real)
    ensures quantity > 0.0 && NonNegative(book.bids) && NonNegative(book.asks) ==>
              (Fill(Ladder(book, side), quantity).None? <==> quantity > Depth(book, side))
  {
    if quantity > 0.0 && NonNegative(book.bids) && NonNegative(book.asks) {
      LadderDepth(book, side);
      if side == Buy {
        ListingNonNegative(book.asks, Ascending(book.asks));
      } else {
        ListingNonNegative(book.bids, Descending(book.bids));
      }
      FillFailsIffTooLarge(Ladder(book, side), quantity);
    }
  }

  lemma MulMonotone(a: real, b: real, c: real)
    requires a <= b && c >= 0.0
    ensures a * c <= b * c
  {
  }

  /** A weighted sum with non-negative weights lies between the smallest and
      the largest price times the total weight. */
  lemma {:induction false} DotBounds(f: seq<Level>, lo: real, hi: real)
    requires forall k :: 0 <= k < |f| ==> lo <= f[k].0 <= hi && f[k].1 >= 0.0
    ensures lo * SumQty(f) <= Dot(f) <= hi * SumQty(f)
  {
    if |f| > 0 {
      DotBounds(f[1..], lo, hi);
      MulMonotone(lo, f[0].0, f[0].1);
      MulMonotone(f[0].0, hi, f[0].1);
    }
  }

  lemma DivBounds(x: real, q: real, lo: real, hi: real)
    requires q > 0.0
    requires lo * q <= x <= hi * q
    ensures lo <= x / q <= hi
  {
  }

  /** The fills of a successful positive quote. */
  function QuoteFills(book: Orderbook, side: Side, quantity: real): Option<seq<Level>>
  {
    Fill(Ladder(book, side), quantity)
  }

  /** On a ladder of non-negative levels all fill quantities are non-negative. */
  lemma FillWeightsNonNegative(ladder: seq<Level>, remaining: real)
    requires NonNegativeLevels(ladder)
    requires Fill(ladder, remaining).Some?
    ensures NonNegativeLevels(Fill(ladder, remaining).value)
  {
    var f := Fill(ladder, remaining).value;
    forall k | 0 <= k < |f| ensures f[k].1 >= 0.0 {
      assert f[k].1 == ladder[k].1 || 0.0 < f[k].1;
    }
  }

  /** The average of fills whose prices lie in `[lo, hi]`. */
  lemma AverageWithin(f: seq<Level>, quantity: real, lo: real, hi: real)
    requires quantity > 0.0 && SumQty(f) == quantity
    requires NonNegativeLevels(f)
    requires forall k :: 0 <= k < |f| ==> lo <= f[k].0 <= hi
    ensures lo <= Dot(f) / quantity <= hi
  {
    DotBounds(f, lo, hi);
    DivBounds(Dot(f), quantity, lo, hi);
  }

  lemma ListingNonNegative(m: map<real, real>, l: seq<Level>)
    requires NonNegative(m) && Lists(l, m)
    ensures NonNegativeLevels(l)
  {
    forall k | 0 <= k < |l| ensures l[k].1 >= 0.0 {
      var p := l[k].0;
      assert p in m && m[p] == l[k].1;
      assert forall q :: q in m ==> m[q] >= 0.0;
      assert m[p] >= 0.0;
    }
  }

  /** The first ascending ask is the best ask. */
  lemma AscendingStartsAtAskPrice(book: Orderbook)
    requires |book.asks| > 0
    ensures Ascending(book.asks)[0].0 == AskPrice(book).value
  {
    var l := Ascending(book.asks);
    var a := AskPrice(book).value;
    var i :| 0 <= i < |l| && l[i].0 == a;
    assert l[0].0 in book.asks;
  }

  /** The first descending bid is the best bid. */
  lemma DescendingStartsAtBidPrice(book: Orderbook)
    requires |book.bids| > 0
    ensures Descending(book.bids)[0].0 == BidPrice(book).value
  {
    var l := Descending(book.bids);
    var b := BidPrice(book).value;
    var i :| 0 <= i < |l| && l[i].0 == b;
    assert l[0].0 in book.bids;
  }

  /** A filled buy pays between the best ask and the highest ask it reached. */
  lemma BuyQuoteBounds(book: Orderbook, quantity: real, f: seq<Level>)
    requires quantity > 0.0 && NonNegative(book.asks)
    requires Fill(Ascending(book.asks), quantity) == Some(f)
    ensures |f| > 0 && AskPrice(book).value <= Dot(f) / quantity <= f[|f| - 1].0
  {
    var l := Ascending(book.asks);
    ListingNonNegative(book.asks, l);
    FillWeightsNonNegative(l, quantity);
    AscendingStartsAtAskPrice(book);
    var n := |f|;
    forall k | 0 <= k < n ensures l[0].0 <= f[k].0 <= f[n - 1].0 {
      assert f[k].0 == l[k].0 && f[n - 1].0 == l[n - 1].0;
    }
    AverageWithin(f, quantity, l[0].0, f[n - 1].0);
  }

  /** A filled sell receives between the lowest bid it reached and the best bid. */
  lemma SellQuoteBounds(book: Orderbook, quantity: real, f: seq<Level>)
    requires quantity > 0.0 && NonNegative(book.bids)
    requires Fill(Descending(book.bids), quantity) == Some(f)
    ensures |f| > 0 && f[|f| - 1].0 <= Dot(f) / quantity <= BidPrice(book).value
  {
    var l := Descending(book.bids);
    ListingNonNegative(book.bids, l);
    FillWeightsNonNegative(l, quantity);
    DescendingStartsAtBidPrice(book);
    var n := |f|;
    forall k | 0 <= k < n ensures f[n - 1].0 <= f[k].0 <= l[0].0 {
      assert f[k].0 == l[k].0 && f[n - 1].0 == l[n - 1].0;
    }
    AverageWithin(f, quantity, f[n - 1].0, l[0].0);
  }

  /** A successful quote takes the best levels first and sums its fills to the
      order quantity; its price is the fill-weighted average, so it lies
      between the best price (the best ask for a buy, the best bid for a sell)
      and the worst price the order reached. */
  lemma QuoteIsBestFirstAverage(book: Orderbook, side: Side, quantity: real)
    requires quantity > 0.0
    requires NonNegative(book.bids) && NonNegative(book.asks)
    requires Quote(book, side, quantity).Some?
    ensures QuoteFills(book, side, quantity).Some?
    ensures var f := QuoteFills(book, side, quantity).value;
            && |f| > 0
            && SumQty(f) == quantity
            && (forall k :: 0 <= k < |f| ==> f[k].0 == Ladder(book, side)[k].0)
            && Quote(book, side, quantity).value == Dot(f) / quantity
            && (side == Buy ==> AskPrice(book).value <= Quote(book, side, quantity).value <= f[|f| - 1].0)
            && (side == Sell ==> f[|f| - 1].0 <= Quote(book, side, quantity).value <= BidPrice(book).value)
  {
    var f := QuoteFills(book, side, quantity).value;
    if side == Buy {
      BuyQuoteBounds(book, quantity, f);
    } else {
      SellQuoteBounds(book, quantity, f);
    }
  }
}
