/** A buy or sell of one security and the cost and proceeds arithmetic that lot
    matching uses (FIFO.py, class Transaction). */
module Transactions {

  /** The part of `total` that falls to `part` out of `whole`: fees are
      allotted in proportion to shares. */
  function Share(total: real, part: real, whole: real): real
    requires whole != 0.0
  {
    total * part / whole
  }

  /** The whole takes all of the total. */
  lemma ShareWhole(total: real, whole: real)
    requires whole != 0.0
    ensures Share(total, whole, whole) == total
  {
    assert total * whole / whole == total;
  }

  /** No part takes nothing. */
  lemma ShareNone(total: real, whole: real)
    requires whole != 0.0
    ensures Share(total, 0.0, whole) == 0.0
  {
  }

  /** A part between none and the whole takes between none and all of a
      non-negative total. */
  lemma ShareBounds(total: real, part: real, whole: real)
    requires 0.0 <= part <= whole && whole > 0.0 && 0.0 <= total
    ensures 0.0 <= Share(total, part, whole) <= total
  {
    var r := Share(total, part, whole);
    assert r * whole == total * part;
    ProductBelow(total, part, whole);
    if r > total {
      ProductBelow(r, whole, whole);
    }
  }

  /** Scaling a non-negative factor by a smaller non-negative one. */
  lemma ProductBelow(a: real, b: real, c: real)
    requires 0.0 <= a && 0.0 <= b <= c
    ensures 0.0 <= a * b <= a * c
  {
  }

  /** The field values of a Transaction at one moment. A positive amount is a
      buy, a negative amount a sell; `costs` are the incidental fees of the
      trade and `date` orders the trades. */
  datatype TxData = TxData(amount: real, price: real, costs: real, date: int) {

    /** A buy has a positive amount; a zero amount is refused. */
    predicate IsBuy()
      requires amount != 0.0
    {
      amount > 0.0
    }

    /** Cost basis of the whole trade: its fees, plus the purchase price for a buy. */
    function TotalCosts(): real
      requires amount != 0.0
    {
      if IsBuy() then costs + amount * price else costs
    }

    /** Share of a sell's fees allotted to `x` of its shares. */
    function PartialCosts(x: real): real
      requires amount != 0.0 && !IsBuy() && x <= -amount
    {
      Share(costs, x, -amount)
    }

    /** Proceeds of selling `x` shares at this sell's price. */
    function Sales(x: real): real
      requires amount != 0.0 && !IsBuy()
    {
      x * price
    }

    /** Selling `x` shares out of a resting lot: the lot that remains and the
        cost basis of the part consumed. */
    function SellParts(x: real): (r: (TxData, real))
      requires x < amount && amount != 0.0
      ensures r.0.amount == amount - x && r.0.amount > 0.0
      ensures r.0.price == price && r.0.date == date
    {
      var partCosts := Share(costs, x, amount);
      (TxData(amount - x, price, costs - partCosts, date), partCosts + x * price)
    }

    /** The trade restated after a stock split by `multiplier`. */
    function Split(multiplier: real): (r: TxData)
      requires multiplier != 0.0
      ensures r.amount == amount * multiplier
      ensures r.costs == costs && r.date == date
      ensures multiplier > 0.0 ==> (r.amount > 0.0 <==> amount > 0.0)
    {
      TxData(amount * multiplier, price / multiplier, costs, date)
    }
  }

  /** A sell's fees are spread in proportion to the shares: all of its
      shares carry all of its fees, and a part carries no more than the whole. */
  lemma PartialCostsBounds(t: TxData, x: real)
    requires t.amount < 0.0 && x <= -t.amount
    ensures t.PartialCosts(-t.amount) == t.costs
    ensures 0.0 <= x && 0.0 <= t.costs ==> 0.0 <= t.PartialCosts(x) <= t.costs
  {
    ShareWhole(t.costs, -t.amount);
    if 0.0 <= x && 0.0 <= t.costs {
      ShareBounds(t.costs, x, -t.amount);
    }
  }

  /** Selling part of a lot moves cost basis, never creates or loses it: the
      lot keeps its fees in proportion to the shares left, and the basis
      returned plus the basis left is the lot's basis before. */
  lemma SellPartsConserves(t: TxData, x: real)
    requires x < t.amount && t.amount != 0.0
    ensures t.SellParts(x).0.costs == t.costs * (t.amount - x) / t.amount
    ensures var rest := t.SellParts(x).0;
            t.SellParts(x).1 + rest.costs + rest.amount * rest.price == t.costs + t.amount * t.price
  {
    var a := t.amount;
    assert t.costs - t.costs * x / a == t.costs * (a - x) / a;
    assert t.costs * x / a + x * t.price + (t.costs - t.costs * x / a) + (a - x) * t.price == t.costs + a * t.price;
  }

  /** A split keeps the purchase value, amount times price, of the trade. */
  lemma SplitKeepsValue(t: TxData, m: real)
    requires m != 0.0
    ensures t.Split(m).amount * t.Split(m).price == t.amount * t.price
  {
    assert t.amount * m * (t.price / m) == t.amount * t.price;
  }

  /** Splitting by `m` and then by `1/m` gives back the original trade. */
  lemma SplitRoundTrip(t: TxData, m: real)
    requires m != 0.0
    ensures t.Split(m).Split(1.0 / m) == t
  {
    var s := t.Split(m);
    assert s.amount * (1.0 / m) == t.amount * m * (1.0 / m) == t.amount;
    assert s.price / (1.0 / m) == t.price / m * m == t.price;
  }

  /** A trade record; `sell_parts` and `split` update it in place. */
  class Transaction {
    var amount: real
    var price: real
    var costs: real
    const date: int

    constructor (amount: real, price: real, costs: real, date: int)
      ensures Value() == TxData(amount, price, costs, date)
    {
      this.amount := amount;
      this.price := price;
      this.costs := costs;
      this.date := date;
    }

    function Value(): TxData
      reads this
    {
      TxData(amount, price, costs, date)
    }

    /** Consumes `x` shares of this resting lot and returns their cost basis. */
    method SellParts(x: real) returns (basis: real)
      requires x < amount && amount != 0.0
      modifies this
      ensures Value() == old(Value()).SellParts(x).0
      ensures basis == old(Value()).SellParts(x).1
    {
      var partCosts := Share(costs, x, amount);
      amount := amount - x;
      costs := costs - partCosts;
      basis := partCosts + x * price;
    }

    /** Restates the trade after a stock split by `multiplier`. */
    method Split(multiplier: real)
      requires multiplier != 0.0
      modifies this
      ensures Value() == old(Value()).Split(multiplier)
    {
      amount := amount * multiplier;
      price := price / multiplier;
    }
  }

  /** The field values of a sequence of trade objects. */
  ghost function Values(ts: seq<Transaction>): (vs: seq<TxData>)
    reads ts
    ensures |vs| == |ts|
  {
    if ts == [] then [] else [ts[0].Value()] + Values(ts[1..])
  }

  /** The values of the lots are read one lot at a time. */
  lemma {:induction false} ValuesAt(ts: seq<Transaction>, i: int)
    requires 0 <= i < |ts|
    ensures Values(ts)[i] == ts[i].Value()
  {
    if i > 0 {
      ValuesAt(ts[1..], i - 1);
    }
  }

  /** The values of the lots, read one lot at a time. */
  lemma ValuesEach(ts: seq<Transaction>)
    ensures forall i :: 0 <= i < |ts| ==> Values(ts)[i] == ts[i].Value()
  {
    forall i | 0 <= i < |ts|
      ensures Values(ts)[i] == ts[i].Value()
    {
      ValuesAt(ts, i);
    }
  }

  /** Appending a trade appends its values. */
  lemma {:induction false} ValuesSnoc(ts: seq<Transaction>, t: Transaction)
    ensures Values(ts + [t]) == Values(ts) + [t.Value()]
  {
    if ts != [] {
      assert (ts + [t])[1..] == ts[1..] + [t];
      ValuesSnoc(ts[1..], t);
    }
  }
}
