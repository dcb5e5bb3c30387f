/** The per-security lot queue and FIFO matching (FIFO.py, class FIFO). */
module Fifo {
  import opened Transactions
  import opened Reports
  import opened Sequences

  /** The last date of a fresh queue: no trade is dated before it. */
  const Epoch: int := 0

  /** Shares still open in the lots. */
  function OpenAmount(lots: seq<TxData>): real
  {
    if lots == [] then 0.0 else lots[0].amount + OpenAmount(lots[1..])
  }

  /** Cost basis still open in the lots: fees plus purchase price of each. */
  function Basis(lots: seq<TxData>): real
  {
    if lots == [] then 0.0 else lots[0].costs + lots[0].amount * lots[0].price + Basis(lots[1..])
  }

  /** Every lot is an open buy. */
  predicate AllOpen(lots: seq<TxData>)
  {
    forall i :: 0 <= i < |lots| ==> lots[i].amount > 0.0
  }

  /** The lots are in date order. */
  predicate Ordered(lots: seq<TxData>)
  {
    forall i, j :: 0 <= i < j < |lots| ==> lots[i].date <= lots[j].date
  }

  /** No lot is dated after `day`. */
  predicate DatedBy(lots: seq<TxData>, day: int)
  {
    forall i :: 0 <= i < |lots| ==> lots[i].date <= day
  }

  /** Every report closes a positive amount acquired no later than it was
      sold, and sold no later than `day`. */
  predicate Settled(reports: seq<ReportData>, day: int)
  {
    forall i :: 0 <= i < |reports| ==>
      reports[i].amount > 0.0 && reports[i].dateAcquired <= reports[i].dateSold <= day
  }

  /** The report for selling `x` shares of `lot` under `sell`, with `basis`
      the cost basis of those shares. */
  function Closure(lot: TxData, x: real, basis: real, sell: TxData): ReportData
    requires sell.amount < 0.0 && x <= -sell.amount
  {
    ReportData(x, lot.date, sell.PartialCosts(x) + basis, sell.date, sell.Sales(x))
  }

  /** The matching loop of add_transaction: `q` shares of `sell` still to be
      matched against `lots`, oldest first. Gives the lots left open and the
      reports produced. */
  function Consume(lots: seq<TxData>, q: real, sell: TxData): (seq<TxData>, seq<ReportData>)
    requires sell.amount < 0.0 && 0.0 <= q <= -sell.amount
    requires AllOpen(lots) && q <= OpenAmount(lots)
    decreases |lots|
  {
    if q <= 0.0 then (lots, [])
    else
      var first := lots[0];
      if first.amount <= q then
        var rest := Consume(lots[1..], q - first.amount, sell);
        (rest.0, [Closure(first, first.amount, first.TotalCosts(), sell)] + rest.1)
      else
        var part := first.SellParts(q);
        ([part.0] + lots[1..], [Closure(first, q, part.1, sell)])
  }

  /** Abstract state of a lot queue: the last date seen, the open lots oldest
      first, and the reports not yet drained. */
  datatype FifoData = FifoData(lastDate: int, lots: seq<TxData>, pending: seq<ReportData>) {

    /** Every lot is open, the lots are in date order and none is dated after
        the last trade; every pending report closes a positive amount acquired
        no later than it was sold. */
    predicate Inv()
    {
      AllOpen(lots) && Ordered(lots) && DatedBy(lots, lastDate) && Settled(pending, lastDate)
    }

    /** What add_transaction demands: a non-zero amount, a date no earlier
        than the last one, and for a sell enough open shares. */
    predicate CanAdd(t: TxData)
    {
      t.amount != 0.0 && lastDate <= t.date && (t.amount < 0.0 ==> -t.amount <= OpenAmount(lots))
    }

    /** add_transaction: a buy is queued at the tail, a sell is matched
        against the oldest lots. */
    function Add(t: TxData): FifoData
      requires Inv() && CanAdd(t)
    {
      if t.IsBuy() then FifoData(t.date, lots + [t], pending)
      else
        var (left, closed) := Consume(lots, -t.amount, t);
        FifoData(t.date, left, pending + closed)
    }

    /** get_reports: the pending reports, merged if asked, and the queue
        left with none pending. */
    function Drain(merge: bool): (r: (seq<ReportData>, FifoData))
      ensures r.1 == FifoData(lastDate, lots, [])
    {
      (if merge then Coalesce(pending) else pending, FifoData(lastDate, lots, []))
    }

    /** split: every open lot restated for a split by `multiplier`. */
    function SplitLots(multiplier: real): (r: FifoData)
      requires multiplier != 0.0
      ensures r.lastDate == lastDate && r.pending == pending && |r.lots| == |lots|
      ensures forall i :: 0 <= i < |lots| ==> r.lots[i] == lots[i].Split(multiplier)
    {
      FifoData(lastDate, seq(|lots|, i requires 0 <= i < |lots| => lots[i].Split(multiplier)), pending)
    }
  }

  /** The state of a fresh queue. */
  function Empty(): (r: FifoData)
    ensures r.Inv()
  {
    FifoData(Epoch, [], [])
  }

  lemma OpenAmountAppend(lots: seq<TxData>, t: TxData)
    ensures OpenAmount(lots + [t]) == OpenAmount(lots) + t.amount
  {
    if lots != [] {
      assert (lots + [t])[1..] == lots[1..] + [t];
      OpenAmountAppend(lots[1..], t);
    }
  }

  lemma OpenCons(lot: TxData, lots: seq<TxData>)
    ensures OpenAmount([lot] + lots) == lot.amount + OpenAmount(lots)
    ensures Basis([lot] + lots) == lot.costs + lot.amount * lot.price + Basis(lots)
  {
    assert ([lot] + lots)[1..] == lots;
  }

  /** Unfolds one full closure of the matching loop. */
  lemma ConsumeFull(lots: seq<TxData>, q: real, sell: TxData)
    requires sell.amount < 0.0 && 0.0 < q <= -sell.amount
    requires AllOpen(lots) && q <= OpenAmount(lots) && lots != [] && lots[0].amount <= q
    ensures lots[0].amount <= -sell.amount
    ensures Consume(lots, q, sell)
            == (Consume(lots[1..], q - lots[0].amount, sell).0,
                [Closure(lots[0], lots[0].amount, lots[0].TotalCosts(), sell)]
                + Consume(lots[1..], q - lots[0].amount, sell).1)
  {
  }

  /** Unfolds the final, partial closure of the matching loop. */
  lemma ConsumePartial(lots: seq<TxData>, q: real, sell: TxData)
    requires sell.amount < 0.0 && 0.0 < q <= -sell.amount
    requires AllOpen(lots) && q <= OpenAmount(lots) && lots != [] && q < lots[0].amount
    ensures Consume(lots, q, sell)
            == ([lots[0].SellParts(q).0] + lots[1..], [Closure(lots[0], q, lots[0].SellParts(q).1, sell)])
  {
  }

  /** Matching `q` shares removes exactly `q` open shares. */
  lemma {:induction false} ConsumeOpen(lots: seq<TxData>, q: real, sell: TxData)
    requires sell.amount < 0.0 && 0.0 <= q <= -sell.amount
    requires AllOpen(lots) && q <= OpenAmount(lots)
    ensures OpenAmount(Consume(lots, q, sell).0) == OpenAmount(lots) - q
    decreases |lots|
  {
    if q > 0.0 {
      assert lots != [];
      var first := lots[0];
      if first.amount <= q {
        ConsumeFull(lots, q, sell);
        ConsumeOpen(lots[1..], q - first.amount, sell);
      } else {
        ConsumePartial(lots, q, sell);
        OpenCons(first.SellParts(q).0, lots[1..]);
      }
    }
  }

  /** The reports of matching `q` shares close `q` shares in all. */
  lemma {:induction false} ConsumeAmount(lots: seq<TxData>, q: real, sell: TxData)
    requires sell.amount < 0.0 && 0.0 <= q <= -sell.amount
    requires AllOpen(lots) && q <= OpenAmount(lots)
    ensures AmountOf(Consume(lots, q, sell).1) == q
    decreases |lots|
  {
    if q > 0.0 {
      assert lots != [];
      var first := lots[0];
      if first.amount <= q {
        ConsumeFull(lots, q, sell);
        ConsumeAmount(lots[1..], q - first.amount, sell);
        AmountCons(Closure(first, first.amount, first.TotalCosts(), sell), Consume(lots[1..], q - first.amount, sell).1);
      } else {
        ConsumePartial(lots, q, sell);
        AmountCons(Closure(first, q, first.SellParts(q).1, sell), []);
      }
    }
  }

  /** The reports of matching `q` shares bring in the proceeds of `q` shares
      at the sell's price. */
  lemma {:induction false} ConsumeSales(lots: seq<TxData>, q: real, sell: TxData)
    requires sell.amount < 0.0 && 0.0 <= q <= -sell.amount
    requires AllOpen(lots) && q <= OpenAmount(lots)
    ensures SalesOf(Consume(lots, q, sell).1) == sell.Sales(q)
    decreases |lots|
  {
    if q > 0.0 {
      assert lots != [];
      var first := lots[0];
      if first.amount <= q {
        ConsumeFull(lots, q, sell);
        ConsumeSales(lots[1..], q - first.amount, sell);
        SalesCons(Closure(first, first.amount, first.TotalCosts(), sell), Consume(lots[1..], q - first.amount, sell).1);
        SalesSplit(sell, first.amount, q);
      } else {
        ConsumePartial(lots, q, sell);
        SalesCons(Closure(first, q, first.SellParts(q).1, sell), []);
      }
    }
  }

  /** Cost conservation: the reports' cost basis is the share of the sell's
      fees allotted to `q` shares plus exactly the basis leaving the queue. */
  lemma {:induction false} ConsumeCosts(lots: seq<TxData>, q: real, sell: TxData)
    requires sell.amount < 0.0 && 0.0 <= q <= -sell.amount
    requires AllOpen(lots) && q <= OpenAmount(lots)
    ensures CostsOf(Consume(lots, q, sell).1)
            == sell.PartialCosts(q) + Basis(lots) - Basis(Consume(lots, q, sell).0)
    decreases |lots|
  {
    if q <= 0.0 {
      assert sell.PartialCosts(q) == 0.0 by {
        ShareNone(sell.costs, -sell.amount);
      }
    } else {
      assert lots != [];
      var first, rest := lots[0], lots[1..];
      if first.amount <= q {
        var (left, closed) := Consume(rest, q - first.amount, sell);
        ConsumeCosts(rest, q - first.amount, sell);
        FullCloseCosts(lots, q, sell, left, closed);
      } else {
        PartialCloseCosts(lots, q, sell);
      }
    }
  }

  /** The cost step of a full closure, given the costs of the rest of the match. */
  lemma FullCloseCosts(lots: seq<TxData>, q: real, sell: TxData, left: seq<TxData>, closed: seq<ReportData>)
    requires sell.amount < 0.0 && 0.0 < q <= -sell.amount
    requires AllOpen(lots) && q <= OpenAmount(lots) && lots != [] && lots[0].amount <= q
    requires (left, closed) == Consume(lots[1..], q - lots[0].amount, sell)
    requires CostsOf(closed) == sell.PartialCosts(q - lots[0].amount) + Basis(lots[1..]) - Basis(left)
    ensures CostsOf(Consume(lots, q, sell).1)
            == sell.PartialCosts(q) + Basis(lots) - Basis(Consume(lots, q, sell).0)
  {
    var first := lots[0];
    var c := Closure(first, first.amount, first.TotalCosts(), sell);
    assert Consume(lots, q, sell) == (left, [c] + closed) by {
      ConsumeFull(lots, q, sell);
    }
    assert [first] + lots[1..] == lots;
    CloseFirstCosts(first, lots[1..], q, sell, left, closed);
  }

  /** Closing the first lot in full adds its basis and its share of the
      sell's fees to the costs of the reports. */
  lemma CloseFirstCosts(first: TxData, rest: seq<TxData>, q: real, sell: TxData, left: seq<TxData>, closed: seq<ReportData>)
    requires sell.amount < 0.0 && 0.0 < first.amount <= q <= -sell.amount
    requires CostsOf(closed) == sell.PartialCosts(q - first.amount) + Basis(rest) - Basis(left)
    ensures CostsOf([Closure(first, first.amount, first.TotalCosts(), sell)] + closed)
            == sell.PartialCosts(q) + Basis([first] + rest) - Basis(left)
  {
    var c := Closure(first, first.amount, first.TotalCosts(), sell);
    var pa, pr, pq := sell.PartialCosts(first.amount), sell.PartialCosts(q - first.amount), sell.PartialCosts(q);
    var basis := first.costs + first.amount * first.price;
    assert c.costs == pa + basis;
    assert CostsOf([c] + closed) == c.costs + CostsOf(closed) by {
      CostsCons(c, closed);
    }
    assert Basis([first] + rest) == basis + Basis(rest) by {
      OpenCons(first, rest);
    }
    assert pa + pr == pq by {
      PartialCostsSplit(sell, first.amount, q);
    }
  }

  /** The cost step of the final, partial closure. */
  lemma PartialCloseCosts(lots: seq<TxData>, q: real, sell: TxData)
    requires sell.amount < 0.0 && 0.0 < q <= -sell.amount
    requires AllOpen(lots) && q <= OpenAmount(lots) && lots != [] && q < lots[0].amount
    ensures CostsOf(Consume(lots, q, sell).1)
            == sell.PartialCosts(q) + Basis(lots) - Basis(Consume(lots, q, sell).0)
  {
    var first := lots[0];
    var part := first.SellParts(q);
    assert Consume(lots, q, sell) == ([part.0] + lots[1..], [Closure(first, q, part.1, sell)]) by {
      ConsumePartial(lots, q, sell);
    }
    assert [first] + lots[1..] == lots;
    CloseLastCosts(first, lots[1..], q, sell);
  }

  /** Closing part of the first lot adds the basis of that part and the
      sell's fees for it to the costs of the reports. */
  lemma CloseLastCosts(first: TxData, rest: seq<TxData>, q: real, sell: TxData)
    requires sell.amount < 0.0 && 0.0 < q <= -sell.amount && q < first.amount
    ensures CostsOf([Closure(first, q, first.SellParts(q).1, sell)])
            == sell.PartialCosts(q) + Basis([first] + rest) - Basis([first.SellParts(q).0] + rest)
  {
    var part := first.SellParts(q);
    var c := Closure(first, q, part.1, sell);
    var basis := first.costs + first.amount * first.price;
    var kept := part.0.costs + part.0.amount * part.0.price;
    assert CostsOf([c]) == c.costs by {
      CostsCons(c, []);
    }
    assert Basis([first] + rest) == basis + Basis(rest) by {
      OpenCons(first, rest);
    }
    assert Basis([part.0] + rest) == kept + Basis(rest) by {
      OpenCons(part.0, rest);
    }
    assert part.1 + kept == basis by {
      SellPartsConserves(first, q);
    }
  }

  /** Proceeds of two parts of a sell add up to the proceeds of the whole. */
  lemma SalesSplit(sell: TxData, x: real, q: real)
    requires sell.amount < 0.0
    ensures sell.Sales(x) + sell.Sales(q - x) == sell.Sales(q)
  {
  }

  /** Fees allotted to two parts of a sell add up to the fees of the whole. */
  lemma PartialCostsSplit(sell: TxData, x: real, q: real)
    requires sell.amount < 0.0 && x <= -sell.amount && q <= -sell.amount && q - x <= -sell.amount
    ensures sell.PartialCosts(x) + sell.PartialCosts(q - x) == sell.PartialCosts(q)
  {
    var a := -sell.amount;
    assert sell.costs * x / a + sell.costs * (q - x) / a == sell.costs * q / a;
  }

  /** The lots a match leaves: a prefix of `k` lots is removed, and at most
      the next lot is shrunk by selling part of it, which keeps its date and
      price and its fees in proportion to the shares left. */
  predicate LeftShape(lots: seq<TxData>, left: seq<TxData>)
    requires AllOpen(lots)
  {
    var k := |lots| - |left|;
    0 <= k && AllOpen(left)
    && (left == lots[k..]
        || (k < |lots| && left[1..] == lots[k + 1..] && left[0].date == lots[k].date
            && left[0].price == lots[k].price && left[0].amount < lots[k].amount
            && left[0] == lots[k].SellParts(lots[k].amount - left[0].amount).0))
  }

  /** Every match leaves its lots as `LeftShape` says. */
  lemma {:induction false} ConsumeLeft(lots: seq<TxData>, q: real, sell: TxData)
    requires sell.amount < 0.0 && 0.0 <= q <= -sell.amount
    requires AllOpen(lots) && q <= OpenAmount(lots)
    ensures LeftShape(lots, Consume(lots, q, sell).0)
    decreases |lots|
  {
    if q > 0.0 {
      assert lots != [];
      var first := lots[0];
      if first.amount <= q {
        ConsumeFull(lots, q, sell);
        ConsumeLeft(lots[1..], q - first.amount, sell);
        PopLeft(lots, Consume(lots[1..], q - first.amount, sell).0);
      } else {
        ConsumePartial(lots, q, sell);
        var part := first.SellParts(q);
        assert ([part.0] + lots[1..])[1..] == lots[1..];
      }
    }
  }

  /** Popping the head lot in full adds it to the removed prefix. */
  lemma PopLeft(lots: seq<TxData>, left: seq<TxData>)
    requires AllOpen(lots) && lots != [] && LeftShape(lots[1..], left)
    ensures LeftShape(lots, left)
  {
    var k := |lots| - 1 - |left|;
    assert lots[1..][k..] == lots[k + 1..];
    if left != lots[1..][k..] {
      assert lots[1..][k] == lots[k + 1];
      assert lots[1..][k + 1..] == lots[k + 2..];
    }
  }

  /** The reports a match makes: one per lot touched, oldest lot first;
      report `i` closes a positive amount of lot `i` on the sell's date. */
  lemma {:induction false} ConsumeClosed(lots: seq<TxData>, q: real, sell: TxData)
    requires sell.amount < 0.0 && 0.0 <= q <= -sell.amount
    requires AllOpen(lots) && q <= OpenAmount(lots)
    ensures var (left, closed) := Consume(lots, q, sell);
            |left| <= |lots| && (|closed| == |lots| - |left| || |closed| == |lots| - |left| + 1)
            && |closed| <= |lots|
            && forall i :: 0 <= i < |closed| ==>
                 closed[i].dateAcquired == lots[i].date && closed[i].dateSold == sell.date
                 && closed[i].amount > 0.0
    decreases |lots|
  {
    if q > 0.0 {
      assert lots != [];
      var first := lots[0];
      if first.amount <= q {
        ConsumeFull(lots, q, sell);
        ConsumeClosed(lots[1..], q - first.amount, sell);
        var c := Closure(first, first.amount, first.TotalCosts(), sell);
        var closed := Consume(lots[1..], q - first.amount, sell).1;
        forall i | 0 <= i < |closed| + 1
          ensures ([c] + closed)[i].dateAcquired == lots[i].date
        {
          if i > 0 {
            assert ([c] + closed)[i] == closed[i - 1] && lots[i] == lots[1..][i - 1];
          }
        }
      } else {
        ConsumePartial(lots, q, sell);
      }
    }
  }

  /** Report by report, what a match of `q` shares against `lots` made when
      it left `left` and made `closed`: it popped a prefix of `k` lots and
      made one report per lot touched. Report `i` of a popped lot closes that
      whole lot, with all of its basis. When the next lot was only shrunk,
      one more report closes the shares taken from it, with the basis
      `sell_parts` gives for them; otherwise there is no more report. */
  predicate MatchReports(lots: seq<TxData>, q: real, sell: TxData, left: seq<TxData>, closed: seq<ReportData>)
    requires sell.amount < 0.0 && q <= -sell.amount && AllOpen(lots)
  {
    var k := |lots| - |left|;
    0 <= k <= |closed| <= k + 1 && |closed| <= |lots|
    && (|closed| == k <==> left == lots[k..])
    && (forall i :: 0 <= i < k ==>
          lots[i].amount <= q
          && closed[i] == Closure(lots[i], lots[i].amount, lots[i].TotalCosts(), sell))
    && (|closed| == k + 1 ==>
          var x := lots[k].amount - left[0].amount;
          0.0 < x < lots[k].amount && x <= q
          && closed[k] == Closure(lots[k], x, lots[k].SellParts(x).1, sell))
  }

  /** A match makes its reports lot by lot, as `MatchReports` says. */
  lemma {:induction false} ConsumeReports(lots: seq<TxData>, q: real, sell: TxData)
    requires sell.amount < 0.0 && 0.0 <= q <= -sell.amount
    requires AllOpen(lots) && q <= OpenAmount(lots)
    ensures MatchReports(lots, q, sell, Consume(lots, q, sell).0, Consume(lots, q, sell).1)
    decreases |lots|
  {
    if q > 0.0 {
      assert lots != [];
      var first := lots[0];
      if first.amount <= q {
        ConsumeFull(lots, q, sell);
        ConsumeReports(lots[1..], q - first.amount, sell);
        var (left, closed) := Consume(lots[1..], q - first.amount, sell);
        PopReports(lots, q, sell, left, closed);
      } else {
        ConsumePartial(lots, q, sell);
        var part := first.SellParts(q);
        assert ([part.0] + lots[1..])[0] == part.0;
      }
    }
  }

  /** Popping the head lot in full puts its report in front of the reports
      of the rest of the match. */
  lemma PopReports(lots: seq<TxData>, q: real, sell: TxData, left: seq<TxData>, closed: seq<ReportData>)
    requires sell.amount < 0.0 && q <= -sell.amount && AllOpen(lots)
    requires lots != [] && lots[0].amount <= q
    requires MatchReports(lots[1..], q - lots[0].amount, sell, left, closed)
    ensures MatchReports(lots, q, sell, left, [Closure(lots[0], lots[0].amount, lots[0].TotalCosts(), sell)] + closed)
  {
    var c := Closure(lots[0], lots[0].amount, lots[0].TotalCosts(), sell);
    var k := |lots| - 1 - |left|;
    assert lots[1..][k..] == lots[k + 1..];
    forall i | 0 <= i < k + 1
      ensures lots[i].amount <= q
      ensures ([c] + closed)[i] == Closure(lots[i], lots[i].amount, lots[i].TotalCosts(), sell)
    {
      if i > 0 {
        assert ([c] + closed)[i] == closed[i - 1] && lots[i] == lots[1..][i - 1];
      }
    }
    if |closed| == k + 1 {
      assert ([c] + closed)[k + 1] == closed[k] && lots[k + 1] == lots[1..][k];
    }
  }

  /** What is left of an ordered queue dated by `day` after a prefix is
      removed and its head shrunk is still ordered and dated by `day`. */
  lemma LeftKeepsOrder(lots: seq<TxData>, left: seq<TxData>, k: int, day: int)
    requires Ordered(lots) && DatedBy(lots, day) && 0 <= k && |left| == |lots| - k
    requires left == lots[k..] || (k < |lots| && left[1..] == lots[k + 1..] && left[0].date == lots[k].date)
    ensures Ordered(left) && DatedBy(left, day)
  {
    assert forall i :: 0 <= i < |left| ==> left[i].date == lots[k + i].date by {
      forall i | 0 <= i < |left|
        ensures left[i].date == lots[k + i].date
      {
        if i > 0 && left != lots[k..] {
          assert left[i] == left[1..][i - 1];
        }
      }
    }
  }

  /** Reports settled by `day` followed by reports settled by a later day
      are all settled by the later day. */
  lemma SettledAppend(pending: seq<ReportData>, closed: seq<ReportData>, day: int, later: int)
    requires Settled(pending, day) && Settled(closed, later) && day <= later
    ensures Settled(pending + closed, later)
  {
    forall i | 0 <= i < |pending + closed|
      ensures (pending + closed)[i].amount > 0.0
      ensures (pending + closed)[i].dateAcquired <= (pending + closed)[i].dateSold <= later
    {
      if i >= |pending| {
        assert (pending + closed)[i] == closed[i - |pending|];
      }
    }
  }

  /** The reports of a match are settled by the sell's date when no lot is
      dated after it. */
  lemma ClosedSettled(lots: seq<TxData>, q: real, sell: TxData, day: int)
    requires sell.amount < 0.0 && 0.0 <= q <= -sell.amount
    requires AllOpen(lots) && q <= OpenAmount(lots)
    requires DatedBy(lots, day) && day <= sell.date
    ensures Settled(Consume(lots, q, sell).1, sell.date)
  {
    ConsumeClosed(lots, q, sell);
  }

  /** add_transaction keeps the queue invariant. */
  lemma AddKeepsInv(d: FifoData, t: TxData)
    requires d.Inv() && d.CanAdd(t)
    ensures d.Add(t).Inv()
  {
    if t.IsBuy() {
      BuyKeepsInv(d, t);
    } else {
      SellKeepsInv(d, t);
    }
  }

  lemma BuyKeepsInv(d: FifoData, t: TxData)
    requires d.Inv() && d.CanAdd(t) && t.amount > 0.0
    ensures d.Add(t).Inv()
  {
    var lots := d.lots + [t];
    assert d.Add(t) == FifoData(t.date, lots, d.pending);
    assert forall i :: 0 <= i < |d.lots| ==> lots[i] == d.lots[i];
  }

  lemma SellKeepsInv(d: FifoData, t: TxData)
    requires d.Inv() && d.CanAdd(t) && t.amount < 0.0
    ensures d.Add(t).Inv()
  {
    var q := -t.amount;
    var (left, closed) := Consume(d.lots, q, t);
    assert d.Add(t) == FifoData(t.date, left, d.pending + closed);
    assert AllOpen(left) && Ordered(left) && DatedBy(left, d.lastDate) by {
      ConsumeLeft(d.lots, q, t);
      LeftKeepsOrder(d.lots, left, |d.lots| - |left|, d.lastDate);
    }
    assert Settled(d.pending + closed, t.date) by {
      ClosedSettled(d.lots, q, t, d.lastDate);
      SettledAppend(d.pending, closed, d.lastDate, t.date);
    }
  }

  /** A buy is queued at the tail; the other lots and the pending reports are
      unchanged, and the last date becomes the buy's date. */
  lemma AddBuy(d: FifoData, t: TxData)
    requires d.Inv() && d.CanAdd(t) && t.amount > 0.0
    ensures d.Add(t) == FifoData(t.date, d.lots + [t], d.pending)
    ensures OpenAmount(d.Add(t).lots) == OpenAmount(d.lots) + t.amount
  {
    OpenAmountAppend(d.lots, t);
  }

  /** A sell matches its shares against the lots and appends the reports
      of the match to the pending ones. */
  lemma AddSell(d: FifoData, t: TxData)
    requires d.Inv() && d.CanAdd(t) && t.amount < 0.0
    ensures var c := Consume(d.lots, -t.amount, t);
            d.Add(t) == FifoData(t.date, c.0, d.pending + c.1)
  {
  }

  /** One sell of `Q` shares: the open quantity drops by `Q`; the new reports
      close `Q` shares for `Q` times the sell price; their cost basis is the
      sell's fees plus exactly the basis that left the queue; the earlier
      pending reports stay in front. */
  lemma {:induction false} SellConservation(d: FifoData, t: TxData)
    requires d.Inv() && d.CanAdd(t) && t.amount < 0.0
    ensures var r := d.Add(t);
            var closed := r.pending[|d.pending|..];
            r.lastDate == t.date
            && |r.pending| >= |d.pending| && r.pending[..|d.pending|] == d.pending
            && OpenAmount(r.lots) == OpenAmount(d.lots) + t.amount
            && AmountOf(closed) == -t.amount
            && SalesOf(closed) == -t.amount * t.price
            && CostsOf(closed) == t.costs + Basis(d.lots) - Basis(r.lots)
  {
    var q := -t.amount;
    var (left, closed) := Consume(d.lots, q, t);
    assert d.Add(t) == FifoData(t.date, left, d.pending + closed);
    assert (d.pending + closed)[|d.pending|..] == closed;
    assert (d.pending + closed)[..|d.pending|] == d.pending;
    assert OpenAmount(left) == OpenAmount(d.lots) - q by {
      ConsumeOpen(d.lots, q, t);
    }
    assert AmountOf(closed) == q by {
      ConsumeAmount(d.lots, q, t);
    }
    assert SalesOf(closed) == t.Sales(q) by {
      ConsumeSales(d.lots, q, t);
    }
    assert CostsOf(closed) == t.PartialCosts(q) + Basis(d.lots) - Basis(left) by {
      ConsumeCosts(d.lots, q, t);
    }
    assert t.PartialCosts(q) == t.costs by {
      PartialCostsBounds(t, q);
    }
  }

  /** Each report of a sell closes one lot, oldest first: report `i` was
      acquired on the date of lot `i` and sold on the sell's date; the lots
      left are the old ones minus a closed prefix, with the new head either
      untouched or what selling part of it leaves. */
  lemma SellShape(d: FifoData, t: TxData)
    requires d.Inv() && d.CanAdd(t) && t.amount < 0.0
    ensures var r := d.Add(t);
            var closed := r.pending[|d.pending|..];
            var k := |d.lots| - |r.lots|;
            0 <= k && (|closed| == k || |closed| == k + 1) && |closed| <= |d.lots|
            && (|r.lots| > 0 ==>
                  (r.lots[1..] == d.lots[k + 1..] && 0.0 < r.lots[0].amount <= d.lots[k].amount
                   && r.lots[0].date == d.lots[k].date && r.lots[0].price == d.lots[k].price
                   && (r.lots[0] == d.lots[k]
                       || r.lots[0] == d.lots[k].SellParts(d.lots[k].amount - r.lots[0].amount).0)))
            && (forall i :: 0 <= i < |closed| ==>
                  closed[i].dateAcquired == d.lots[i].date && closed[i].dateSold == t.date)
  {
    var q := -t.amount;
    var (left, closed) := Consume(d.lots, q, t);
    assert d.Add(t) == FifoData(t.date, left, d.pending + closed);
    assert (d.pending + closed)[|d.pending|..] == closed;
    ConsumeLeft(d.lots, q, t);
    ConsumeClosed(d.lots, q, t);
    var k := |d.lots| - |left|;
    if |left| > 0 && left == d.lots[k..] {
      assert left[1..] == d.lots[k + 1..];
    }
  }

  /** Each report of a sell closes one lot touched: a popped lot's report
      closes the whole lot with all of its basis, and there is one more
      report, for the shares taken, exactly when the new head was shrunk. */
  lemma SellReports(d: FifoData, t: TxData)
    requires d.Inv() && d.CanAdd(t) && t.amount < 0.0
    ensures |d.Add(t).pending| >= |d.pending|
    ensures MatchReports(d.lots, -t.amount, t, d.Add(t).lots, d.Add(t).pending[|d.pending|..])
  {
    var q := -t.amount;
    var (left, closed) := Consume(d.lots, q, t);
    assert d.Add(t) == FifoData(t.date, left, d.pending + closed);
    assert (d.pending + closed)[|d.pending|..] == closed;
    ConsumeReports(d.lots, q, t);
  }

  /** A split by `m` followed by one by `1/m` restores every lot. */
  lemma SplitRoundTrip(d: FifoData, m: real)
    requires m != 0.0
    ensures d.SplitLots(m).SplitLots(1.0 / m) == d
  {
    var r := d.SplitLots(m).SplitLots(1.0 / m);
    forall i | 0 <= i < |d.lots|
      ensures r.lots[i] == d.lots[i]
    {
      Transactions.SplitRoundTrip(d.lots[i], m);
    }
  }

  /** A split by a positive multiplier keeps the queue invariant and the
      total basis of the queue. */
  lemma {:induction false} SplitKeepsInv(d: FifoData, m: real)
    requires d.Inv() && m > 0.0
    ensures d.SplitLots(m).Inv()
    ensures Basis(d.SplitLots(m).lots) == Basis(d.lots)
  {
    SplitBasis(d.lots, d.SplitLots(m).lots, m);
  }

  /** Lot by lot, a split keeps each lot's fees, date and amount times
      price, and so the total basis of the lots. */
  lemma {:induction false} SplitBasis(lots: seq<TxData>, split: seq<TxData>, m: real)
    requires m != 0.0
    requires |split| == |lots| && forall i :: 0 <= i < |lots| ==> split[i] == lots[i].Split(m)
    ensures forall i :: 0 <= i < |lots| ==>
              split[i].costs == lots[i].costs && split[i].date == lots[i].date
              && split[i].amount * split[i].price == lots[i].amount * lots[i].price
    ensures Basis(split) == Basis(lots)
  {
    forall i | 0 <= i < |lots|
      ensures split[i].amount * split[i].price == lots[i].amount * lots[i].price
    {
      SplitKeepsValue(lots[i], m);
    }
    if lots != [] {
      SplitBasis(lots[1..], split[1..], m);
      SplitKeepsValue(lots[0], m);
    }
  }

  /** The worked example: buy 100 at 10 with fees 5 on day 1, sell 40 at 15
      with fees 2 on day 10, then sell 60 at 20 with fees 3 on day 20. */
  lemma WorkedExample()
    ensures var buy := TxData(100.0, 10.0, 5.0, 1);
            var sell1 := TxData(-40.0, 15.0, 2.0, 10);
            var sell2 := TxData(-60.0, 20.0, 3.0, 20);
            var d1 := Empty().Add(buy);
            var d2 := d1.Add(sell1);
            d2.lots == [TxData(60.0, 10.0, 3.0, 1)]
            && d2.pending == [ReportData(40.0, 1, 404.0, 10, 600.0)]
            && d2.Add(sell2).lots == []
            && d2.Add(sell2).pending == [ReportData(40.0, 1, 404.0, 10, 600.0), ReportData(60.0, 1, 606.0, 20, 1200.0)]
  {
    var buy := TxData(100.0, 10.0, 5.0, 1);
    var sell1 := TxData(-40.0, 15.0, 2.0, 10);
    var sell2 := TxData(-60.0, 20.0, 3.0, 20);
    var d1 := Empty().Add(buy);
    assert d1.lots == [buy];
    assert OpenAmount(d1.lots) == 100.0;
    var d2 := d1.Add(sell1);
    assert d2.lots == [TxData(60.0, 10.0, 3.0, 1)];
    assert OpenAmount(d2.lots) == 60.0;
  }

  /** One pass of the matching loop body: the lots after it, the report it
      makes and the shares it closes. The head lot is closed in full when
      `q` covers it, and otherwise only `q` of its shares are sold. */
  function Step(lots: seq<TxData>, q: real, sell: TxData): (seq<TxData>, ReportData, real)
    requires sell.amount < 0.0 && 0.0 < q <= -sell.amount
    requires lots != [] && lots[0].amount > 0.0
  {
    var first := lots[0];
    if first.amount <= q then
      (lots[1..], Closure(first, first.amount, first.TotalCosts(), sell), first.amount)
    else
      var part := first.SellParts(q);
      ([part.0] + lots[1..], Closure(first, q, part.1, sell), q)
  }

  /** The matching loop is `Step` repeated: after one step, the rest of the
      match is the match of what is left. Stated for the loop's bookkeeping,
      where `done` are the reports already made. The step either removes
      the head lot or is the last one. */
  lemma {:induction false} StepConsume(lots: seq<TxData>, q: real, sell: TxData,
                                       done: seq<ReportData>, target: (seq<TxData>, seq<ReportData>))
    requires sell.amount < 0.0 && 0.0 < q <= -sell.amount
    requires AllOpen(lots) && q <= OpenAmount(lots)
    requires target == (Consume(lots, q, sell).0, done + Consume(lots, q, sell).1)
    ensures lots != [] && lots[0].amount > 0.0
    ensures var s := Step(lots, q, sell);
            0.0 < s.2 <= q && AllOpen(s.0) && q - s.2 <= OpenAmount(s.0)
            && (|s.0| == |lots| - 1 || (|s.0| == |lots| && s.2 == q))
            && target == (Consume(s.0, q - s.2, sell).0, (done + [s.1]) + Consume(s.0, q - s.2, sell).1)
  {
    assert lots != [];
    var first := lots[0];
    if first.amount <= q {
      ConsumeFull(lots, q, sell);
      var c := Closure(first, first.amount, first.TotalCosts(), sell);
      var rest := Consume(lots[1..], q - first.amount, sell);
      assert done + ([c] + rest.1) == (done + [c]) + rest.1;
    } else {
      ConsumePartial(lots, q, sell);
      var part := first.SellParts(q);
      var left := [part.0] + lots[1..];
      ConsumeOpen(lots, q, sell);
      assert left == Consume(lots, q, sell).0;
      var c := Closure(first, q, part.1, sell);
      assert Consume(left, 0.0, sell) == (left, []);
      assert (done + [c]) + [] == done + [c];
    }
  }

  /** The state of the matching loop of a sell with values `sell`:
      `amount` shares are still to be matched, `made` are the reports made
      so far, `lots` the values of the queue, and `target` the outcome of
      the whole match. */
  ghost predicate Matching(queue: seq<Transaction>, sell: TxData, amount: real, made: seq<ReportData>,
                         lots: seq<TxData>, target: (seq<TxData>, seq<ReportData>))
    reads queue
  {
    sell.amount < 0.0 && 0.0 <= amount <= -sell.amount
    && Distinct(queue) && (amount > 0.0 ==> queue != [])
    && lots == Transactions.Values(queue) && AllOpen(lots) && amount <= OpenAmount(lots)
    && target == (Consume(lots, amount, sell).0, made + Consume(lots, amount, sell).1)
  }

  /** The lot queue of one security: the date of the last trade, the open
      buy lots oldest first, and the reports not yet drained. */
  class FIFO {
    var lastDate: int
    var queue: seq<Transaction>
    var reports: seq<ReportData>

    /** The abstract state: the values of the lots, the pending reports. */
    ghost function Data(): FifoData
      reads this, queue
    {
      FifoData(lastDate, Transactions.Values(queue), reports)
    }

    /** Every lot is a distinct object and the abstract state keeps the
        queue invariant. */
    ghost predicate Valid()
      reads this, queue
    {
      Distinct(queue) && Data().Inv()
    }

    constructor ()
      ensures Valid() && Data() == Empty()
    {
      lastDate := Epoch;
      queue := [];
      reports := [];
    }

    /** add_transaction: a buy joins the tail of the queue; a sell closes
        the oldest lots first and records one new report per lot it touches. */
    method AddTransaction(trans: Transaction)
      requires Valid() && Data().CanAdd(trans.Value()) && trans !in queue
      modifies this, queue
      ensures Valid()
      ensures Data() == old(Data()).Add(old(trans.Value()))
      ensures trans.Value() == old(trans.Value())
      ensures old(trans.amount) > 0.0 ==> queue == old(queue) + [trans]
      ensures forall t :: t in queue ==> t in old(queue) || t == trans
    {
      ghost var d0 := Data();
      ghost var tv := trans.Value();
      lastDate := trans.date;
      if trans.amount > 0.0 {
        QueueLot(trans);
        AddBuy(d0, tv);
      } else {
        MatchLots(trans);
        AddSell(d0, tv);
      }
      AddKeepsInv(d0, tv);
    }

    /** A buy rests at the tail of the queue. */
    method QueueLot(trans: Transaction)
      requires trans !in queue && Distinct(queue)
      modifies this`queue
      ensures queue == old(queue) + [trans] && Distinct(queue)
      ensures Transactions.Values(queue) == old(Transactions.Values(queue)) + [trans.Value()]
    {
      DistinctSnoc(queue, trans);
      ValuesSnoc(queue, trans);
      queue := queue + [trans];
    }

    /** The matching loop of add_transaction for a sell: the remaining
        quantity is matched against the head lot, and its report recorded,
        until none is left. */
    method MatchLots(trans: Transaction)
      requires trans.amount < 0.0 && trans !in queue && Distinct(queue)
      requires AllOpen(Transactions.Values(queue)) && -trans.amount <= OpenAmount(Transactions.Values(queue))
      modifies this`queue, this`reports, queue
      ensures trans.Value() == old(trans.Value()) && Distinct(queue)
      ensures forall t :: t in queue ==> t in old(queue)
      ensures var c := Consume(old(Transactions.Values(queue)), old(-trans.amount), old(trans.Value()));
              Transactions.Values(queue) == c.0 && reports == old(reports) + c.1
    {
      var sell := trans.Value();
      ghost var lots := Transactions.Values(queue);
      ghost var c := Consume(lots, -sell.amount, sell);
      ghost var target := (c.0, reports + c.1);
      ghost var q0 := queue;
      var amount := -sell.amount;
      while amount > 0.0
        invariant Matching(queue, sell, amount, reports, lots, target)
        invariant forall t :: t in queue ==> t in q0
        decreases |queue| + (if amount > 0.0 then 1 else 0)
      {
        assert queue[0] in queue;
        var taken, r;
        taken, r, lots := SellStep(sell, amount, reports, lots, target);
        amount := amount - taken;
      }
      MatchedAll(sell, amount, reports, lots, target);
    }

    /** Once nothing is left to match, the queue and the reports made are
        the outcome of the whole match. */
    lemma MatchedAll(sell: TxData, amount: real, made: seq<ReportData>,
                     lots: seq<TxData>, target: (seq<TxData>, seq<ReportData>))
      requires Matching(queue, sell, amount, made, lots, target) && amount <= 0.0
      ensures target == (Transactions.Values(queue), made) && Distinct(queue)
    {
      assert Consume(lots, amount, sell) == (lots, []);
      assert made + [] == made;
    }

    /** One pass of the matching loop, keeping its bookkeeping. */
    method SellStep(sell: TxData, amount: real, ghost made: seq<ReportData>,
                    ghost lots: seq<TxData>, ghost target: (seq<TxData>, seq<ReportData>))
      returns (taken: real, r: ReportData, ghost lots': seq<TxData>)
      requires amount > 0.0 && Matching(queue, sell, amount, made, lots, target)
      modifies this`queue, this`reports, queue[0]
      ensures Matching(queue, sell, amount - taken, made + [r], lots', target)
      ensures reports == old(reports) + [r]
      ensures forall t :: t in queue ==> t in old(queue)
      ensures |queue| + (if amount - taken > 0.0 then 1 else 0) < |old(queue)| + 1
    {
      StepConsume(lots, amount, sell, made, target);
      ghost var s := Step(lots, amount, sell);
      taken, r := MatchHead(sell, amount);
      reports := reports + [r];
      lots' := s.0;
    }

    /** The body of the matching loop for a sell with values `sell`: the
        head lot is closed in full when `amount` covers it, and otherwise
        `amount` of its shares are sold and it stays at the head with the
        rest; either way one report closes the shares sold. Gives the number
        of shares closed and the report. */
    method MatchHead(sell: TxData, amount: real) returns (taken: real, r: ReportData)
      requires sell.amount < 0.0 && 0.0 < amount <= -sell.amount
      requires queue != [] && queue[0] !in queue[1..] && queue[0].amount > 0.0
      modifies this`queue, queue[0]
      ensures queue == old(queue)[1..] || (queue == old(queue) && taken == amount)
      ensures var s := Step(old(Transactions.Values(queue)), amount, sell);
              Transactions.Values(queue) == s.0 && r == s.1 && taken == s.2
    {
      var first := queue[0];
      if first.amount <= amount {
        queue := queue[1..];
        r := ReportData(first.amount, first.date, sell.PartialCosts(first.amount) + first.Value().TotalCosts(),
                        sell.date, sell.Sales(first.amount));
        taken := first.amount;
      } else {
        var partCosts := sell.PartialCosts(amount);
        var basis := first.SellParts(amount);
        r := ReportData(amount, first.date, partCosts + basis, sell.date, sell.Sales(amount));
        taken := amount;
      }
    }

    /** get_reports: hands out the pending reports and forgets them; with
        `merge`, each run of neighbouring reports of one trade is first
        folded into the report that opened it. */
    method GetReports(merge: bool) returns (out: seq<ReportData>)
      requires Valid()
      modifies this`reports
      ensures Valid() && (out, Data()) == old(Data()).Drain(merge)
    {
      var rs := reports;
      reports := [];
      if merge && |rs| > 0 {
        var newReports := [];
        var acc := rs[0];
        var i := 1;
        while i < |rs|
          invariant 1 <= i <= |rs|
          invariant newReports + CoalesceFrom(acc, rs[i..]) == Coalesce(rs)
        {
          var report := rs[i];
          assert rs[i..][1..] == rs[i + 1..];
          if acc.IsSingle(report) {
            acc := acc.Merge(report);
          } else {
            assert newReports + CoalesceFrom(acc, rs[i..])
                == (newReports + [acc]) + CoalesceFrom(report, rs[i + 1..]);
            newReports := newReports + [acc];
            acc := report;
          }
          i := i + 1;
        }
        out := newReports + [acc];
      } else {
        out := rs;
      }
    }

    /** split: every open lot is restated in place for a stock split by
        `multiplier`. */
    method Split(multiplier: real)
      requires Valid() && multiplier > 0.0
      modifies queue
      ensures Valid() && Data() == old(Data()).SplitLots(multiplier)
    {
      ghost var d0 := Data();
      ValuesEach(queue);
      DistinctPairs(queue);
      SplitEach(multiplier, d0.lots);
      ghost var split := d0.SplitLots(multiplier).lots;
      ValuesEach(queue);
      assert Transactions.Values(queue) == split;
      SplitKeepsInv(d0, multiplier);
    }

    /** The loop of split: lot by lot, each restated in place. */
    method SplitEach(multiplier: real, ghost before: seq<TxData>)
      requires multiplier != 0.0 && |before| == |queue|
      requires forall i, j :: 0 <= i < j < |queue| ==> queue[i] != queue[j]
      requires forall j :: 0 <= j < |queue| ==> queue[j].Value() == before[j]
      modifies queue
      ensures forall j :: 0 <= j < |queue| ==> queue[j].Value() == before[j].Split(multiplier)
    {
      var i := 0;
      while i < |queue|
        invariant 0 <= i <= |queue|
        invariant forall j :: 0 <= j < |queue| ==>
          queue[j].Value() == if j < i then before[j].Split(multiplier) else before[j]
      {
        queue[i].Split(multiplier);
        i := i + 1;
      }
    }
  }
}
