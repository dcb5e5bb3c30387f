/** All securities of an account: one lot queue per stock code
    (FIFO.py, class StockStatement). */
module Statement {
  import opened Transactions
  import opened Reports
  import opened Fifo
  import opened Sequences

  /** The queue state of `code`; a code never traded has a fresh queue. */
  function Slot(ledger: map<string, FifoData>, code: string): FifoData
  {
    if code in ledger then ledger[code] else Empty()
  }

  /** Every queue of the account keeps the queue invariant. */
  predicate LedgerInv(ledger: map<string, FifoData>)
  {
    forall c :: c in ledger ==> ledger[c].Inv()
  }

  /** add_transaction: the trade goes to the queue of its code, created on
      first use; no other queue changes. */
  function Record(ledger: map<string, FifoData>, code: string, t: TxData): (r: map<string, FifoData>)
    requires LedgerInv(ledger) && Slot(ledger, code).CanAdd(t)
    ensures r.Keys == ledger.Keys + {code}
    ensures forall c :: c in ledger && c != code ==> r[c] == ledger[c]
    ensures r[code] == Slot(ledger, code).Add(t)
    ensures LedgerInv(r)
  {
    Fifo.AddKeepsInv(Slot(ledger, code), t);
    ledger[code := Slot(ledger, code).Add(t)]
  }

  /** split for one code: only that code's lots are restated. */
  function SplitCode(ledger: map<string, FifoData>, code: string, m: real): (r: map<string, FifoData>)
    requires LedgerInv(ledger) && code in ledger && m > 0.0
    ensures r.Keys == ledger.Keys
    ensures forall c :: c in ledger && c != code ==> r[c] == ledger[c]
    ensures r[code] == ledger[code].SplitLots(m)
    ensures LedgerInv(r)
  {
    SplitKeepsInv(ledger[code], m);
    ledger[code := ledger[code].SplitLots(m)]
  }

  /** The state left by get_reports: no queue has pending reports, and
      each keeps its lots and its last date. */
  function Cleared(ledger: map<string, FifoData>): (r: map<string, FifoData>)
    ensures r.Keys == ledger.Keys
    ensures forall c :: c in ledger ==> r[c] == FifoData(ledger[c].lastDate, ledger[c].lots, [])
    ensures LedgerInv(ledger) ==> LedgerInv(r)
  {
    map c | c in ledger :: ledger[c].Drain(true).1
  }

  /** The state part way through get_reports: the codes in `done` are
      cleared, the others untouched. */
  function ClearedOn(ledger: map<string, FifoData>, done: set<string>): map<string, FifoData>
  {
    map c | c in ledger :: if c in done then ledger[c].Drain(true).1 else ledger[c]
  }

  /** One more code of the order cleared; its reports are the next ones collected. */
  lemma DrainedNext(ledger: map<string, FifoData>, codes: seq<string>, i: int, done: set<string>)
    requires 0 <= i < |codes| && Distinct(codes)
    requires forall j :: 0 <= j < |codes| ==> codes[j] in ledger
    requires done == set j | 0 <= j < i :: codes[j]
    ensures codes[i] !in done
    ensures ClearedOn(ledger, done)[codes[i]] == ledger[codes[i]]
    ensures ClearedOn(ledger, done)[codes[i] := ledger[codes[i]].Drain(true).1]
            == ClearedOn(ledger, done + {codes[i]})
    ensures done + {codes[i]} == set j | 0 <= j < i + 1 :: codes[j]
    ensures Collected(ledger, codes[..i + 1])
            == Collected(ledger, codes[..i]) + Tagged(codes[i], ledger[codes[i]].Drain(true).0)
  {
    DistinctPairs(codes);
    assert codes[..i + 1][..i] == codes[..i];
  }

  /** Once every code of the order is cleared, the whole account is. */
  lemma ClearedAll(ledger: map<string, FifoData>, codes: seq<string>, done: set<string>)
    requires forall c :: c in ledger <==> c in codes
    requires done == set j | 0 <= j < |codes| :: codes[j]
    ensures ClearedOn(ledger, done) == Cleared(ledger)
    ensures codes[..|codes|] == codes
  {
  }

  /** The reports `rs` of one code, each paired with the code. */
  function Tagged(code: string, rs: seq<ReportData>): (ps: seq<(string, ReportData)>)
    ensures |ps| == |rs|
    ensures forall i :: 0 <= i < |rs| ==> ps[i] == (code, rs[i])
  {
    seq(|rs|, i requires 0 <= i < |rs| => (code, rs[i]))
  }

  /** get_reports of the account: for each code in `codes`, in order, its
      merged pending reports paired with the code. */
  function Collected(ledger: map<string, FifoData>, codes: seq<string>): seq<(string, ReportData)>
    requires forall i :: 0 <= i < |codes| ==> codes[i] in ledger
  {
    if codes == [] then []
    else
      var last := codes[|codes| - 1];
      Collected(ledger, codes[..|codes| - 1]) + Tagged(last, ledger[last].Drain(true).0)
  }

  /** The reports among `ps` paired with `code`, in order. */
  function ReportsOf(ps: seq<(string, ReportData)>, code: string): seq<ReportData>
  {
    if ps == [] then []
    else (if ps[0].0 == code then [ps[0].1] else []) + ReportsOf(ps[1..], code)
  }

  lemma {:induction false} ReportsOfAppend(ps: seq<(string, ReportData)>, qs: seq<(string, ReportData)>, code: string)
    ensures ReportsOf(ps + qs, code) == ReportsOf(ps, code) + ReportsOf(qs, code)
  {
    if ps != [] {
      assert (ps + qs)[1..] == ps[1..] + qs;
      ReportsOfAppend(ps[1..], qs, code);
    } else {
      assert ps + qs == qs;
    }
  }

  lemma {:induction false} ReportsOfTagged(c: string, rs: seq<ReportData>, code: string)
    ensures ReportsOf(Tagged(c, rs), code) == if c == code then rs else []
  {
    if rs != [] {
      assert Tagged(c, rs)[1..] == Tagged(c, rs[1..]);
      ReportsOfTagged(c, rs[1..], code);
      assert [rs[0]] + rs[1..] == rs;
    }
  }

  /** What the account hands out for one code is exactly what that code's
      queue hands out: its pending reports, merged, in their order. Reports
      of different codes are never merged with each other. */
  lemma {:induction false} CollectedReportsOf(ledger: map<string, FifoData>, codes: seq<string>, code: string)
    requires forall i :: 0 <= i < |codes| ==> codes[i] in ledger
    requires forall i, j :: 0 <= i < j < |codes| ==> codes[i] != codes[j]
    ensures ReportsOf(Collected(ledger, codes), code)
            == if code in codes then Coalesce(ledger[code].pending) else []
  {
    if codes != [] {
      var init, last := codes[..|codes| - 1], codes[|codes| - 1];
      var a, b := Collected(ledger, init), Tagged(last, ledger[last].Drain(true).0);
      assert Collected(ledger, codes) == a + b;
      CollectedReportsOf(ledger, init, code);
      ReportsOfAppend(a, b, code);
      ReportsOfTagged(last, ledger[last].Drain(true).0, code);
      assert codes == init + [last];
      if last == code {
        assert code !in init;
      }
    }
  }

  /** A securities account; trades are routed to the queue of their stock
      code. Each queue is held as its state: the FIFO class is proved to make
      exactly the transitions of that state. */
  class StockStatement {
    var stocks: map<string, FifoData>
    /** The codes in the order they were first traded. */
    var order: seq<string>

    /** The codes traded, each once, each with a queue that keeps the queue
        invariant. */
    ghost predicate Valid()
      reads this
    {
      (forall c :: c in stocks <==> c in order)
      && Distinct(order)
      && LedgerInv(stocks)
    }

    constructor ()
      ensures Valid() && stocks == map[] && order == []
    {
      stocks := map[];
      order := [];
    }

    /** add_transaction: the trade joins the queue of `code`, which is
        created empty on its first trade. */
    method AddTransaction(code: string, trans: TxData)
      requires Valid() && Slot(stocks, code).CanAdd(trans)
      modifies this
      ensures Valid()
      ensures LedgerInv(old(stocks)) && stocks == Record(old(stocks), code, trans)
      ensures order == old(order) + if code in old(stocks) then [] else [code]
    {
      ghost var after := Record(stocks, code, trans);
      if code !in stocks {
        DistinctSnoc(order, code);
        stocks := stocks[code := Empty()];
        order := order + [code];
      }
      stocks := stocks[code := stocks[code].Add(trans)];
      assert stocks == after;
    }

    /** get_reports: for each code in the order first traded, that queue's
        merged reports, paired with the code; every queue is left with none
        pending. */
    method GetReports() returns (out: seq<(string, ReportData)>)
      requires Valid()
      modifies this
      ensures Valid() && order == old(order)
      ensures out == Collected(old(stocks), order)
      ensures stocks == Cleared(old(stocks))
    {
      ghost var before := stocks;
      ghost var done: set<string> := {};
      out := [];
      var i := 0;
      while i < |order|
        invariant 0 <= i <= |order| && order == old(order) && before == old(stocks)
        invariant done == set j | 0 <= j < i :: order[j]
        invariant stocks == ClearedOn(before, done)
        invariant out == Collected(before, order[..i])
      {
        var code := order[i];
        DrainedNext(before, order, i, done);
        var (rs, drained) := stocks[code].Drain(true);
        stocks := stocks[code := drained];
        out := out + Tagged(code, rs);
        done := done + {code};
        i := i + 1;
      }
      ClearedAll(before, order, done);
    }

    /** split: the lots of `code`, which must have been traded, are restated
        for a split by `multiplier`. */
    method Split(code: string, multiplier: real)
      requires Valid() && code in stocks && multiplier > 0.0
      modifies this
      ensures Valid() && order == old(order)
      ensures LedgerInv(old(stocks)) && stocks == SplitCode(old(stocks), code, multiplier)
    {
      SplitKeepsInv(stocks[code], multiplier);
      stocks := stocks[code := stocks[code].SplitLots(multiplier)];
    }
  }
}
