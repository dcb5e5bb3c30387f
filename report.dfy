/** One closed lot and the adjacent-only coalescing of pending reports
    (FIFO.py, class Report and FIFO.get_reports). */
module Reports {

  /** The field values of a Report at one moment. */
  datatype ReportData = ReportData(amount: real, dateAcquired: int, costs: real, dateSold: int, sales: real) {

    /** Gain of the closure; negative for a loss. */
    function Profit(): real
    {
      sales - costs
    }

    /** The pair of dates that identifies a trade. */
    function Key(): (int, int)
    {
      (dateAcquired, dateSold)
    }

    /** Both reports close the same trade: the same acquisition and sale dates. */
    predicate IsSingle(other: ReportData)
    {
      dateAcquired == other.dateAcquired && dateSold == other.dateSold
    }

    /** The two closures of one trade as a single report. */
    function Merge(other: ReportData): (r: ReportData)
      requires IsSingle(other)
      ensures r.Key() == Key() == other.Key()
      ensures r.amount == amount + other.amount
      ensures r.costs == costs + other.costs && r.sales == sales + other.sales
      ensures r.Profit() == Profit() + other.Profit()
    {
      ReportData(amount + other.amount, dateAcquired, costs + other.costs, dateSold, sales + other.sales)
    }
  }

  /** Merging three closures of one trade gives the same report whichever
      pair is merged first. */
  lemma MergeAssoc(a: ReportData, b: ReportData, c: ReportData)
    requires a.IsSingle(b) && b.IsSingle(c)
    ensures a.Merge(b).IsSingle(c) && a.IsSingle(b.Merge(c))
    ensures a.Merge(b).Merge(c) == a.Merge(b.Merge(c))
  {
  }

  /** A closure record; `merge` updates it in place. */
  class Report {
    var amount: real
    const dateAcquired: int
    var costs: real
    const dateSold: int
    var sales: real

    constructor (amount: real, dateAcquired: int, costs: real, dateSold: int, sales: real)
      ensures Value() == ReportData(amount, dateAcquired, costs, dateSold, sales)
    {
      this.amount := amount;
      this.dateAcquired := dateAcquired;
      this.costs := costs;
      this.dateSold := dateSold;
      this.sales := sales;
    }

    function Value(): ReportData
      reads this
    {
      ReportData(amount, dateAcquired, costs, dateSold, sales)
    }

    /** Adds the other closure of the same trade into this one. */
    method Merge(other: Report)
      requires Value().IsSingle(other.Value())
      modifies this
      ensures Value() == old(Value()).Merge(old(other.Value()))
    {
      amount := amount + other.amount;
      costs := costs + other.costs;
      sales := sales + other.sales;
    }
  }

  function AmountOf(rs: seq<ReportData>): real
  {
    if rs == [] then 0.0 else rs[0].amount + AmountOf(rs[1..])
  }

  function CostsOf(rs: seq<ReportData>): real
  {
    if rs == [] then 0.0 else rs[0].costs + CostsOf(rs[1..])
  }

  function SalesOf(rs: seq<ReportData>): real
  {
    if rs == [] then 0.0 else rs[0].sales + SalesOf(rs[1..])
  }

  lemma AmountCons(r: ReportData, rs: seq<ReportData>)
    ensures AmountOf([r] + rs) == r.amount + AmountOf(rs)
  {
    assert ([r] + rs)[1..] == rs;
  }

  lemma CostsCons(r: ReportData, rs: seq<ReportData>)
    ensures CostsOf([r] + rs) == r.costs + CostsOf(rs)
  {
    assert ([r] + rs)[1..] == rs;
  }

  lemma SalesCons(r: ReportData, rs: seq<ReportData>)
    ensures SalesOf([r] + rs) == r.sales + SalesOf(rs)
  {
    assert ([r] + rs)[1..] == rs;
  }

  function Keys(rs: seq<ReportData>): (ks: seq<(int, int)>)
    ensures |ks| == |rs|
    ensures forall i :: 0 <= i < |rs| ==> ks[i] == rs[i].Key()
  {
    seq(|rs|, i requires 0 <= i < |rs| => rs[i].Key())
  }

  /** Reference definition: `ks` with every run of equal neighbours cut to one. */
  function Dedup<T(==)>(ks: seq<T>): seq<T>
  {
    if |ks| <= 1 then ks
    else if ks[0] == ks[1] then Dedup(ks[1..])
    else [ks[0]] + Dedup(ks[1..])
  }

  /** The merging pass of get_reports: `acc` is the report being accumulated,
      `rest` the reports not yet read. */
  function CoalesceFrom(acc: ReportData, rest: seq<ReportData>): seq<ReportData>
    decreases |rest|
  {
    if rest == [] then [acc]
    else if acc.IsSingle(rest[0]) then CoalesceFrom(acc.Merge(rest[0]), rest[1..])
    else [acc] + CoalesceFrom(rest[0], rest[1..])
  }

  /** get_reports with merging: adjacent reports of the same trade become one. */
  function Coalesce(rs: seq<ReportData>): seq<ReportData>
  {
    if rs == [] then [] else CoalesceFrom(rs[0], rs[1..])
  }

  lemma {:induction false} DedupHead<T>(ks: seq<T>)
    requires |ks| > 0
    ensures |Dedup(ks)| > 0 && Dedup(ks)[0] == ks[0]
  {
    if |ks| > 1 && ks[0] == ks[1] {
      DedupHead(ks[1..]);
    }
  }

  /** No two neighbours of the deduplicated sequence are equal. */
  lemma {:induction false} DedupNoRepeats<T>(ks: seq<T>)
    ensures forall i :: 0 <= i < |Dedup(ks)| - 1 ==> Dedup(ks)[i] != Dedup(ks)[i + 1]
  {
    if |ks| > 1 {
      DedupNoRepeats(ks[1..]);
      if ks[0] != ks[1] {
        DedupHead(ks[1..]);
      }
    }
  }

  /** A sequence without equal neighbours is its own deduplication. */
  lemma {:induction false} DedupOfNoRepeats<T>(ks: seq<T>)
    requires forall i :: 0 <= i < |ks| - 1 ==> ks[i] != ks[i + 1]
    ensures Dedup(ks) == ks
  {
    if |ks| > 1 {
      DedupOfNoRepeats(ks[1..]);
    }
  }

  lemma {:induction false} CoalesceFromKeys(acc: ReportData, rest: seq<ReportData>)
    ensures Keys(CoalesceFrom(acc, rest)) == Dedup([acc.Key()] + Keys(rest))
    decreases |rest|
  {
    if rest != [] {
      assert ([acc.Key()] + Keys(rest))[1..] == Keys(rest);
      if acc.IsSingle(rest[0]) {
        var m := acc.Merge(rest[0]);
        CoalesceFromKeys(m, rest[1..]);
        assert [m.Key()] + Keys(rest[1..]) == Keys(rest);
      } else {
        CoalesceFromKeys(rest[0], rest[1..]);
        assert [rest[0].Key()] + Keys(rest[1..]) == Keys(rest);
        assert Keys(CoalesceFrom(acc, rest)) == [acc.Key()] + Keys(CoalesceFrom(rest[0], rest[1..]));
      }
    }
  }

  /** Merging keeps the order of trades and merges only neighbours: the trades
      of the output are those of the input with each run of one trade cut to a
      single entry, so two reports of a trade separated by another stay apart. */
  lemma CoalesceKeys(rs: seq<ReportData>)
    ensures Keys(Coalesce(rs)) == Dedup(Keys(rs))
  {
    if rs != [] {
      CoalesceFromKeys(rs[0], rs[1..]);
      assert [rs[0].Key()] + Keys(rs[1..]) == Keys(rs);
    }
  }

  /** After merging, no two neighbouring reports belong to the same trade. */
  lemma CoalesceNoAdjacentSingles(rs: seq<ReportData>)
    ensures forall i :: 0 <= i < |Coalesce(rs)| - 1 ==> !Coalesce(rs)[i].IsSingle(Coalesce(rs)[i + 1])
  {
    CoalesceKeys(rs);
    DedupNoRepeats(Keys(rs));
    var out := Coalesce(rs);
    forall i | 0 <= i < |out| - 1
      ensures !out[i].IsSingle(out[i + 1])
    {
      assert Keys(out)[i] != Keys(out)[i + 1];
    }
  }

  lemma {:induction false} CoalesceFromTotals(acc: ReportData, rest: seq<ReportData>)
    ensures AmountOf(CoalesceFrom(acc, rest)) == acc.amount + AmountOf(rest)
    ensures CostsOf(CoalesceFrom(acc, rest)) == acc.costs + CostsOf(rest)
    ensures SalesOf(CoalesceFrom(acc, rest)) == acc.sales + SalesOf(rest)
    decreases |rest|
  {
    if rest != [] {
      if acc.IsSingle(rest[0]) {
        CoalesceFromTotals(acc.Merge(rest[0]), rest[1..]);
      } else {
        CoalesceFromTotals(rest[0], rest[1..]);
        var tail := CoalesceFrom(rest[0], rest[1..]);
        assert CoalesceFrom(acc, rest) == [acc] + tail;
        assert ([acc] + tail)[1..] == tail;
      }
    }
  }

  /** Merging neither creates nor loses shares, cost basis or proceeds. */
  lemma CoalesceTotals(rs: seq<ReportData>)
    ensures AmountOf(Coalesce(rs)) == AmountOf(rs)
    ensures CostsOf(Coalesce(rs)) == CostsOf(rs)
    ensures SalesOf(Coalesce(rs)) == SalesOf(rs)
  {
    if rs != [] {
      CoalesceFromTotals(rs[0], rs[1..]);
    }
  }

  lemma {:induction false} CoalesceFromPositive(acc: ReportData, rest: seq<ReportData>)
    requires acc.amount > 0.0
    requires forall i :: 0 <= i < |rest| ==> rest[i].amount > 0.0
    ensures forall i :: 0 <= i < |CoalesceFrom(acc, rest)| ==> CoalesceFrom(acc, rest)[i].amount > 0.0
    decreases |rest|
  {
    if rest != [] {
      if acc.IsSingle(rest[0]) {
        CoalesceFromPositive(acc.Merge(rest[0]), rest[1..]);
      } else {
        CoalesceFromPositive(rest[0], rest[1..]);
      }
    }
  }

  /** Merging reports of positive amounts gives reports of positive amounts. */
  lemma CoalescePositive(rs: seq<ReportData>)
    requires forall i :: 0 <= i < |rs| ==> rs[i].amount > 0.0
    ensures forall i :: 0 <= i < |Coalesce(rs)| ==> Coalesce(rs)[i].amount > 0.0
  {
    if rs != [] {
      CoalesceFromPositive(rs[0], rs[1..]);
    }
  }

  /** A run of reports of one trade merges into a single report that
      carries the dates of the run and the sums of its amounts, costs and
      sales. */
  lemma {:induction false} CoalesceFromRun(acc: ReportData, rest: seq<ReportData>)
    requires forall i :: 0 <= i < |rest| ==> acc.IsSingle(rest[i])
    ensures CoalesceFrom(acc, rest)
            == [ReportData(acc.amount + AmountOf(rest), acc.dateAcquired, acc.costs + CostsOf(rest),
                           acc.dateSold, acc.sales + SalesOf(rest))]
    decreases |rest|
  {
    if rest != [] {
      var m := acc.Merge(rest[0]);
      assert forall i :: 0 <= i < |rest[1..]| ==> m.IsSingle(rest[1..][i]) by {
        forall i | 0 <= i < |rest[1..]|
          ensures m.IsSingle(rest[1..][i])
        {
          assert rest[1..][i] == rest[i + 1];
        }
      }
      CoalesceFromRun(m, rest[1..]);
    }
  }

  /** The report a merging pass ends its input with: the accumulator when
      nothing is left to read, otherwise the last report left. */
  function LastOf(acc: ReportData, rest: seq<ReportData>): ReportData
  {
    if rest == [] then acc else rest[|rest| - 1]
  }

  lemma {:induction false} CoalesceFromAppend(acc: ReportData, rest: seq<ReportData>, ys: seq<ReportData>)
    requires ys != [] && !LastOf(acc, rest).IsSingle(ys[0])
    ensures CoalesceFrom(acc, rest + ys) == CoalesceFrom(acc, rest) + Coalesce(ys)
    decreases |rest|
  {
    if rest == [] {
      assert rest + ys == ys;
    } else {
      assert (rest + ys)[1..] == rest[1..] + ys;
      if rest[1..] != [] {
        assert LastOf(acc, rest) == rest[1..][|rest[1..]| - 1];
      }
      if acc.IsSingle(rest[0]) {
        CoalesceFromAppend(acc.Merge(rest[0]), rest[1..], ys);
      } else {
        CoalesceFromAppend(rest[0], rest[1..], ys);
        var tail := CoalesceFrom(rest[0], rest[1..]);
        assert [acc] + (tail + Coalesce(ys)) == ([acc] + tail) + Coalesce(ys);
      }
    }
  }

  /** Merging works run by run: where two lists meet between different
      trades, merging their concatenation merges each list on its own. */
  lemma CoalesceAppend(xs: seq<ReportData>, ys: seq<ReportData>)
    requires xs != [] && ys != [] && !xs[|xs| - 1].IsSingle(ys[0])
    ensures Coalesce(xs + ys) == Coalesce(xs) + Coalesce(ys)
  {
    assert (xs + ys)[1..] == xs[1..] + ys;
    assert LastOf(xs[0], xs[1..]) == xs[|xs| - 1];
    CoalesceFromAppend(xs[0], xs[1..], ys);
  }

  lemma {:induction false} CoalesceFromUnmerged(acc: ReportData, rest: seq<ReportData>)
    requires rest != [] ==> !acc.IsSingle(rest[0])
    requires forall i :: 0 <= i < |rest| - 1 ==> !rest[i].IsSingle(rest[i + 1])
    ensures CoalesceFrom(acc, rest) == [acc] + rest
    decreases |rest|
  {
    if rest != [] {
      CoalesceFromUnmerged(rest[0], rest[1..]);
      assert [rest[0]] + rest[1..] == rest;
    }
  }

  /** Merging is idempotent: once no neighbours share a trade there is nothing left to merge. */
  lemma CoalesceIdempotent(rs: seq<ReportData>)
    ensures Coalesce(Coalesce(rs)) == Coalesce(rs)
  {
    var out := Coalesce(rs);
    CoalesceNoAdjacentSingles(rs);
    if out != [] {
      CoalesceFromUnmerged(out[0], out[1..]);
      assert [out[0]] + out[1..] == out;
    }
  }
}
