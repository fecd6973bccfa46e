/**
 Report::getPropertyPerformance: every property with its payments and its
 maintenance requests in a date range, through two LEFT JOINs on the same
 property. The two joins multiply: a property with a payments and b
 requests makes max(1, a) * max(1, b) joined rows, so SUM(pay.amount)
 adds each payment once per request and SUM(m.cost) each request once per
 payment. The corrected statement totals each table on its own.
 */
module ReportPerformance {
  import opened Php
  import opened Wrappers
  import opened Rows
  import opened Sql
  import opened BaseModel
  import opened Constants
  import opened Aggregates
  import ReportRevenue
  import ReportOccupancy

  /** A payment the statement joins to property `p`: on it, dated in the range, with status `status`. */
  function SettledOn(p: Row, start: Val, end: Val, status: string): Row -> bool {
    pay => ReportOccupancy.OnProperty(p, pay) && Within(pay, "payment_date", start, end) && Is(pay, "status", status)
  }

  /** A request the statement joins to property `p`: on it and raised in the range. */
  function RaisedOn(p: Row, start: Val, end: Val): Row -> bool {
    m => ReportOccupancy.OnProperty(p, m) && Within(m, "created_at", start, end)
  }

  /** The payments joined to property `p`. */
  function PaymentsOn(payments: seq<Row>, p: Row, start: Val, end: Val, status: string): seq<Row> {
    Filter(payments, SettledOn(p, start, end, status))
  }

  /** The requests joined to property `p`. */
  function RequestsOn(maintenance: seq<Row>, p: Row, start: Val, end: Val): seq<Row> {
    Filter(maintenance, RaisedOn(p, start, end))
  }

  /** The number of partners a LEFT JOIN makes of `n` matches: one NULL partner when there are none. */
  function Fan(n: nat): nat {
    if n == 0 then 1 else n
  }

  /** A LEFT JOIN's partners: the matches, or one row of NULLs. */
  function OrNull(rows: seq<Row>): (r: seq<Row>)
    ensures |r| == Fan(|rows|)
    ensures Total(r, Column("amount")) == Total(rows, Column("amount"))
    ensures Total(r, Column("cost")) == Total(rows, Column("cost"))
  {
    if |rows| == 0 then
      var none: Row := map[];
      assert [none][1..] == [];
      [none]
    else rows
  }

  /** One row of the double join: the property with one payment and one request. */
  function Combined(p: Row, pay: Row, m: Row): (r: Row)
    ensures Get(r, "pay.amount") == Get(pay, "amount") && Get(r, "m.cost") == Get(m, "cost")
  {
    p["pay.id" := Get(pay, PRIMARY_KEY)]["pay.amount" := Get(pay, "amount")]
     ["m.id" := Get(m, PRIMARY_KEY)]["m.cost" := Get(m, "cost")]
  }

  /** The property and one payment, with each of the requests. */
  function WithRequests(p: Row, pay: Row, ms: seq<Row>): seq<Row> {
    if |ms| == 0 then [] else [Combined(p, pay, ms[0])] + WithRequests(p, pay, ms[1..])
  }

  /** The joined rows of one property: each payment with each request. */
  function CrossRows(p: Row, ps: seq<Row>, ms: seq<Row>): seq<Row> {
    if |ps| == 0 then [] else WithRequests(p, ps[0], ms) + CrossRows(p, ps[1..], ms)
  }

  /** One payment with `ms` requests contributes its amount once per request, and the requests' costs once. */
  lemma {:induction false} WithRequestsTotals(p: Row, pay: Row, ms: seq<Row>)
    ensures Total(WithRequests(p, pay, ms), Column("pay.amount")) == |ms| * Number(Get(pay, "amount"))
    ensures Total(WithRequests(p, pay, ms), Column("m.cost")) == Total(ms, Column("cost"))
  {
    if |ms| > 0 {
      WithRequestsTotals(p, pay, ms[1..]);
      TotalAppend([Combined(p, pay, ms[0])], WithRequests(p, pay, ms[1..]), Column("pay.amount"));
      TotalAppend([Combined(p, pay, ms[0])], WithRequests(p, pay, ms[1..]), Column("m.cost"));
      assert [Combined(p, pay, ms[0])][1..] == [];
      assert |ms| * Number(Get(pay, "amount")) == Number(Get(pay, "amount")) + (|ms| - 1) * Number(Get(pay, "amount"));
    }
  }

  /** Over the joined rows, the payments are totalled once per request and the requests once per payment. */
  lemma CrossTotals(p: Row, ps: seq<Row>, ms: seq<Row>)
    ensures Total(CrossRows(p, ps, ms), Column("pay.amount")) == |ms| * Total(ps, Column("amount"))
    ensures Total(CrossRows(p, ps, ms), Column("m.cost")) == |ps| * Total(ms, Column("cost"))
  {
    CrossRevenue(p, ps, ms);
    CrossCost(p, ps, ms);
  }

  /** Each payment's amount is totalled once per request. */
  lemma {:induction false} CrossRevenue(p: Row, ps: seq<Row>, ms: seq<Row>)
    ensures Total(CrossRows(p, ps, ms), Column("pay.amount")) == |ms| * Total(ps, Column("amount"))
  {
    if |ps| > 0 {
      var w, c := WithRequests(p, ps[0], ms), CrossRows(p, ps[1..], ms);
      CrossRevenue(p, ps[1..], ms);
      WithRequestsTotals(p, ps[0], ms);
      assert CrossRows(p, ps, ms) == w + c;
      TotalAppend(w, c, Column("pay.amount"));
      var a := Number(Get(ps[0], "amount"));
      var rest := Total(ps[1..], Column("amount"));
      assert Total(ps, Column("amount")) == a + rest;
      Distribute(|ms|, a, rest, Total(w, Column("pay.amount")), Total(c, Column("pay.amount")),
                 Total(CrossRows(p, ps, ms), Column("pay.amount")), Total(ps, Column("amount")));
    }
  }

  /** Multiplication distributes over addition: `k` times each part adds up to `k` times the sum. */
  lemma Distribute(k: int, a: int, b: int, x: int, y: int, whole: int, sum: int)
    requires x == k * a && y == k * b && whole == x + y && sum == a + b
    ensures whole == k * sum
  {
  }

  /** One more times `t` is `t` more: `t` and `n` times `t` add up to `n + 1` times `t`. */
  lemma OneMore(n: int, t: int, x: int, y: int, whole: int, m: int)
    requires x == t && y == n * t && whole == x + y && m == n + 1
    ensures whole == m * t
  {
  }

  /** The requests' costs are totalled once per payment. */
  lemma {:induction false} CrossCost(p: Row, ps: seq<Row>, ms: seq<Row>)
    ensures Total(CrossRows(p, ps, ms), Column("m.cost")) == |ps| * Total(ms, Column("cost"))
  {
    if |ps| > 0 {
      var w, c := WithRequests(p, ps[0], ms), CrossRows(p, ps[1..], ms);
      CrossCost(p, ps[1..], ms);
      WithRequestsTotals(p, ps[0], ms);
      assert CrossRows(p, ps, ms) == w + c;
      TotalAppend(w, c, Column("m.cost"));
      OneMore(|ps| - 1, Total(ms, Column("cost")), Total(w, Column("m.cost")), Total(c, Column("m.cost")),
              Total(CrossRows(p, ps, ms), Column("m.cost")), |ps|);
    }
  }


  /** The columns of one row: the property, its payment and request counts, its revenue, cost and their difference. */
  function Figures(p: Row, payments: nat, requests: nat, revenue: int, cost: int): (r: Row)
    ensures Get(r, PRIMARY_KEY) == Get(p, PRIMARY_KEY)
    ensures Get(r, "payment_count") == Int(payments) && Get(r, "maintenance_count") == Int(requests)
    ensures Get(r, "total_revenue") == Int(revenue) && Get(r, "maintenance_cost") == Int(cost)
    ensures Get(r, "net_income") == Int(revenue - cost)
  {
    map[PRIMARY_KEY := Get(p, PRIMARY_KEY),
        "name" := Get(p, "name"),
        "city" := Get(p, "city"),
        "monthly_rent" := Get(p, "price"),
        "payment_count" := Int(payments),
        "total_revenue" := Int(revenue),
        "maintenance_count" := Int(requests),
        "maintenance_cost" := Int(cost),
        "net_income" := Int(revenue - cost)]
  }

  /** A row of the statement: the counts of the matched rows, the sums over the joined rows. */
  function PerformanceRow(p: Row, ps: seq<Row>, ms: seq<Row>): Row {
    var cross := CrossRows(p, OrNull(ps), OrNull(ms));
    Figures(p, |ps|, |ms|, Total(cross, Column("pay.amount")), Total(cross, Column("m.cost")))
  }

  /**
   The statement counting the payments with status `status`: one row per
   property (GROUP BY p.id, the ids being distinct), COUNT(DISTINCT ...)
   counting the matched rows, COALESCE(SUM(...), 0) totalling the joined rows.
   */
  function PerformanceOf(properties: seq<Row>, payments: seq<Row>, maintenance: seq<Row>, start: Val, end: Val, status: string): (r: seq<Row>)
    ensures |r| == |properties|
    ensures forall i :: 0 <= i < |r| ==>
              r[i] == PerformanceRow(properties[i], PaymentsOn(payments, properties[i], start, end, status),
                                     RequestsOn(maintenance, properties[i], start, end))
  {
    seq(|properties|, i requires 0 <= i < |properties| =>
      PerformanceRow(properties[i], PaymentsOn(payments, properties[i], start, end, status), RequestsOn(maintenance, properties[i], start, end)))
  }

  /** Report::getPropertyPerformance as written: the 'completed' payments, through the double join. */
  function GetPropertyPerformance(properties: seq<Row>, payments: seq<Row>, maintenance: seq<Row>, start: Val, end: Val): (r: seq<Row>)
    ensures r == PerformanceOf(properties, payments, maintenance, start, end, ReportRevenue.COMPLETED)
  {
    PerformanceOf(properties, payments, maintenance, start, end, ReportRevenue.COMPLETED)
  }

  /** One property's row: its revenue multiplied by its requests, its cost by its payments. */
  lemma RowMultiplies(p: Row, ps: seq<Row>, ms: seq<Row>)
    ensures Number(Get(PerformanceRow(p, ps, ms), "total_revenue")) == Fan(|ms|) * Total(ps, Column("amount"))
    ensures Number(Get(PerformanceRow(p, ps, ms), "maintenance_cost")) == Fan(|ps|) * Total(ms, Column("cost"))
  {
    var cross := CrossRows(p, OrNull(ps), OrNull(ms));
    CrossTotals(p, OrNull(ps), OrNull(ms));
    assert Total(cross, Column("pay.amount")) == Fan(|ms|) * Total(ps, Column("amount"));
    assert Total(cross, Column("m.cost")) == Fan(|ps|) * Total(ms, Column("cost"));
  }

  /**
   As written, a property's total_revenue is its payments' total times the
   number of its requests (at least one), and its maintenance_cost the
   requests' total times the number of its payments (at least one).
   */
  lemma {:induction false} JoinMultiplies(properties: seq<Row>, payments: seq<Row>, maintenance: seq<Row>, start: Val, end: Val, status: string)
    ensures var r := PerformanceOf(properties, payments, maintenance, start, end, status);
            forall i :: 0 <= i < |r| ==>
              var ps := PaymentsOn(payments, properties[i], start, end, status);
              var ms := RequestsOn(maintenance, properties[i], start, end);
              && Number(Get(r[i], "total_revenue")) == Fan(|ms|) * Total(ps, Column("amount"))
              && Number(Get(r[i], "maintenance_cost")) == Fan(|ps|) * Total(ms, Column("cost"))
  {
    var r := PerformanceOf(properties, payments, maintenance, start, end, status);
    forall i | 0 <= i < |r|
      ensures var ps := PaymentsOn(payments, properties[i], start, end, status);
              var ms := RequestsOn(maintenance, properties[i], start, end);
              && Number(Get(r[i], "total_revenue")) == Fan(|ms|) * Total(ps, Column("amount"))
              && Number(Get(r[i], "maintenance_cost")) == Fan(|ps|) * Total(ms, Column("cost")) {
      var p := properties[i];
      RowMultiplies(p, PaymentsOn(payments, p, start, end, status), RequestsOn(maintenance, p, start, end));
    }
  }

  /**
   The counterexample: a property with one completed payment of 100 and two
   requests on the same day reports a revenue of 200.
   */
  lemma RevenueDoubled()
    ensures var day := Str("2024-05-10");
            var p := map[PRIMARY_KEY := Int(1)];
            var pay := map[PRIMARY_KEY := Int(1), "property_id" := Int(1), "amount" := Int(100),
                           "payment_date" := day, "status" := Str(ReportRevenue.COMPLETED)];
            var m1 := map[PRIMARY_KEY := Int(1), "property_id" := Int(1), "created_at" := day];
            var m2 := map[PRIMARY_KEY := Int(2), "property_id" := Int(1), "created_at" := day];
            Get(GetPropertyPerformance([p], [pay], [m1, m2], day, day)[0], "total_revenue") == Int(200)
  {
    var day := Str("2024-05-10");
    var p := map[PRIMARY_KEY := Int(1)];
    var pay := map[PRIMARY_KEY := Int(1), "property_id" := Int(1), "amount" := Int(100),
                   "payment_date" := day, "status" := Str(ReportRevenue.COMPLETED)];
    var m1 := map[PRIMARY_KEY := Int(1), "property_id" := Int(1), "created_at" := day];
    var m2 := map[PRIMARY_KEY := Int(2), "property_id" := Int(1), "created_at" := day];
    assert Get(p, PRIMARY_KEY) == Int(1);
    assert Get(pay, "property_id") == Int(1) && Get(pay, "payment_date") == day && Get(pay, "amount") == Int(100);
    assert Get(pay, "status") == Str(ReportRevenue.COMPLETED);
    assert Get(m1, "property_id") == Int(1) && Get(m1, "created_at") == day;
    assert Get(m2, "property_id") == Int(1) && Get(m2, "created_at") == day;
    assert Compare(day, day) == Some(0);
    StrEqHolds(ReportRevenue.COMPLETED, ReportRevenue.COMPLETED);
    OnePaymentTwoRequests(p, pay, m1, m2, day, day);
  }

  /**
   A property with one completed payment and two requests in range reports
   twice the payment's amount as its revenue.
   */
  lemma OnePaymentTwoRequests(p: Row, pay: Row, m1: Row, m2: Row, start: Val, end: Val)
    requires SettledOn(p, start, end, ReportRevenue.COMPLETED)(pay)
    requires RaisedOn(p, start, end)(m1) && RaisedOn(p, start, end)(m2)
    ensures Get(GetPropertyPerformance([p], [pay], [m1, m2], start, end)[0], "total_revenue") == Int(2 * Number(Get(pay, "amount")))
  {
    PaymentMatched(p, pay, start, end);
    RequestsMatched(p, m1, m2, start, end);
    OnePropertyPerformance(p, [pay], [m1, m2], start, end);
    RevenueTimesRequests(p, pay, PaymentsOn([pay], p, start, end, ReportRevenue.COMPLETED), RequestsOn([m1, m2], p, start, end));
  }

  /** A completed payment in range for the property is matched. */
  lemma PaymentMatched(p: Row, pay: Row, start: Val, end: Val)
    requires SettledOn(p, start, end, ReportRevenue.COMPLETED)(pay)
    ensures PaymentsOn([pay], p, start, end, ReportRevenue.COMPLETED) == [pay]
  {
    Rows.FilterAll([pay], SettledOn(p, start, end, ReportRevenue.COMPLETED));
  }

  /** Two requests raised in range for the property are both matched. */
  lemma RequestsMatched(p: Row, m1: Row, m2: Row, start: Val, end: Val)
    requires RaisedOn(p, start, end)(m1) && RaisedOn(p, start, end)(m2)
    ensures RequestsOn([m1, m2], p, start, end) == [m1, m2]
  {
    var raised := RaisedOn(p, start, end);
    assert [m1, m2][1..] == [m2] && [m2][1..] == [];
    assert Filter([m2], raised) == [m2];
    assert Filter([m1, m2], raised) == [m1] + Filter([m2], raised);
  }

  /** The statement for one property holds that property's row over its matched payments and requests. */
  lemma OnePropertyPerformance(p: Row, payments: seq<Row>, maintenance: seq<Row>, start: Val, end: Val)
    ensures |GetPropertyPerformance([p], payments, maintenance, start, end)| == 1
    ensures GetPropertyPerformance([p], payments, maintenance, start, end)[0]
            == PerformanceRow(p, PaymentsOn(payments, p, start, end, ReportRevenue.COMPLETED), RequestsOn(maintenance, p, start, end))
  {
    assert [p][0] == p;
  }

  /** One payment and `ms` requests make a revenue of the amount once per request. */
  lemma RevenueTimesRequests(p: Row, pay: Row, ps: seq<Row>, ms: seq<Row>)
    requires ps == [pay] && |ms| > 0
    ensures Get(PerformanceRow(p, ps, ms), "total_revenue") == Int(|ms| * Number(Get(pay, "amount")))
  {
    var cross := CrossRows(p, OrNull([pay]), OrNull(ms));
    CrossTotals(p, OrNull([pay]), OrNull(ms));
    OneAmount(pay);
    assert Total(cross, Column("pay.amount")) == |ms| * Number(Get(pay, "amount"));
  }

  /** The total of one payment's amount is its amount. */
  lemma OneAmount(pay: Row)
    ensures Total([pay], Column("amount")) == Number(Get(pay, "amount"))
  {
    assert [pay][1..] == [];
  }

  /** The row the corrected statement makes: each table totalled on its own, over the matched rows only. */
  function SeparateRow(p: Row, ps: seq<Row>, ms: seq<Row>): Row {
    Figures(p, |ps|, |ms|, Total(ps, Column("amount")), Total(ms, Column("cost")))
  }

  /** The performance statement with each table aggregated on its own, counting payments with status `status`. */
  function SeparateOf(properties: seq<Row>, payments: seq<Row>, maintenance: seq<Row>, start: Val, end: Val, status: string): (r: seq<Row>)
    ensures |r| == |properties|
    ensures forall i :: 0 <= i < |r| ==>
              r[i] == SeparateRow(properties[i], PaymentsOn(payments, properties[i], start, end, status),
                                  RequestsOn(maintenance, properties[i], start, end))
  {
    seq(|properties|, i requires 0 <= i < |properties| =>
      SeparateRow(properties[i], PaymentsOn(payments, properties[i], start, end, status), RequestsOn(maintenance, properties[i], start, end)))
  }

  /** The performance report as evidently intended: the payments PaymentsController records ('paid'), each table totalled on its own. */
  function CorrectedPropertyPerformance(properties: seq<Row>, payments: seq<Row>, maintenance: seq<Row>, start: Val, end: Val): (r: seq<Row>)
    ensures r == SeparateOf(properties, payments, maintenance, start, end, PAYMENT_PAID)
  {
    SeparateOf(properties, payments, maintenance, start, end, PAYMENT_PAID)
  }

  /** Corrected, a property's revenue does not depend on the maintenance table, and its costs not on the payments. */
  lemma {:induction false} CorrectedTablesIndependent(properties: seq<Row>, payments: seq<Row>, payments2: seq<Row>,
                                                      maintenance: seq<Row>, maintenance2: seq<Row>, start: Val, end: Val)
    ensures var a := CorrectedPropertyPerformance(properties, payments, maintenance, start, end);
            var b := CorrectedPropertyPerformance(properties, payments, maintenance2, start, end);
            var c := CorrectedPropertyPerformance(properties, payments2, maintenance, start, end);
            forall i :: 0 <= i < |properties| ==>
              Get(a[i], "total_revenue") == Get(b[i], "total_revenue")
              && Get(a[i], "maintenance_cost") == Get(c[i], "maintenance_cost")
  {
  }

  /** One property's row: without a second request the revenue is the plain total, without a second payment the cost. */
  lemma AgreeRow(p: Row, ps: seq<Row>, ms: seq<Row>)
    ensures |ms| <= 1 ==> Get(PerformanceRow(p, ps, ms), "total_revenue") == Get(SeparateRow(p, ps, ms), "total_revenue")
    ensures |ps| <= 1 ==> Get(PerformanceRow(p, ps, ms), "maintenance_cost") == Get(SeparateRow(p, ps, ms), "maintenance_cost")
  {
    var cross := CrossRows(p, OrNull(ps), OrNull(ms));
    CrossTotals(p, OrNull(ps), OrNull(ms));
    if |ms| <= 1 {
      assert |OrNull(ms)| == 1;
      assert Total(cross, Column("pay.amount")) == Total(ps, Column("amount"));
    }
    if |ps| <= 1 {
      assert |OrNull(ps)| == 1;
      assert Total(cross, Column("m.cost")) == Total(ms, Column("cost"));
    }
  }

  /**
   The double join and the separate totals agree on a property's revenue
   when it has at most one request in the range, and on its cost when it
   has at most one payment: the multiplication is the only difference.
   */
  lemma {:induction false} AgreeWithoutFanout(properties: seq<Row>, payments: seq<Row>, maintenance: seq<Row>, start: Val, end: Val, status: string)
    ensures var joined := PerformanceOf(properties, payments, maintenance, start, end, status);
            var separate := SeparateOf(properties, payments, maintenance, start, end, status);
            forall i :: 0 <= i < |properties| ==>
              && (|RequestsOn(maintenance, properties[i], start, end)| <= 1 ==>
                    Get(joined[i], "total_revenue") == Get(separate[i], "total_revenue"))
              && (|PaymentsOn(payments, properties[i], start, end, status)| <= 1 ==>
                    Get(joined[i], "maintenance_cost") == Get(separate[i], "maintenance_cost"))
  {
    var joined := PerformanceOf(properties, payments, maintenance, start, end, status);
    var separate := SeparateOf(properties, payments, maintenance, start, end, status);
    forall i | 0 <= i < |properties|
      ensures |RequestsOn(maintenance, properties[i], start, end)| <= 1 ==>
                Get(joined[i], "total_revenue") == Get(separate[i], "total_revenue")
      ensures |PaymentsOn(payments, properties[i], start, end, status)| <= 1 ==>
                Get(joined[i], "maintenance_cost") == Get(separate[i], "maintenance_cost") {
      var p := properties[i];
      var ps := PaymentsOn(payments, p, start, end, status);
      var ms := RequestsOn(maintenance, p, start, end);
      assert joined[i] == PerformanceRow(p, ps, ms);
      assert separate[i] == SeparateRow(p, ps, ms);
      AgreeRow(p, ps, ms);
    }
  }
}
