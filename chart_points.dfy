/**
 Assembling token chart points from balance rows and report records, then
 filling the gaps. `asNumber` turns a raw integer amount with a number of
 decimal places into a display number; it is not part of this model and is
 passed in as an arbitrary function.
 */
module ChartPoints {
  import opened GapFill

  /** A balance row as the chart receives it: raw integer amounts at a timestamp. */
  datatype Balance = Balance(usd: int, asset: int, timestamp: int)

  /** The fields of a report record that the asset chart reads. */
  datatype ReportRecord = ReportRecord(timestamp: int, usdValue: int, amount: int)

  /** USD values are shown with two decimal places. */
  const UsdDecimals := 2

  /** The unfilled chart point of one balance row: USD and asset slots in the requested order. */
  function TokenPoint<N>(b: Balance, decimals: int, asNumber: (int, int) -> N, usdFirst: bool): (p: Point<N>)
    ensures p.timestamp == b.timestamp && |p.values| == 2
    ensures p.values[if usdFirst then 0 else 1] == asNumber(b.usd, UsdDecimals)
    ensures p.values[if usdFirst then 1 else 0] == asNumber(b.asset, decimals)
  {
    var usd := asNumber(b.usd, UsdDecimals);
    var asset := asNumber(b.asset, decimals);
    Point(b.timestamp, if usdFirst then [usd, asset] else [asset, usd])
  }

  /**
   One two-slot point per balance row, in input order, at the row's
   timestamp; the USD slot comes first when `usdFirst` holds and second
   otherwise, and the other slot holds the asset amount.
   */
  function ToTokenPoints<N>(balances: seq<Balance>, decimals: int, asNumber: (int, int) -> N, usdFirst: bool): (points: seq<Point<N>>)
    ensures |points| == |balances|
    ensures Arity(points, 2)
    ensures forall i :: 0 <= i < |balances| ==>
              && points[i].timestamp == balances[i].timestamp
              && points[i].values[if usdFirst then 0 else 1] == asNumber(balances[i].usd, UsdDecimals)
              && points[i].values[if usdFirst then 1 else 0] == asNumber(balances[i].asset, decimals)
  {
    if |balances| == 0 then []
    else [TokenPoint(balances[0], decimals, asNumber, usdFirst)] + ToTokenPoints(balances[1..], decimals, asNumber, usdFirst)
  }

  /** The balance rows of a list of report records: `usdValue` is the USD amount, `amount` the asset amount. */
  function ToBalances(reports: seq<ReportRecord>): (balances: seq<Balance>)
    ensures |balances| == |reports|
    ensures forall i :: 0 <= i < |reports| ==>
              && balances[i].timestamp == reports[i].timestamp
              && balances[i].usd == reports[i].usdValue
              && balances[i].asset == reports[i].amount
  {
    if |reports| == 0 then []
    else [Balance(reports[0].usdValue, reports[0].amount, reports[0].timestamp)] + ToBalances(reports[1..])
  }

  /**
   `getChartPoints`: assemble the points of the balance rows, then fill the
   gaps. The slot order `usdFirst` is an optional argument defaulting to
   asset-first; here every caller passes it, and callers that omit it pass `false`.
   */
  method GetChartPoints<N>(balances: seq<Balance>, hours: int, decimals: int, asNumber: (int, int) -> N, usdFirst: bool)
    returns (chart: seq<Point<N>>)
    requires hours > 0
    ensures chart == Fill(ToTokenPoints(balances, decimals, asNumber, usdFirst), hours)
    ensures Arity(chart, 2)
    ensures |balances| == 0 ==> chart == []
  {
    var existing := ToTokenPoints(balances, decimals, asNumber, usdFirst);
    chart := AddTokenMissingTimestamps(existing, hours);
  }

  /** `getProjectAssetChartData`: the asset-first chart of a project's report records. */
  method GetProjectAssetChartData<N>(reports: seq<ReportRecord>, decimals: int, hours: int, asNumber: (int, int) -> N)
    returns (chart: seq<Point<N>>)
    requires hours > 0
    ensures chart == Fill(ToTokenPoints(ToBalances(reports), decimals, asNumber, false), hours)
    ensures Arity(chart, 2)
  {
    var balancesInTime := ToBalances(reports);
    chart := GetChartPoints(balancesInTime, hours, decimals, asNumber, false);
  }

  /** Exchange the two slots of a two-slot tuple. */
  function Swap<N>(v: seq<N>): seq<N> {
    if |v| == 2 then [v[1], v[0]] else v
  }

  /**
   The slot order is a pure relabelling: the USD-first chart is the
   asset-first chart with the two slots of every point exchanged, filled-in
   points included.
   */
  lemma UsdFirstSwapsSlots<N>(balances: seq<Balance>, hours: int, decimals: int, asNumber: (int, int) -> N)
    requires hours > 0
    ensures Fill(ToTokenPoints(balances, decimals, asNumber, true), hours) ==
            Relabel(Fill(ToTokenPoints(balances, decimals, asNumber, false), hours), Swap)
  {
    var usdFirst, assetFirst := ToTokenPoints(balances, decimals, asNumber, true), ToTokenPoints(balances, decimals, asNumber, false);
    forall i | 0 <= i < |balances| ensures usdFirst[i] == Relabel(assetFirst, Swap)[i] {
      assert |assetFirst[i].values| == 2;
      assert usdFirst[i].values == [assetFirst[i].values[1], assetFirst[i].values[0]];
      assert Relabel(assetFirst, Swap)[i] == Point(assetFirst[i].timestamp, Swap(assetFirst[i].values));
    }
    assert usdFirst == Relabel(assetFirst, Swap);
    FillRelabel(assetFirst, hours, Swap);
  }

  /**
   At the timestamp of a report record (the last one, if several share it)
   the asset chart shows that record's asset amount and USD value, in that order.
   */
  lemma ProjectAssetChartShowsReport<N>(reports: seq<ReportRecord>, decimals: int, hours: int, asNumber: (int, int) -> N, i: int)
    requires hours > 0 && 0 <= i < |reports|
    requires forall j :: i < j < |reports| ==> reports[j].timestamp != reports[i].timestamp
    ensures forall k :: (0 <= k < |Fill(ToTokenPoints(ToBalances(reports), decimals, asNumber, false), hours)| &&
              Fill(ToTokenPoints(ToBalances(reports), decimals, asNumber, false), hours)[k].timestamp == reports[i].timestamp) ==>
              Fill(ToTokenPoints(ToBalances(reports), decimals, asNumber, false), hours)[k].values ==
                [asNumber(reports[i].amount, decimals), asNumber(reports[i].usdValue, UsdDecimals)]
  {
    var balances := ToBalances(reports);
    var points := ToTokenPoints(balances, decimals, asNumber, false);
    assert LastOccurrence(points, i) by {
      forall j | i < j < |points| ensures points[j].timestamp != points[i].timestamp {
        assert points[j].timestamp == balances[j].timestamp == reports[j].timestamp;
      }
    }
    assert points[i].values == [asNumber(reports[i].amount, decimals), asNumber(reports[i].usdValue, UsdDecimals)];
    FillPassthrough(points, hours, i);
  }
}
