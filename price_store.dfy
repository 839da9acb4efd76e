/**
 What the price store's queries return, stated over the list of stored price
 records: lookups by timestamp and by asset, the earliest and latest
 timestamp of every asset, and the latest timestamp of every asset inside a
 time range.
 */
module PriceStore {
  import opened GapFill

  /**
   A stored price: the asset, an hour-aligned Unix timestamp and the USD
   price. The asset identity `A` is any type with equality.
   */
  datatype PriceRecord<A> = PriceRecord(assetId: A, timestamp: int, priceUsd: real)

  /** The earliest and latest timestamp stored for one asset. */
  datatype DataBoundary = DataBoundary(earliest: int, latest: int)

  /** The row filters the store's queries use. */
  datatype Condition<A> = AtTimestamp(t: int) | OfAsset(a: A) | Between(from: int, to: int)

  /** `x` passes condition `c`; a range includes both of its ends. */
  predicate Holds<A(==)>(c: Condition<A>, x: PriceRecord<A>) {
    match c
    case AtTimestamp(t) => x.timestamp == t
    case OfAsset(a) => x.assetId == a
    case Between(from, to) => InRange(x, from, to)
  }

  /** The records that pass `c`, in stored order. */
  function Where<A(==)>(records: seq<PriceRecord<A>>, c: Condition<A>): (r: seq<PriceRecord<A>>)
    ensures |r| <= |records|
    ensures forall i :: 0 <= i < |r| ==> Holds(c, r[i])
  {
    if |records| == 0 then []
    else if Holds(c, records[0]) then [records[0]] + Where(records[1..], c)
    else Where(records[1..], c)
  }

  /** `Where` keeps each record that passes `c` as often as it is stored, and no other record. */
  lemma {:induction false} WhereSelects<A(!new)>(records: seq<PriceRecord<A>>, c: Condition<A>)
    ensures forall x :: multiset(Where(records, c))[x] == if Holds(c, x) then multiset(records)[x] else 0
    ensures forall x :: x in Where(records, c) <==> x in records && Holds(c, x)
  {
    if |records| > 0 {
      WhereSelects(records[1..], c);
      assert records == [records[0]] + records[1..];
    }
  }

  /** `getByTimestamp`: exactly the records stored at timestamp `t`. */
  function GetByTimestamp<A(==,!new)>(records: seq<PriceRecord<A>>, t: int): (r: seq<PriceRecord<A>>)
    ensures forall x :: multiset(r)[x] == if x.timestamp == t then multiset(records)[x] else 0
  {
    WhereSelects(records, AtTimestamp(t));
    Where(records, AtTimestamp(t))
  }

  /** `getByToken`: exactly the records stored for asset `a`. */
  function GetByToken<A(==,!new)>(records: seq<PriceRecord<A>>, a: A): (r: seq<PriceRecord<A>>)
    ensures forall x :: multiset(r)[x] == if x.assetId == a then multiset(records)[x] else 0
  {
    WhereSelects(records, OfAsset(a));
    Where(records, OfAsset(a))
  }

  function Min(a: int, b: int): int { if a <= b then a else b }
  function Max(a: int, b: int): int { if a <= b then b else a }

  /**
   `b` holds one boundary per asset that has records and for no other asset,
   and each boundary runs from the smallest to the largest timestamp among
   that asset's records.
   */
  ghost predicate IsBoundaries<A(!new)>(b: map<A, DataBoundary>, records: seq<PriceRecord<A>>) {
    && b.Keys == (set x | x in records :: x.assetId)
    && (forall x :: x in records ==> b[x.assetId].earliest <= x.timestamp <= b[x.assetId].latest)
    && (forall a :: a in b ==> exists x :: x in records && x.assetId == a && x.timestamp == b[a].earliest)
    && (forall a :: a in b ==> exists x :: x in records && x.assetId == a && x.timestamp == b[a].latest)
  }

  /** Widen the boundary of `x`'s asset so that it covers `x`'s timestamp, or open one at it. */
  function Include<A(==,!new)>(b: map<A, DataBoundary>, x: PriceRecord<A>): map<A, DataBoundary> {
    var a := x.assetId;
    b[a := if a in b then DataBoundary(Min(x.timestamp, b[a].earliest), Max(x.timestamp, b[a].latest))
           else DataBoundary(x.timestamp, x.timestamp)]
  }

  lemma IncludeKeepsBoundaries<A(!new)>(b: map<A, DataBoundary>, x: PriceRecord<A>, rest: seq<PriceRecord<A>>)
    requires IsBoundaries(b, rest)
    ensures IsBoundaries(Include(b, x), [x] + rest)
  {
    var b', records := Include(b, x), [x] + rest;
    forall y | y in records ensures b'[y.assetId].earliest <= y.timestamp <= b'[y.assetId].latest {
      if y != x {
        assert y in rest;
      }
    }
    forall a | a in b' ensures exists y :: y in records && y.assetId == a && y.timestamp == b'[a].earliest {
      if a == x.assetId && b'[a].earliest == x.timestamp {
        assert x in records;
      } else {
        var y :| y in rest && y.assetId == a && y.timestamp == b[a].earliest;
        assert y in records;
      }
    }
    forall a | a in b' ensures exists y :: y in records && y.assetId == a && y.timestamp == b'[a].latest {
      if a == x.assetId && b'[a].latest == x.timestamp {
        assert x in records;
      } else {
        var y :| y in rest && y.assetId == a && y.timestamp == b[a].latest;
        assert y in records;
      }
    }
    assert b'.Keys == (set y | y in records :: y.assetId) by {
      forall a ensures a in b'.Keys <==> a in (set y | y in records :: y.assetId) {
        if a in b && a != x.assetId {
          var y :| y in rest && y.assetId == a;
          assert y in records;
        }
      }
    }
  }

  /**
   `findDataBoundaries`: one entry per asset that has records and for no
   other asset; its `earliest` and `latest` are the smallest and largest
   timestamp among that asset's records.
   */
  function FindDataBoundaries<A(==,!new)>(records: seq<PriceRecord<A>>): (b: map<A, DataBoundary>)
    ensures IsBoundaries(b, records)
  {
    if |records| == 0 then map[]
    else
      var rest := FindDataBoundaries(records[1..]);
      assert records == [records[0]] + records[1..];
      IncludeKeepsBoundaries(rest, records[0], records[1..]);
      Include(rest, records[0])
  }

  /** `x` lies in `[from, to]`, both ends included. */
  predicate InRange<A>(x: PriceRecord<A>, from: int, to: int) {
    from <= x.timestamp <= to
  }

  /**
   `latest` holds an entry for every asset with a record in `[from, to]` and
   for no other asset, and that entry is the largest timestamp of such a record.
   */
  ghost predicate IsLatestBetween<A(!new)>(latest: map<A, int>, records: seq<PriceRecord<A>>, from: int, to: int) {
    && latest.Keys == (set x | x in records && InRange(x, from, to) :: x.assetId)
    && (forall x :: x in records && InRange(x, from, to) ==> x.timestamp <= latest[x.assetId])
    && (forall a :: a in latest ==>
          exists x :: x in records && InRange(x, from, to) && x.assetId == a && x.timestamp == latest[a])
  }

  /** The latest ends of the boundaries of the records in range are the latest timestamps in range. */
  lemma LatestFromBoundaries<A(!new)>(records: seq<PriceRecord<A>>, from: int, to: int, inRange: seq<PriceRecord<A>>, b: map<A, DataBoundary>)
    requires forall x :: x in inRange <==> x in records && InRange(x, from, to)
    requires IsBoundaries(b, inRange)
    ensures IsLatestBetween(map a | a in b :: b[a].latest, records, from, to)
  {
    var latest := map a | a in b :: b[a].latest;
    forall a | a in latest
      ensures exists x :: x in records && InRange(x, from, to) && x.assetId == a && x.timestamp == latest[a]
    {
      var x :| x in inRange && x.assetId == a && x.timestamp == b[a].latest;
    }
    assert latest.Keys == b.Keys;
  }

  /**
   `findLatestByTokenBetween`: for every asset with a record whose timestamp
   lies in `[from, to]` (both ends included), the largest such timestamp;
   assets without one are absent.
   */
  function FindLatestByTokenBetween<A(==,!new)>(records: seq<PriceRecord<A>>, from: int, to: int): (latest: map<A, int>)
    ensures IsLatestBetween(latest, records, from, to)
  {
    var inRange := Where(records, Between(from, to));
    WhereSelects(records, Between(from, to));
    var b := FindDataBoundaries(inRange);
    LatestFromBoundaries(records, from, to, inRange, b);
    map a | a in b :: b[a].latest
  }

  /**
   An asset's boundary is pinned down by its records: if `e` and `l` are the
   timestamps of two of its records and all its records lie between them,
   its boundary is `(e, l)`.
   */
  lemma BoundaryOfAsset<A(!new)>(records: seq<PriceRecord<A>>, a: A, i: int, j: int)
    requires 0 <= i < |records| && 0 <= j < |records| && records[i].assetId == a && records[j].assetId == a
    requires forall k :: 0 <= k < |records| && records[k].assetId == a ==>
               records[i].timestamp <= records[k].timestamp <= records[j].timestamp
    ensures a in FindDataBoundaries(records)
    ensures FindDataBoundaries(records)[a] == DataBoundary(records[i].timestamp, records[j].timestamp)
  {
    BoundaryPinned(FindDataBoundaries(records), records, a, i, j);
  }

  lemma BoundaryPinned<A(!new)>(b: map<A, DataBoundary>, records: seq<PriceRecord<A>>, a: A, i: int, j: int)
    requires IsBoundaries(b, records)
    requires 0 <= i < |records| && 0 <= j < |records| && records[i].assetId == a && records[j].assetId == a
    requires forall k :: 0 <= k < |records| && records[k].assetId == a ==>
               records[i].timestamp <= records[k].timestamp <= records[j].timestamp
    ensures a in b && b[a] == DataBoundary(records[i].timestamp, records[j].timestamp)
  {
    assert records[i] in records && records[j] in records;
    var e :| e in records && e.assetId == a && e.timestamp == b[a].earliest;
    var l :| l in records && l.assetId == a && l.timestamp == b[a].latest;
    var ke :| 0 <= ke < |records| && records[ke] == e;
    var kl :| 0 <= kl < |records| && records[kl] == l;
  }

  /** An asset with a single record has `earliest == latest`, both that record's timestamp. */
  lemma SingleRecordBoundary<A(!new)>(records: seq<PriceRecord<A>>, i: int)
    requires 0 <= i < |records|
    requires forall j :: 0 <= j < |records| && j != i ==> records[j].assetId != records[i].assetId
    ensures FindDataBoundaries(records)[records[i].assetId] == DataBoundary(records[i].timestamp, records[i].timestamp)
  {
    BoundaryOfAsset(records, records[i].assetId, i, i);
  }

  /** With no stored records every query is empty. */
  lemma EmptyStore<A(!new)>(a: A, t: int, from: int, to: int)
    ensures FindDataBoundaries<A>([]) == map[]
    ensures FindLatestByTokenBetween<A>([], from, to) == map[]
    ensures GetByTimestamp<A>([], t) == [] && GetByToken<A>([], a) == []
  {
    assert multiset(GetByTimestamp<A>([], t)) == multiset{};
    assert multiset(GetByToken<A>([], a)) == multiset{};
  }

  // ---------------------------------------------------------------------------
  // The store's test fixtures, relative to the instant `start`
  // ---------------------------------------------------------------------------

  /** The assets the fixtures use. */
  datatype TestAsset = Eth | Uni | Dai

  const Day := 24 * SecondsPerHour

  function Data(start: int): seq<PriceRecord<TestAsset>> {
    [ PriceRecord(Eth, start - SecondsPerHour, 3000.0),
      PriceRecord(Eth, start - 2 * SecondsPerHour, 3100.0),
      PriceRecord(Uni, start - SecondsPerHour, 20.0),
      PriceRecord(Uni, start - 2 * SecondsPerHour, 22.0),
      PriceRecord(Dai, start, 1.0) ]
  }

  /** The records one hour before `start` are the first ETH and the first UNI record. */
  lemma GetByTimestampFixture(start: int)
    ensures multiset(GetByTimestamp(Data(start), start - SecondsPerHour)) == multiset{Data(start)[0], Data(start)[2]}
  {
    var d, c := Data(start), AtTimestamp(start - SecondsPerHour);
    assert Where(d[4..], c) == [];
    assert Where(d[3..], c) == [];
    assert Where(d[2..], c) == [d[2]];
    assert Where(d[1..], c) == [d[2]];
    assert Where(d, c) == [d[0], d[2]];
  }

  /** The UNI records are the third and fourth. */
  lemma GetByTokenFixture(start: int)
    ensures multiset(GetByToken(Data(start), Uni)) == multiset{Data(start)[2], Data(start)[3]}
  {
    var d, c := Data(start), OfAsset(Uni);
    assert Where(d[4..], c) == [];
    assert Where(d[3..], c) == [d[3]];
    assert Where(d[2..], c) == [d[2], d[3]];
    assert Where(d[1..], c) == [d[2], d[3]];
    assert Where(d, c) == [d[2], d[3]];
  }

  lemma EveryTestAsset<V>(m: map<TestAsset, V>)
    requires Eth in m && Uni in m && Dai in m
    ensures m == map[Eth := m[Eth], Uni := m[Uni], Dai := m[Dai]]
  {
    forall a: TestAsset ensures a in m.Keys <==> a in {Eth, Uni, Dai} {
      assert a.Eth? || a.Uni? || a.Dai?;
    }
  }

  /** ETH and UNI span two hours before `start` to one hour before; DAI has the single instant `start`. */
  lemma BoundariesFixture(start: int)
    ensures FindDataBoundaries(Data(start)) ==
              map[Eth := DataBoundary(start - 2 * SecondsPerHour, start - SecondsPerHour),
                  Uni := DataBoundary(start - 2 * SecondsPerHour, start - SecondsPerHour),
                  Dai := DataBoundary(start, start)]
  {
    FixtureBoundary(start, Eth, 1, 0);
    FixtureBoundary(start, Uni, 3, 2);
    FixtureBoundary(start, Dai, 4, 4);
    EveryTestAsset(FindDataBoundaries(Data(start)));
  }

  lemma FixtureBoundary(start: int, a: TestAsset, i: int, j: int)
    requires (a, i, j) in {(Eth, 1, 0), (Uni, 3, 2), (Dai, 4, 4)}
    ensures a in FindDataBoundaries(Data(start))
    ensures FindDataBoundaries(Data(start))[a] == DataBoundary(Data(start)[i].timestamp, Data(start)[j].timestamp)
  {
    BoundaryOfAsset(Data(start), a, i, j);
  }

  /**
   Between one day and one hour before `start`: the ETH record exactly at the
   lower bound is found, the DAI record at `start` is past the upper bound.
   */
  lemma LatestBetweenFixture(start: int)
    ensures FindLatestByTokenBetween([PriceRecord(Eth, start - Day, 3000.0), PriceRecord(Dai, start, 1.0)],
                                     start - Day, start - SecondsPerHour) == map[Eth := start - Day]
  {
    var d := [PriceRecord(Eth, start - Day, 3000.0), PriceRecord(Dai, start, 1.0)];
    LatestOnlyEth(FindLatestByTokenBetween(d, start - Day, start - SecondsPerHour), d, start - Day, start - SecondsPerHour, start);
  }

  lemma LatestOnlyEth(latest: map<TestAsset, int>, d: seq<PriceRecord<TestAsset>>, from: int, to: int, start: int)
    requires from == start - Day && to == start - SecondsPerHour
    requires d == [PriceRecord(Eth, start - Day, 3000.0), PriceRecord(Dai, start, 1.0)]
    requires IsLatestBetween(latest, d, from, to)
    ensures latest == map[Eth := start - Day]
  {
    assert InRange(d[0], from, to) && !InRange(d[1], from, to);
    assert d[0] in d;
    assert forall x :: x in d ==> x == d[0] || x == d[1];
    assert latest.Keys == {Eth} by {
      forall a ensures a in latest.Keys <==> a == Eth {
        if a in latest.Keys {
          var x :| x in d && InRange(x, from, to) && x.assetId == a;
        }
      }
    }
    var x :| x in d && InRange(x, from, to) && x.assetId == Eth && x.timestamp == latest[Eth];
  }
}
