/** The data processing of the analytics hook (src/hooks/useAnalytics.ts,
    `fetchAnalytics`): the period thresholds, order counts and revenue per
    period, dishes grouped by name and cut to the ten most ordered, daily
    trends, and the rounded mean pickup delay. The queries are left out:
    their rows are inputs. Instants are whole seconds; days are numbered
    consecutively (the local calendar day of an instant is its second
    divided by 86400). */
module Analytics {
  import opened Common

  // ---------------------------------------------------------------------
  // Period thresholds
  // ---------------------------------------------------------------------

  predicate IsLeapYear(y: nat)
  {
    (y % 4 == 0 && y % 100 != 0) || y % 400 == 0
  }

  /** Days in month `m` (0 = January) of year `y`, Gregorian calendar. */
  function DaysInMonth(y: nat, m: nat): (n: nat)
    requires m < 12
    ensures 28 <= n <= 31
  {
    if m == 1 then (if IsLeapYear(y) then 29 else 28)
    else if m == 3 || m == 5 || m == 8 || m == 10 then 30
    else 31
  }

  /** The day number of the first day of month number `n` (`n` counts
      months from January of year 0). */
  function MonthStart(n: nat): nat
  {
    if n == 0 then 0 else MonthStart(n - 1) + DaysInMonth((n - 1) / 12, (n - 1) % 12)
  }

  /** The local midnight `new Date(y, m, d)` stands for, as a day number.
      Like the JavaScript constructor it accepts a day past the end of the
      month (or before its start) and carries into the next (previous) one. */
  function LocalDay(y: nat, m: nat, d: int): int
    requires m < 12
  {
    MonthStart(y * 12 + m) + d - 1
  }

  /** Day numbers of `today`, `weekAgo` and `monthAgo` for the calendar day
      (y, m, d) of `now`. `weekAgo` is `setDate(d - 7)`; `monthAgo` is
      `setMonth(m - 1)` with the day kept (January steps back to December of
      the year before, and a day the shorter month lacks carries forward). */
  datatype Thresholds = Thresholds(today: int, weekAgo: int, monthAgo: int)

  function PeriodThresholds(y: nat, m: nat, d: nat): Thresholds
    requires m < 12 && 1 <= d && (y > 0 || m > 0)
  {
    var today := LocalDay(y, m, d);
    var weekAgo := LocalDay(y, m, d - 7);
    var monthAgo := if m == 0 then LocalDay(y - 1, 11, d) else LocalDay(y, m - 1, d);
    Thresholds(today, weekAgo, monthAgo)
  }

  /** The three thresholds are strictly ordered: a month back is always
      further than a week back, even where the day carries into the next
      month, since the month before has at least 28 days. */
  lemma ThresholdsOrdered(y: nat, m: nat, d: nat)
    requires m < 12 && 1 <= d <= DaysInMonth(y, m) && (y > 0 || m > 0)
    ensures var t := PeriodThresholds(y, m, d);
      t.monthAgo < t.weekAgo < t.today
      && t.today - t.weekAgo == 7
      && 28 <= t.today - t.monthAgo <= 31
  {
    var n := y * 12 + m;
    var t := PeriodThresholds(y, m, d);
    assert t.today == MonthStart(n) + d - 1;
    assert t.weekAgo == MonthStart(n) + d - 8;
    if m == 0 {
      assert (y - 1) * 12 + 11 == n - 1;
    } else {
      assert y * 12 + (m - 1) == n - 1;
    }
    assert t.monthAgo == MonthStart(n - 1) + d - 1;
    MonthLength(n);
  }

  /** Consecutive month starts lie 28 to 31 days apart. */
  lemma MonthLength(n: nat)
    requires n >= 1
    ensures 28 <= MonthStart(n) - MonthStart(n - 1) <= 31
  {
  }

  // ---------------------------------------------------------------------
  // Orders and revenue per period
  // ---------------------------------------------------------------------

  /** An order row: when it was created and its total. */
  datatype OrderRow = OrderRow(createdAt: int, skupnaCena: real)

  /** What a `gte('created_at', threshold)` query returns, in table order. */
  function Since(orders: seq<OrderRow>, threshold: int): (r: seq<OrderRow>)
    ensures forall o :: o in r <==> o in orders && o.createdAt >= threshold
    ensures |r| <= |orders|
  {
    if orders == [] then []
    else if orders[0].createdAt >= threshold then [orders[0]] + Since(orders[1..], threshold)
    else Since(orders[1..], threshold)
  }

  /** The `reduce` summing `skupna_cena`. */
  function Revenue(rows: seq<OrderRow>): real
  {
    if rows == [] then 0.0 else rows[0].skupnaCena + Revenue(rows[1..])
  }

  /** `data?.length || 0`: a query without data counts zero. */
  function PeriodCount(data: Option<seq<OrderRow>>): (r: nat)
    ensures data.None? ==> r == 0
    ensures data.Some? ==> r == |data.value|
  {
    if data.Some? then |data.value| else 0
  }

  function PeriodRevenue(data: Option<seq<OrderRow>>): (r: real)
    ensures data.None? ==> r == 0.0
    ensures data.Some? ==> r == Revenue(data.value)
  {
    if data.Some? then Revenue(data.value) else 0.0
  }

  /** A later threshold selects a subset of the earlier one's rows: fewer
      orders and, with non-negative totals, no more revenue. */
  lemma {:induction false} LaterThresholdFewer(orders: seq<OrderRow>, early: int, late: int)
    requires early <= late
    requires forall i :: 0 <= i < |orders| ==> orders[i].skupnaCena >= 0.0
    ensures |Since(orders, late)| <= |Since(orders, early)|
    ensures Revenue(Since(orders, late)) <= Revenue(Since(orders, early))
  {
    if orders != [] {
      LaterThresholdFewer(orders[1..], early, late);
      RevenueNonNegative(Since(orders[1..], early));
    }
  }

  lemma {:induction false} RevenueNonNegative(rows: seq<OrderRow>)
    requires forall i :: 0 <= i < |rows| ==> rows[i].skupnaCena >= 0.0
    ensures Revenue(rows) >= 0.0
  {
    if rows != [] {
      RevenueNonNegative(rows[1..]);
    }
  }

  /** With all three queries answered from the same table, the daily
      figures shown never exceed the weekly ones, nor these the monthly
      ones. A reply without data is shown as no orders and no revenue, so
      the nesting is promised only when all three replies carry data. */
  lemma PeriodsNested(orders: seq<OrderRow>, y: nat, m: nat, d: nat)
    requires m < 12 && 1 <= d <= DaysInMonth(y, m) && (y > 0 || m > 0)
    requires forall i :: 0 <= i < |orders| ==> orders[i].skupnaCena >= 0.0
    ensures var t := PeriodThresholds(y, m, d);
      var daily := Some(Since(orders, t.today * 86400));
      var weekly := Some(Since(orders, t.weekAgo * 86400));
      var monthly := Some(Since(orders, t.monthAgo * 86400));
      PeriodCount(daily) <= PeriodCount(weekly) <= PeriodCount(monthly)
      && PeriodRevenue(daily) <= PeriodRevenue(weekly) <= PeriodRevenue(monthly)
    ensures PeriodCount(None) == 0 && PeriodRevenue(None) == 0.0
  {
    ThresholdsOrdered(y, m, d);
    var t := PeriodThresholds(y, m, d);
    LaterThresholdFewer(orders, t.weekAgo * 86400, t.today * 86400);
    LaterThresholdFewer(orders, t.monthAgo * 86400, t.weekAgo * 86400);
  }

  // ---------------------------------------------------------------------
  // Grouping: one entry per key, in order of first appearance
  // ---------------------------------------------------------------------

  /** A `Map` entry of the grouping loops: a key with a counter and a sum.
      A row's own share is an entry of the same shape. */
  datatype Entry<K> = Entry(key: K, count: int, amount: real)

  /** The keys of `shares`, each once, in order of first appearance: the
      iteration order of a JavaScript `Map` filled from them. */
  function Distinct<K(==)>(shares: seq<Entry<K>>): seq<K>
  {
    if shares == [] then []
    else
      var d := Distinct(shares[..|shares| - 1]);
      if shares[|shares| - 1].key in d then d else d + [shares[|shares| - 1].key]
  }

  /** The counter `key` ends with: the sum of its shares. */
  function CountFor<K(==)>(shares: seq<Entry<K>>, key: K): int
  {
    if shares == [] then 0
    else CountFor(shares[..|shares| - 1], key) + (if shares[|shares| - 1].key == key then shares[|shares| - 1].count else 0)
  }

  function AmountFor<K(==)>(shares: seq<Entry<K>>, key: K): real
  {
    if shares == [] then 0.0
    else AmountFor(shares[..|shares| - 1], key) + (if shares[|shares| - 1].key == key then shares[|shares| - 1].amount else 0.0)
  }

  function TotalCount<K>(entries: seq<Entry<K>>): int
  {
    if entries == [] then 0 else entries[0].count + TotalCount(entries[1..])
  }

  /** Each key appears once, and exactly the keys of the shares appear. */
  lemma {:induction false} DistinctKeys<K>(shares: seq<Entry<K>>)
    ensures UniqueKeys(Distinct(shares))
    ensures forall i :: 0 <= i < |shares| ==> shares[i].key in Distinct(shares)
    ensures forall k :: k in Distinct(shares) ==> exists i :: 0 <= i < |shares| && shares[i].key == k
  {
    if shares != [] {
      var prefix := shares[..|shares| - 1];
      DistinctKeys(prefix);
      assert forall i :: 0 <= i < |prefix| ==> shares[i] == prefix[i];
    }
  }

  ghost predicate UniqueKeys<K>(keys: seq<K>)
  {
    forall a, b :: 0 <= a < b < |keys| ==> keys[a] != keys[b]
  }

  lemma {:induction false} TotalCountReplace<K>(entries: seq<Entry<K>>, j: nat, e: Entry<K>)
    requires j < |entries|
    ensures TotalCount(entries[j := e]) == TotalCount(entries) - entries[j].count + e.count
  {
    if j > 0 {
      assert entries[j := e][1..] == entries[1..][j - 1 := e];
      TotalCountReplace(entries[1..], j - 1, e);
    }
  }

  lemma {:induction false} TotalCountAppend<K>(entries: seq<Entry<K>>, e: Entry<K>)
    ensures TotalCount(entries + [e]) == TotalCount(entries) + e.count
  {
    if entries != [] {
      assert (entries + [e])[1..] == entries[1..] + [e];
      TotalCountAppend(entries[1..], e);
    }
  }

  /** The first position holding `key`, or -1 (`Map.has` / `Map.get`). */
  method FindKey<K(==)>(entries: seq<Entry<K>>, key: K) returns (index: int)
    ensures -1 <= index < |entries|
    ensures index >= 0 ==> entries[index].key == key
    ensures index < 0 ==> forall j :: 0 <= j < |entries| ==> entries[j].key != key
  {
    index := 0;
    while index < |entries|
      invariant 0 <= index <= |entries|
      invariant forall j :: 0 <= j < index ==> entries[j].key != key
    {
      if entries[index].key == key {
        return;
      }
      index := index + 1;
    }
    index := -1;
  }

  /** `entries` holds, in first-appearance order, one entry per key of
      `shares` with that key's totals, and its counters add up to theirs. */
  predicate Tallies<K(==)>(entries: seq<Entry<K>>, shares: seq<Entry<K>>)
  {
    |entries| == |Distinct(shares)|
    && (forall j :: 0 <= j < |entries| ==>
      entries[j].key == Distinct(shares)[j]
      && entries[j].count == CountFor(shares, entries[j].key)
      && entries[j].amount == AmountFor(shares, entries[j].key))
    && TotalCount(entries) == TotalCount(shares)
  }

  /** A share of a key not seen before opens a new entry at the end. */
  lemma TallyNewKey<K>(entries: seq<Entry<K>>, seen: seq<Entry<K>>, share: Entry<K>)
    requires Tallies(entries, seen)
    requires forall j :: 0 <= j < |entries| ==> entries[j].key != share.key
    ensures Tallies(entries + [Entry(share.key, 0 + share.count, 0.0 + share.amount)], seen + [share])
  {
    var next := seen + [share];
    assert next[..|next| - 1] == seen && next[|next| - 1] == share;
    DistinctKeys(seen);
    TotalCountAppend(seen, share);
    assert share.key !in Distinct(seen) by {
      forall j | 0 <= j < |Distinct(seen)| ensures Distinct(seen)[j] != share.key {
        assert entries[j].key == Distinct(seen)[j];
      }
    }
    var added := Entry(share.key, 0 + share.count, 0.0 + share.amount);
    TotalCountAppend(entries, added);
    assert Distinct(next) == Distinct(seen) + [share.key];
    Absent(seen, share.key);
  }

  /** A share of a known key is added into that key's entry. */
  lemma TallyKnownKey<K>(entries: seq<Entry<K>>, seen: seq<Entry<K>>, share: Entry<K>, index: nat)
    requires Tallies(entries, seen)
    requires index < |entries| && entries[index].key == share.key
    ensures Tallies(entries[index := Entry(share.key, entries[index].count + share.count,
      entries[index].amount + share.amount)], seen + [share])
  {
    var next := seen + [share];
    assert next[..|next| - 1] == seen && next[|next| - 1] == share;
    DistinctKeys(seen);
    TotalCountAppend(seen, share);
    assert Distinct(seen)[index] == share.key;
    assert Distinct(next) == Distinct(seen);
    var merged := Entry(share.key, entries[index].count + share.count, entries[index].amount + share.amount);
    forall j | 0 <= j < |entries| && j != index ensures entries[j].key != share.key {
      if j < index {
        assert Distinct(seen)[j] != Distinct(seen)[index];
      } else {
        assert Distinct(seen)[index] != Distinct(seen)[j];
      }
    }
    TotalCountReplace(entries, index, merged);
  }

  /** The `forEach` that fills a `Map`: a new key starts at zero, then the
      row's share is added to its counter and its sum. The entries come out
      in first-appearance order, each holding the totals of its key, and
      the counters together hold every share's count. */
  method Accumulate<K(==)>(shares: seq<Entry<K>>) returns (entries: seq<Entry<K>>)
    ensures |entries| == |Distinct(shares)|
    ensures forall j :: 0 <= j < |entries| ==>
      entries[j].key == Distinct(shares)[j]
      && entries[j].count == CountFor(shares, entries[j].key)
      && entries[j].amount == AmountFor(shares, entries[j].key)
    ensures TotalCount(entries) == TotalCount(shares)
  {
    entries := [];
    var i := 0;
    while i < |shares|
      invariant 0 <= i <= |shares|
      invariant Tallies(entries, shares[..i])
    {
      var share := shares[i];
      assert shares[..i + 1] == shares[..i] + [share];
      var index := FindKey(entries, share.key);
      if index < 0 {
        TallyNewKey(entries, shares[..i], share);
        entries := entries + [Entry(share.key, 0 + share.count, 0.0 + share.amount)];
      } else {
        var e := entries[index];
        TallyKnownKey(entries, shares[..i], share, index);
        entries := entries[index := Entry(e.key, e.count + share.count, e.amount + share.amount)];
      }
      i := i + 1;
    }
    assert shares[..i] == shares;
  }

  /** A key no share carries has a zero counter and a zero sum. */
  lemma {:induction false} Absent<K>(shares: seq<Entry<K>>, key: K)
    requires key !in Distinct(shares)
    ensures CountFor(shares, key) == 0 && AmountFor(shares, key) == 0.0
  {
    DistinctKeys(shares);
    if shares != [] {
      var prefix := shares[..|shares| - 1];
      DistinctKeys(prefix);
      Absent(prefix, key);
    }
  }

  // ---------------------------------------------------------------------
  // Stable sort by an integer rank
  // ---------------------------------------------------------------------

  predicate SortedBy<K>(s: seq<Entry<K>>, rank: Entry<K> -> int)
  {
    forall i, j :: 0 <= i < j < |s| ==> rank(s[i]) <= rank(s[j])
  }

  /** Inserts `x` before the first element of no lower rank, so that it
      stays ahead of the equal-ranked elements that followed it. */
  function Insert<K>(x: Entry<K>, s: seq<Entry<K>>, rank: Entry<K> -> int): (r: seq<Entry<K>>)
    ensures |r| == |s| + 1
  {
    if s == [] then [x]
    else if rank(x) <= rank(s[0]) then [x] + s
    else [s[0]] + Insert(x, s[1..], rank)
  }

  /** Insertion keeps every element and adds `x`. */
  lemma {:induction false} InsertPermutes<K>(x: Entry<K>, s: seq<Entry<K>>, rank: Entry<K> -> int)
    ensures multiset(Insert(x, s, rank)) == multiset(s) + multiset{x}
  {
    if s != [] && rank(x) > rank(s[0]) {
      InsertPermutes(x, s[1..], rank);
      assert s == [s[0]] + s[1..];
    }
  }

  /** Insertion into a sorted list keeps it sorted. */
  lemma {:induction false} InsertSorted<K>(x: Entry<K>, s: seq<Entry<K>>, rank: Entry<K> -> int)
    requires SortedBy(s, rank)
    ensures SortedBy(Insert(x, s, rank), rank)
  {
    if s != [] && rank(x) > rank(s[0]) {
      var rest := Insert(x, s[1..], rank);
      InsertSorted(x, s[1..], rank);
      InsertAbove(x, s[1..], rank, rank(s[0]));
      var r := Insert(x, s, rank);
      assert r == [s[0]] + rest;
      forall a, b | 0 <= a < b < |r| ensures rank(r[a]) <= rank(r[b]) {
        if a > 0 {
          assert r[a] == rest[a - 1] && r[b] == rest[b - 1];
        } else {
          assert r[b] == rest[b - 1];
        }
      }
    }
  }

  /** A lower bound on the ranks of `x` and of `s` bounds the insertion. */
  lemma {:induction false} InsertAbove<K>(x: Entry<K>, s: seq<Entry<K>>, rank: Entry<K> -> int, low: int)
    requires low <= rank(x)
    requires forall j :: 0 <= j < |s| ==> low <= rank(s[j])
    ensures forall j :: 0 <= j < |Insert(x, s, rank)| ==> low <= rank(Insert(x, s, rank)[j])
  {
    if s != [] && rank(x) > rank(s[0]) {
      InsertAbove(x, s[1..], rank, low);
      var rest := Insert(x, s[1..], rank);
      assert Insert(x, s, rank) == [s[0]] + rest;
    }
  }

  lemma {:induction false} InsertTotal<K>(x: Entry<K>, s: seq<Entry<K>>, rank: Entry<K> -> int)
    ensures TotalCount(Insert(x, s, rank)) == TotalCount(s) + x.count
  {
    if s != [] && rank(x) > rank(s[0]) {
      InsertTotal(x, s[1..], rank);
      assert ([s[0]] + Insert(x, s[1..], rank))[1..] == Insert(x, s[1..], rank);
    } else if s != [] {
      assert ([x] + s)[1..] == s;
    }
  }

  /** `Array.prototype.sort` with a comparator of `rank(a) - rank(b)`. */
  function SortBy<K>(s: seq<Entry<K>>, rank: Entry<K> -> int): seq<Entry<K>>
  {
    if s == [] then [] else Insert(s[0], SortBy(s[1..], rank), rank)
  }

  /** The sort is a permutation, its result is sorted, and the counters
      keep their total. */
  lemma {:induction false} SortFacts<K>(s: seq<Entry<K>>, rank: Entry<K> -> int)
    ensures multiset(SortBy(s, rank)) == multiset(s)
    ensures SortedBy(SortBy(s, rank), rank)
    ensures TotalCount(SortBy(s, rank)) == TotalCount(s)
  {
    if s != [] {
      SortFacts(s[1..], rank);
      InsertPermutes(s[0], SortBy(s[1..], rank), rank);
      InsertSorted(s[0], SortBy(s[1..], rank), rank);
      InsertTotal(s[0], SortBy(s[1..], rank), rank);
      assert s == [s[0]] + s[1..];
    }
  }

  // ---------------------------------------------------------------------
  // Popular dishes
  // ---------------------------------------------------------------------

  /** An order line of the last month, with its dish's name. */
  datatype DishItem = DishItem(ime: string, kolicina: int, cenaNaKos: real)

  /** Each line's share: its quantity, and quantity times unit price. */
  function DishShares(items: seq<DishItem>): (r: seq<Entry<string>>)
    ensures |r| == |items|
    ensures forall i :: 0 <= i < |items| ==>
      r[i] == Entry(items[i].ime, items[i].kolicina, items[i].kolicina as real * items[i].cenaNaKos)
    ensures TotalCount(r) == Kolicine(items)
  {
    if items == [] then []
    else [Entry(items[0].ime, items[0].kolicina, items[0].kolicina as real * items[0].cenaNaKos)] + DishShares(items[1..])
  }

  /** The quantities of all lines added up. */
  function Kolicine(items: seq<DishItem>): int
  {
    if items == [] then 0 else items[0].kolicina + Kolicine(items[1..])
  }

  /** Most ordered first. */
  function ByOrdersDescending(e: Entry<string>): int
  {
    -e.count
  }

  /** `popularDishes`: the lines grouped by dish name (two dishes of the
      same name share a group), sorted by quantity ordered, most first, and
      cut to ten. `groups` is the full grouping before the cut. */
  method PopularDishes(items: seq<DishItem>) returns (groups: seq<Entry<string>>, popular: seq<Entry<string>>)
    ensures |groups| == |Distinct(DishShares(items))|
    ensures forall j :: 0 <= j < |groups| ==>
      groups[j].key == Distinct(DishShares(items))[j]
      && groups[j].count == CountFor(DishShares(items), groups[j].key)
      && groups[j].amount == AmountFor(DishShares(items), groups[j].key)
    ensures TotalCount(groups) == Kolicine(items)
    ensures |popular| == if |groups| < 10 then |groups| else 10
    ensures multiset(popular) <= multiset(groups)
    ensures forall i, j :: 0 <= i < j < |popular| ==> popular[i].count >= popular[j].count
    ensures forall e, g :: e in popular && g in multiset(groups) - multiset(popular) ==> g.count <= e.count
  {
    groups := Accumulate(DishShares(items));
    var sorted := SortBy(groups, ByOrdersDescending);
    SortFacts(groups, ByOrdersDescending);
    var n := if |sorted| < 10 then |sorted| else 10;
    assert |sorted| == |multiset(sorted)| == |groups|;
    popular := sorted[..n];
    CutKeepsTop(sorted, n);
  }

  /** The first `n` entries of a list sorted by descending count are in
      descending order, and none of the entries after them counts more. */
  lemma CutKeepsTop(sorted: seq<Entry<string>>, n: nat)
    requires SortedBy(sorted, ByOrdersDescending) && n <= |sorted|
    ensures multiset(sorted[..n]) <= multiset(sorted)
    ensures forall i, j :: 0 <= i < j < n ==> sorted[..n][i].count >= sorted[..n][j].count
    ensures forall e, g :: e in sorted[..n] && g in multiset(sorted) - multiset(sorted[..n]) ==> g.count <= e.count
  {
    var top, rest := sorted[..n], sorted[n..];
    assert sorted == top + rest;
    assert multiset(sorted) == multiset(top) + multiset(rest);
    forall e, g | e in top && g in multiset(sorted) - multiset(top) ensures g.count <= e.count {
      assert g in multiset(rest);
      var a :| 0 <= a < n && top[a] == e;
      var b :| 0 <= b < |rest| && rest[b] == g;
      assert ByOrdersDescending(sorted[a]) <= ByOrdersDescending(sorted[n + b]);
    }
    forall i, j | 0 <= i < j < n ensures top[i].count >= top[j].count {
      assert ByOrdersDescending(sorted[i]) <= ByOrdersDescending(sorted[j]);
    }
  }

  // ---------------------------------------------------------------------
  // Order trends
  // ---------------------------------------------------------------------

  /** An order of the last month: its UTC calendar day (the date part of
      its ISO timestamp, as a day number) and its total. */
  datatype TrendRow = TrendRow(day: int, skupnaCena: real)

  /** Each order counts once and adds its total to its day. */
  function TrendShares(rows: seq<TrendRow>): (r: seq<Entry<int>>)
    ensures |r| == |rows|
    ensures forall i :: 0 <= i < |rows| ==> r[i] == Entry(rows[i].day, 1, rows[i].skupnaCena)
    ensures TotalCount(r) == |rows|
  {
    if rows == [] then [] else [Entry(rows[0].day, 1, rows[0].skupnaCena)] + TrendShares(rows[1..])
  }

  function ByDate(e: Entry<int>): int
  {
    e.key
  }

  /** `orderTrends`: one entry per day with its order count and revenue,
      earliest day first, every day of an order present. The counts add up
      to the number of orders. */
  method OrderTrends(rows: seq<TrendRow>) returns (trends: seq<Entry<int>>)
    ensures |trends| == |Distinct(TrendShares(rows))|
    ensures forall e :: e in trends ==>
      e.key in Distinct(TrendShares(rows))
      && e.count == CountFor(TrendShares(rows), e.key)
      && e.amount == AmountFor(TrendShares(rows), e.key)
    ensures forall i, j :: 0 <= i < j < |trends| ==> trends[i].key <= trends[j].key
    ensures forall i :: 0 <= i < |rows| ==> exists e :: e in trends && e.key == rows[i].day
    ensures TotalCount(trends) == |rows|
  {
    var shares := TrendShares(rows);
    var byDay := Accumulate(shares);
    DistinctKeys(shares);
    trends := SortBy(byDay, ByDate);
    SortFacts(byDay, ByDate);
    assert |trends| == |multiset(trends)| == |byDay|;
    assert forall e :: e in trends <==> e in byDay by {
      assert forall e :: e in trends <==> e in multiset(trends);
      assert forall e :: e in byDay <==> e in multiset(byDay);
    }
    forall i, j | 0 <= i < j < |trends| ensures trends[i].key <= trends[j].key {
      assert ByDate(trends[i]) <= ByDate(trends[j]);
    }
    forall i | 0 <= i < |rows| ensures exists e :: e in trends && e.key == rows[i].day {
      assert shares[i].key == rows[i].day;
      var j :| 0 <= j < |Distinct(shares)| && Distinct(shares)[j] == rows[i].day;
      assert byDay[j] in trends;
    }
  }

  // ---------------------------------------------------------------------
  // Average pickup delay
  // ---------------------------------------------------------------------

  /** A picked-up order: when it was placed and its pickup time, in seconds. */
  datatype PickupRow = PickupRow(createdAt: int, casPrevzema: int)

  function DelayMinutes(row: PickupRow): real
  {
    (row.casPrevzema - row.createdAt) as real / 60.0
  }

  /** The sum the `reduce` builds. */
  function TotalMinutes(rows: seq<PickupRow>): real
  {
    if rows == [] then 0.0 else TotalMinutes(rows[..|rows| - 1]) + DelayMinutes(rows[|rows| - 1])
  }

  /** `Math.round`: the nearest integer, halves rounded up. */
  function Round(x: real): (r: int)
    ensures r as real - 0.5 <= x < r as real + 0.5
  {
    (x + 0.5).Floor
  }

  /** The mean delay, rounded; zero when no order was picked up or the
      query returned no data. */
  method AveragePickupTime(data: Option<seq<PickupRow>>) returns (averagePickupTime: int)
    ensures data.None? || data.value == [] ==> averagePickupTime == 0
    ensures data.Some? && data.value != [] ==>
      averagePickupTime == Round(TotalMinutes(data.value) / |data.value| as real)
  {
    averagePickupTime := 0;
    if data.Some? && |data.value| > 0 {
      var rows := data.value;
      var totalMinutes := 0.0;
      var i := 0;
      while i < |rows|
        invariant 0 <= i <= |rows|
        invariant totalMinutes == TotalMinutes(rows[..i])
      {
        assert rows[..i + 1][..i] == rows[..i];
        totalMinutes := totalMinutes + DelayMinutes(rows[i]);
        i := i + 1;
      }
      assert rows[..i] == rows;
      averagePickupTime := Round(totalMinutes / |rows| as real);
    }
  }

  /** When every order waited the same whole number of minutes, the
      average is exactly that number. */
  lemma {:induction false} UniformDelay(rows: seq<PickupRow>, minutes: int)
    requires rows != []
    requires forall i :: 0 <= i < |rows| ==> rows[i].casPrevzema - rows[i].createdAt == 60 * minutes
    ensures TotalMinutes(rows) == |rows| as real * minutes as real
    ensures Round(TotalMinutes(rows) / |rows| as real) == minutes
  {
    UniformTotal(rows, minutes);
    var n := |rows| as real;
    assert TotalMinutes(rows) / n == minutes as real;
  }

  lemma {:induction false} UniformTotal(rows: seq<PickupRow>, minutes: int)
    requires forall i :: 0 <= i < |rows| ==> rows[i].casPrevzema - rows[i].createdAt == 60 * minutes
    ensures TotalMinutes(rows) == |rows| as real * minutes as real
  {
    if rows != [] {
      UniformTotal(rows[..|rows| - 1], minutes);
      assert DelayMinutes(rows[|rows| - 1]) == minutes as real;
    }
  }
}
