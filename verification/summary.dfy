/** The summary view's statistics (`SummaryComponent.calculateStats` and its
    helpers): per-status counts, the five most recent claims, the average
    resolution time, the five customers with most claims, percentages, and the
    status colour and icon. */
module Summary {
  import opened Common
  import opened Seqs
  import opened ClaimModel

  // ---------------------------------------------------------------- keys

  /** The customer a claim is counted under (`claim.clienteId`). */
  function CustomerKey(c: Claim): Option<int> { c.clienteId }

  /** The creation time the recent-claims sort compares. */
  function DateKey(c: Claim): int { c.fechaCreacion.GetOr(0) }

  function HasStatus(status: string): Claim -> bool { (c: Claim) => c.estadoActual == Some(status) }

  // ---------------------------------------------------------------- counts by status

  datatype StatusCount = StatusCount(status: string, count: nat)

  /** `claims.filter(claim => claim.estadoActual === status).length`. */
  function StatusTally(claims: seq<Claim>, status: string): nat
  {
    |Filter(claims, HasStatus(status))|
  }

  /** The tally is the number of claims whose status is exactly `status`. */
  lemma StatusTallyCounts(claims: seq<Claim>, status: string)
    ensures StatusTally(claims, status) == CountKey(claims, StatusKey, Some(status))
  {
    CountKeyIsFilterLength(claims, StatusKey, Some(status), HasStatus(status));
  }

  /** `claimsByStatus`: one entry per status in `statuses`, in that order. */
  function TallyAll(claims: seq<Claim>, statuses: seq<string>): (r: seq<StatusCount>)
    ensures |r| == |statuses|
    ensures forall i :: 0 <= i < |r| ==> r[i].status == statuses[i]
    ensures forall i :: 0 <= i < |r| ==> r[i].count == CountKey(claims, StatusKey, Some(statuses[i]))
  {
    if |statuses| == 0 then []
    else
      StatusTallyCounts(claims, statuses[0]);
      [StatusCount(statuses[0], StatusTally(claims, statuses[0]))] + TallyAll(claims, statuses[1..])
  }

  function SumOfCounts(entries: seq<StatusCount>): nat
  {
    if |entries| == 0 then 0 else entries[0].count + SumOfCounts(entries[1..])
  }

  lemma {:induction false} SumOfTallies(claims: seq<Claim>, statuses: seq<string>)
    ensures SumOfCounts(TallyAll(claims, statuses)) == SumCounts(claims, StatusKey, Map(statuses, SomeOf))
  {
    if |statuses| > 0 {
      SumOfTallies(claims, statuses[1..]);
      assert Map(statuses, SomeOf)[1..] == Map(statuses[1..], SomeOf);
      assert TallyAll(claims, statuses)[1..] == TallyAll(claims, statuses[1..]);
    }
  }

  /** The status keys are distinct, and a status key is one of them exactly when
      it names a value of the enumeration. */
  lemma StatusKeys(ks: seq<Option<string>>)
    requires ks == Map(StatusValues, SomeOf)
    ensures NoDups(ks)
    ensures forall o: Option<string> :: o in ks <==> o.Some? && o.value in StatusValues
  {
    forall o: Option<string> | o.Some? && o.value in StatusValues ensures o in ks {
      var i :| 0 <= i < |StatusValues| && StatusValues[i] == o.value;
      assert ks[i] == o;
    }
  }

  /** The per-status counts add up to at most the number of claims, and to exactly
      that number when every claim's status is one of the enumeration's values. */
  lemma ByStatusSumBound(claims: seq<Claim>)
    ensures SumOfCounts(TallyAll(claims, StatusValues)) <= |claims|
    ensures SumOfCounts(TallyAll(claims, StatusValues)) == |claims| <==>
      forall i :: 0 <= i < |claims| ==> claims[i].estadoActual.Some? && claims[i].estadoActual.value in StatusValues
  {
    var ks := Map(StatusValues, SomeOf);
    StatusKeys(ks);
    SumOfTallies(claims, StatusValues);
    SumCountsIsCountIn(claims, StatusKey, ks);
    CountInFullIff(claims, StatusKey, ks);
  }

  // ---------------------------------------------------------------- resolution time

  const MillisPerDay: nat := 1000 * 60 * 60 * 24

  predicate IsResolved(c: Claim)
  {
    c.estadoActual == Some(Resuelto) || c.estadoActual == Some(Cerrado)
  }

  function ResolvedTest(): Claim -> bool { (c: Claim) => IsResolved(c) }

  predicate HasBothDates(c: Claim)
  {
    c.fechaCreacion.Some? && c.fechaActualizacion.Some?
  }

  /** `Math.ceil(Math.abs(updated - created) / (1000 * 60 * 60 * 24))`. */
  function ResolutionDays(c: Claim): nat
    requires HasBothDates(c)
  {
    var d := c.fechaActualizacion.value - c.fechaCreacion.value;
    var diff: nat := if d < 0 then -d else d;
    (diff + MillisPerDay - 1) / MillisPerDay
  }

  function TotalDays(resolved: seq<Claim>): nat
    requires forall i :: 0 <= i < |resolved| ==> HasBothDates(resolved[i])
  {
    if |resolved| == 0 then 0 else ResolutionDays(resolved[0]) + TotalDays(resolved[1..])
  }

  /** `Math.round(x / n)` for `x >= 0, n > 0`: the nearest integer, halves rounded up. */
  function RoundDiv(x: nat, n: nat): (r: nat)
    requires n > 0
    ensures 2 * n * r <= 2 * x + n < 2 * n * r + 2 * n
  {
    (2 * x + n) / (2 * n)
  }

  /** `averageResolutionDays`: 0 when no claim is resolved or closed; NaN (`None`)
      when one of them lacks a date; otherwise the rounded mean of whole days. */
  function AverageResolutionDays(claims: seq<Claim>): (r: Option<nat>)
    ensures (forall i :: 0 <= i < |claims| ==> !IsResolved(claims[i])) ==> r == Some(0)
    ensures (exists i :: 0 <= i < |claims| && IsResolved(claims[i]) && !HasBothDates(claims[i])) ==> r.None?
  {
    var resolved := Filter(claims, ResolvedTest());
    if |resolved| == 0 then Some(0)
    else if forall i :: 0 <= i < |resolved| ==> HasBothDates(resolved[i]) then
      Some(RoundDiv(TotalDays(resolved), |resolved|))
    else None
  }

  lemma {:induction false} TotalOfUniform(resolved: seq<Claim>, d: nat)
    requires forall i :: 0 <= i < |resolved| ==> HasBothDates(resolved[i]) && ResolutionDays(resolved[i]) == d
    ensures TotalDays(resolved) == |resolved| * d
  {
    if |resolved| > 0 {
      TotalOfUniform(resolved[1..], d);
    }
  }

  lemma RoundDivExact(n: nat, d: nat)
    requires n > 0
    ensures RoundDiv(n * d, n) == d
  {
    assert (2 * n) * d == 2 * (n * d);
    DivUnique(2 * (n * d) + n, 2 * n, d);
  }

  /** When every resolved or closed claim took the same number of days, that is the
      average. */
  lemma UniformResolution(claims: seq<Claim>, d: nat)
    requires exists i :: 0 <= i < |claims| && IsResolved(claims[i])
    requires forall i :: 0 <= i < |claims| && IsResolved(claims[i]) ==> HasBothDates(claims[i]) && ResolutionDays(claims[i]) == d
    ensures AverageResolutionDays(claims) == Some(d)
  {
    var resolved := Filter(claims, ResolvedTest());
    var i :| 0 <= i < |claims| && IsResolved(claims[i]);
    assert claims[i] in resolved;
    assert forall j :: 0 <= j < |resolved| ==> resolved[j] in claims && IsResolved(resolved[j]);
    assert forall j :: 0 <= j < |resolved| ==> HasBothDates(resolved[j]) && ResolutionDays(resolved[j]) == d;
    TotalOfUniform(resolved, d);
    RoundDivExact(|resolved|, d);
  }

  // ---------------------------------------------------------------- top customers

  datatype TopCustomer = TopCustomer(customerId: Option<int>, count: nat)

  /** Keys that a JavaScript object enumerates first, in ascending numeric order:
      the canonical array indices 0 .. 2^32 - 2. Other keys (negative ids, larger
      ids, the "undefined" key of a claim without customer) follow in insertion
      order. */
  predicate IsIndexKey(k: Option<int>)
  {
    k.Some? && 0 <= k.value < 0xFFFF_FFFF
  }

  function IndexKeyTest(): Option<int> -> bool { (k: Option<int>) => IsIndexKey(k) }
  function OtherKeyTest(): Option<int> -> bool { (k: Option<int>) => !IsIndexKey(k) }
  function NegatedKey(k: Option<int>): int { -k.GetOr(0) }

  /** `Object.entries(customerCounts)` key order for counts filled from `claims`. */
  function CustomerKeyOrder(claims: seq<Claim>): seq<Option<int>>
  {
    var keys := Distinct(Map(claims, CustomerKey));
    SortDesc(Filter(keys, IndexKeyTest()), NegatedKey) + Filter(keys, OtherKeyTest())
  }

  function EntryFor(claims: seq<Claim>): Option<int> -> TopCustomer
  {
    (k: Option<int>) => TopCustomer(k, CountKey(claims, CustomerKey, k))
  }

  /** `{ customerId, count }` for every customer, in the object's key order. */
  function CustomerEntries(claims: seq<Claim>): seq<TopCustomer>
  {
    Map(CustomerKeyOrder(claims), EntryFor(claims))
  }

  function EntryCount(e: TopCustomer): int { e.count }

  /** `.sort((a, b) => b.count - a.count).slice(0, 5)`. */
  function TopCustomers(claims: seq<Claim>): (r: seq<TopCustomer>)
    ensures |r| <= 5 && SortedDesc(r, EntryCount)
  {
    TakeOfSorted(SortDesc(CustomerEntries(claims), EntryCount), 5, EntryCount);
    Take(SortDesc(CustomerEntries(claims), EntryCount), 5)
  }

  // ---------------------------------------------------------------- the whole computation

  datatype DashboardStats = DashboardStats(
    totalClaims: nat,
    claimsByStatus: seq<StatusCount>,
    recentClaims: seq<Claim>,
    averageResolutionDays: Option<nat>,
    topCustomers: seq<TopCustomer>)

  /** `calculateStats`. The recent-claims sort runs in place, so the later passes
      see the claims newest first; `sorted` is the caller's array afterwards. */
  function CalculateStats(claims: seq<Claim>): (r: (DashboardStats, seq<Claim>))
    ensures r.0.totalClaims == |claims|
    ensures multiset(r.1) == multiset(claims)
  {
    var sorted := SortDesc(claims, DateKey);
    (DashboardStats(
      |claims|,
      TallyAll(sorted, StatusValues),
      Take(sorted, 5),
      AverageResolutionDays(sorted),
      TopCustomers(sorted)),
     sorted)
  }

  /** The key order lists the distinct customers of `claims`, each once. */
  lemma CustomerKeyOrderFacts(claims: seq<Claim>)
    ensures multiset(CustomerKeyOrder(claims)) == multiset(Distinct(Map(claims, CustomerKey)))
    ensures NoDups(CustomerKeyOrder(claims))
  {
    var keys := Distinct(Map(claims, CustomerKey));
    var a := Filter(keys, IndexKeyTest());
    FilterPartition(keys, IndexKeyTest(), OtherKeyTest());
    assert multiset(SortDesc(a, NegatedKey) + Filter(keys, OtherKeyTest())) == multiset(keys);
    NoDupsPermutation(keys, CustomerKeyOrder(claims));
  }

  /** A key of the order is some claim's customer, and has at least one claim. */
  lemma OrderKeyHasClaims(claims: seq<Claim>, k: Option<int>)
    requires k in CustomerKeyOrder(claims)
    ensures CountKey(claims, CustomerKey, k) > 0
  {
    var ks := Map(claims, CustomerKey);
    var keys := Distinct(ks);
    assert k in keys by {
      CustomerKeyOrderFacts(claims);
      assert k in multiset(keys);
    }
    assert k in ks;
    var i :| 0 <= i < |ks| && ks[i] == k;
    assert CustomerKey(claims[i]) == k;
    CountKeyPositiveIff(claims, CustomerKey, k);
  }

  /** Every customer of `claims` is a key of the order. */
  lemma ClaimCustomerInOrder(claims: seq<Claim>, i: nat)
    requires i < |claims|
    ensures CustomerKey(claims[i]) in CustomerKeyOrder(claims)
  {
    CustomerKeyOrderFacts(claims);
    var keys := Distinct(Map(claims, CustomerKey));
    assert Map(claims, CustomerKey)[i] == CustomerKey(claims[i]);
    assert CustomerKey(claims[i]) in multiset(keys);
  }

  /** The entries are distinct, one per customer of `claims`. */
  lemma EntriesPerCustomer(claims: seq<Claim>)
    ensures NoDups(CustomerEntries(claims))
    ensures |CustomerEntries(claims)| == |Distinct(Map(claims, CustomerKey))|
  {
    CustomerKeyOrderFacts(claims);
    var order := CustomerKeyOrder(claims);
    var es := CustomerEntries(claims);
    assert |multiset(order)| == |multiset(Distinct(Map(claims, CustomerKey)))|;
    forall i, j | 0 <= i < j < |es| ensures es[i] != es[j] {
      assert es[i].customerId == order[i] && es[j].customerId == order[j];
    }
  }

  /** Each entry holds its customer's claim count, which is positive. */
  lemma EntryCountsClaims(claims: seq<Claim>)
    ensures forall e :: e in CustomerEntries(claims) ==> 0 < e.count == CountKey(claims, CustomerKey, e.customerId)
  {
    var order := CustomerKeyOrder(claims);
    var es := CustomerEntries(claims);
    forall e | e in es ensures 0 < e.count == CountKey(claims, CustomerKey, e.customerId) {
      var m :| 0 <= m < |es| && es[m] == e;
      OrderKeyHasClaims(claims, order[m]);
    }
  }

  /** Every claim's customer has its entry. */
  lemma EveryCustomerHasEntry(claims: seq<Claim>)
    ensures forall c :: c in claims ==>
      TopCustomer(c.clienteId, CountKey(claims, CustomerKey, c.clienteId)) in CustomerEntries(claims)
  {
    var order := CustomerKeyOrder(claims);
    var es := CustomerEntries(claims);
    forall c | c in claims ensures TopCustomer(c.clienteId, CountKey(claims, CustomerKey, c.clienteId)) in es {
      var n :| 0 <= n < |claims| && claims[n] == c;
      ClaimCustomerInOrder(claims, n);
      var m :| 0 <= m < |order| && order[m] == c.clienteId;
      assert es[m] == TopCustomer(c.clienteId, CountKey(claims, CustomerKey, c.clienteId));
    }
  }

  /** Entries kept from the customer entries have distinct customers and carry
      those customers' positive claim counts. */
  lemma KeptEntries(claims: seq<Claim>, es: seq<TopCustomer>, r: seq<TopCustomer>)
    requires NoDups(r)
    requires forall i :: 0 <= i < |r| ==> r[i] in es
    requires forall e :: e in es ==> 0 < e.count == CountKey(claims, CustomerKey, e.customerId)
    ensures forall i, j :: 0 <= i < j < |r| ==> r[i].customerId != r[j].customerId
    ensures forall i :: 0 <= i < |r| ==> 0 < r[i].count && r[i].count == CountKey(claims, CustomerKey, r[i].customerId)
  {
    forall i, j | 0 <= i < j < |r| ensures r[i].customerId != r[j].customerId {
      assert r[i] in es && r[j] in es;
    }
  }

  /** A customer of some claim missing from `r` has an entry outside `r`, whose
      count no kept entry is below. */
  lemma LeftOutCustomers(claims: seq<Claim>, es: seq<TopCustomer>, r: seq<TopCustomer>)
    requires forall c :: c in claims ==> TopCustomer(c.clienteId, CountKey(claims, CustomerKey, c.clienteId)) in es
    requires forall e, x :: e in es && e !in r && x in r ==> EntryCount(x) >= EntryCount(e)
    ensures forall c, i ::
              (c in claims && (forall j :: 0 <= j < |r| ==> r[j].customerId != c.clienteId) && 0 <= i < |r|)
              ==> r[i].count >= CountKey(claims, CustomerKey, c.clienteId)
  {
    forall c, i | c in claims && (forall j :: 0 <= j < |r| ==> r[j].customerId != c.clienteId) && 0 <= i < |r|
      ensures r[i].count >= CountKey(claims, CustomerKey, c.clienteId)
    {
      var e := TopCustomer(c.clienteId, CountKey(claims, CustomerKey, c.clienteId));
      assert e !in r;
      assert r[i] in r;
    }
  }

  /** The top five of distinct customer entries that carry their customers' claim
      counts, one entry for each customer of `claims`. */
  lemma TopOfEntries(claims: seq<Claim>, es: seq<TopCustomer>, r: seq<TopCustomer>, n: nat)
    requires NoDups(es) && |es| == n
    requires forall e :: e in es ==> 0 < e.count == CountKey(claims, CustomerKey, e.customerId)
    requires forall c :: c in claims ==> TopCustomer(c.clienteId, CountKey(claims, CustomerKey, c.clienteId)) in es
    requires r == Take(SortDesc(es, EntryCount), 5)
    ensures |r| == (if 5 < n then 5 else n)
    ensures SortedDesc(r, EntryCount)
    ensures forall i, j :: 0 <= i < j < |r| ==> r[i].customerId != r[j].customerId
    ensures forall i :: 0 <= i < |r| ==> 0 < r[i].count && r[i].count == CountKey(claims, CustomerKey, r[i].customerId)
    ensures forall c, i :: (c in claims && (forall j :: 0 <= j < |r| ==> r[j].customerId != c.clienteId) && 0 <= i < |r|)
              ==> r[i].count >= CountKey(claims, CustomerKey, c.clienteId)
  {
    TopOf(es, EntryCount, 5);
    KeptEntries(claims, es, r);
    LeftOutCustomers(claims, es, r);
  }

  /** `topCustomers` lists at most five distinct customers with their claim counts,
      most claims first, as many as there are customers up to five; a customer of
      some claim who is left out has no more claims than any customer listed. */
  lemma TopCustomersFacts(claims: seq<Claim>)
    ensures var r := TopCustomers(claims);
      && |r| == (if 5 < |Distinct(Map(claims, CustomerKey))| then 5 else |Distinct(Map(claims, CustomerKey))|)
      && SortedDesc(r, EntryCount)
      && (forall i, j :: 0 <= i < j < |r| ==> r[i].customerId != r[j].customerId)
      && (forall i :: 0 <= i < |r| ==> 0 < r[i].count && r[i].count == CountKey(claims, CustomerKey, r[i].customerId))
      && (forall c, i :: (c in claims && (forall j :: 0 <= j < |r| ==> r[j].customerId != c.clienteId) && 0 <= i < |r|)
            ==> r[i].count >= CountKey(claims, CustomerKey, c.clienteId))
  {
    EntriesPerCustomer(claims);
    EntryCountsClaims(claims);
    EveryCustomerHasEntry(claims);
    TopOfEntries(claims, CustomerEntries(claims), TopCustomers(claims), |Distinct(Map(claims, CustomerKey))|);
  }

  /** `recentClaims` are the newest claims, newest first: at most five of them, each
      one of the caller's claims, and none created after one left out. */
  lemma RecentClaimsAreNewest(claims: seq<Claim>)
    ensures var r := CalculateStats(claims).0.recentClaims;
      && |r| == (if 5 < |claims| then 5 else |claims|)
      && SortedDesc(r, DateKey)
      && multiset(r) <= multiset(claims)
      && forall x, y :: x in r && y in multiset(claims) - multiset(r) ==> DateKey(x) >= DateKey(y)
  {
    var sorted := SortDesc(claims, DateKey);
    TakeOfSorted(sorted, 5, DateKey);
    PrefixDominates(sorted, 5, DateKey);
  }

  /** The per-status counts are counts over the caller's claims, whatever order the
      sort leaves them in. */
  lemma StatusCountsOfTheClaims(claims: seq<Claim>)
    ensures var st := CalculateStats(claims).0;
      && |st.claimsByStatus| == |StatusValues|
      && forall i :: 0 <= i < |StatusValues| ==>
           st.claimsByStatus[i] == StatusCount(StatusValues[i], CountKey(claims, StatusKey, Some(StatusValues[i])))
  {
    var sorted := SortDesc(claims, DateKey);
    forall i | 0 <= i < |StatusValues|
      ensures CountKey(sorted, StatusKey, Some(StatusValues[i])) == CountKey(claims, StatusKey, Some(StatusValues[i]))
    {
      CountKeyPermutation(sorted, claims, StatusKey, Some(StatusValues[i]));
    }
  }

  /** The top customers' counts are counts over the caller's claims. */
  lemma TopCountsOfTheClaims(claims: seq<Claim>)
    ensures var top := CalculateStats(claims).0.topCustomers;
      forall i :: 0 <= i < |top| ==> top[i].count == CountKey(claims, CustomerKey, top[i].customerId)
  {
    var sorted := SortDesc(claims, DateKey);
    TopCustomersFacts(sorted);
    var top := TopCustomers(sorted);
    forall i | 0 <= i < |top|
      ensures top[i].count == CountKey(claims, CustomerKey, top[i].customerId)
    {
      CountKeyPermutation(sorted, claims, CustomerKey, top[i].customerId);
    }
  }

  // ---------------------------------------------------------------- helpers on the result

  lemma FloorDivBounds(n: int, d: int)
    requires d > 0
    ensures d * (n / d) <= n < d * (n / d) + d
  {
  }

  /** `Math.round((value / total) * 100)` when `total > 0`, else 0: the whole
      percentage nearest to the exact one, halves rounded up. */
  function GetPercentage(value: int, total: int): (r: int)
    ensures total <= 0 ==> r == 0
    ensures total > 0 ==> 2 * total * r <= 200 * value + total < 2 * total * r + 2 * total
  {
    if total > 0 then
      FloorDivBounds(200 * value + total, 2 * total);
      (200 * value + total) / (2 * total)
    else 0
  }

  /** A share of a positive total is a percentage between 0 and 100; the whole is 100. */
  lemma PercentageInRange(value: int, total: int)
    requires 0 <= value <= total && total > 0
    ensures 0 <= GetPercentage(value, total) <= 100
    ensures value == total ==> GetPercentage(value, total) == 100
  {
    var r := GetPercentage(value, total);
    if r > 100 {
      assert 2 * total * r >= 2 * total * 101 by { MulMono(2 * total, 101, r); }
      assert false;
    }
    if r < 0 {
      assert 2 * total * r <= 2 * total * -1 by { MulMono(2 * total, r, -1); }
      assert false;
    }
    if value == total {
      DivUnique(200 * value + total, 2 * total, 100);
    }
  }

  lemma DivUnique(n: int, d: int, q: int)
    requires d > 0 && d * q <= n < d * q + d
    ensures n / d == q
  {
    var q' := n / d;
    FloorDivBounds(n, d);
    if q' > q {
      MulMono(d, q + 1, q');
    } else if q' < q {
      MulMono(d, q' + 1, q);
    }
  }

  lemma MulMono(a: int, x: int, y: int)
    requires a >= 0 && x <= y
    ensures a * x <= a * y
  {
  }

  /** `getStatusColor`; the switch arms naming members that the enumeration does
      not have never match. */
  function GetStatusColor(status: string): (r: string)
    ensures r == "#607D8B" <==> status !in [EnProceso, Resuelto, Cerrado]
  {
    if status == EnProceso then "#FF9800"
    else if status == Resuelto then "#4CAF50"
    else if status == Cerrado then "#9E9E9E"
    else "#607D8B"
  }

  /** `getStatusIcon`, with the same dead arms. */
  function GetStatusIcon(status: string): (r: string)
    ensures r == "help" <==> status !in [EnProceso, Resuelto, Cerrado]
  {
    if status == EnProceso then "pending"
    else if status == Resuelto then "check_circle"
    else if status == Cerrado then "lock"
    else "help"
  }

  function LookupCount(entries: seq<StatusCount>, status: string): (r: nat)
    ensures (forall i :: 0 <= i < |entries| ==> entries[i].status != status) ==> r == 0
  {
    if |entries| == 0 then 0
    else if entries[0].status == status then entries[0].count
    else LookupCount(entries[1..], status)
  }

  /** `getStatusCount`: 0 before the statistics exist and for statuses without an entry. */
  function GetStatusCount(stats: Option<DashboardStats>, status: string): (r: nat)
    ensures stats.None? ==> r == 0
    ensures stats.Some? && (forall i :: 0 <= i < |stats.value.claimsByStatus| ==> stats.value.claimsByStatus[i].status != status) ==> r == 0
  {
    match stats
    case None => 0
    case Some(s) => LookupCount(s.claimsByStatus, status)
  }

  datatype ChartData = ChartData(labels: seq<string>, values: seq<nat>, colors: seq<string>)

  /** `generateChartData`: the keys, values and colours of `claimsByStatus`. */
  function GenerateChartData(stats: DashboardStats): (r: ChartData)
    ensures |r.labels| == |r.values| == |r.colors| == |stats.claimsByStatus|
    ensures forall i :: 0 <= i < |r.labels| ==>
      r.labels[i] == stats.claimsByStatus[i].status
      && r.values[i] == stats.claimsByStatus[i].count
      && r.colors[i] == GetStatusColor(r.labels[i])
  {
    var labels := Map(stats.claimsByStatus, (e: StatusCount) => e.status);
    ChartData(labels,
              Map(stats.claimsByStatus, (e: StatusCount) => e.count),
              Map(labels, GetStatusColor))
  }
}
