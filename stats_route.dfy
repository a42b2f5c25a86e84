/** app/api/stats/route.ts: one aggregate row over the items table, counted
    by type and by status. */
module StatsRoute {
  import opened Common
  import opened ItemTypes

  /** `SUM(CASE WHEN type = t THEN 1 ELSE 0 END)` over non-null rows. */
  function CountType(items: seq<Item>, t: ItemType): (n: nat)
    ensures n <= |items|
  {
    if items == [] then 0 else (if items[0].itemType == t then 1 else 0) + CountType(items[1..], t)
  }

  /** `SUM(CASE WHEN status = s THEN 1 ELSE 0 END)` over non-null rows. */
  function CountStatus(items: seq<Item>, s: ItemStatus): (n: nat)
    ensures n <= |items|
  {
    if items == [] then 0 else (if items[0].status == s then 1 else 0) + CountStatus(items[1..], s)
  }

  /** The row the query returns. A SUM over no rows is SQL NULL, so the five
      sums are None on an empty table while COUNT(*) is 0. */
  datatype StatsRow = StatsRow(
    total: nat,
    lostCount: Option<nat>, foundCount: Option<nat>,
    activeCount: Option<nat>, claimedCount: Option<nat>, returnedCount: Option<nat>)

  /** A SUM: NULL over no rows, the count otherwise. */
  function Sum(items: seq<Item>, n: nat): Option<nat>
  {
    if items == [] then None else Some(n)
  }

  function Stats(items: seq<Item>): StatsRow
  {
    StatsRow(|items|,
      Sum(items, CountType(items, Lost)), Sum(items, CountType(items, Found)),
      Sum(items, CountStatus(items, Active)), Sum(items, CountStatus(items, Claimed)),
      Sum(items, CountStatus(items, Returned)))
  }

  /** The response: the row, or 500 with "Failed to fetch statistics". */
  datatype StatsReply = StatsOk(row: StatsRow) | StatsFailed
  {
    function Status(): int
    {
      if StatsOk? then 200 else 500
    }

    function Text(): string
    {
      if StatsOk? then "" else "Failed to fetch statistics"
    }
  }

  function GetStats(items: seq<Item>, queryFails: bool): (r: StatsReply)
    ensures r.StatsFailed? <==> queryFails
    ensures r.StatsFailed? ==> r.Status() == 500 && r.Text() == "Failed to fetch statistics"
    ensures r.StatsOk? ==> r.row.total == |items|
  {
    if queryFails then StatsFailed else StatsOk(Stats(items))
  }

  /** Each count is the number of rows with that value, as a filter. */
  lemma {:induction false} CountsAreFilters(items: seq<Item>, t: ItemType, s: ItemStatus)
    ensures CountType(items, t) == |Filter(items, (x: Item) => x.itemType == t)|
    ensures CountStatus(items, s) == |Filter(items, (x: Item) => x.status == s)|
  {
    if items != [] {
      CountsAreFilters(items[1..], t, s);
    }
  }

  /** Every item is lost or found, so the two type counts add up to total. */
  lemma {:induction false} TypeCountsPartition(items: seq<Item>)
    ensures CountType(items, Lost) + CountType(items, Found) == |items|
  {
    if items != [] {
      TypeCountsPartition(items[1..]);
    }
  }

  /** Every item is active, claimed or returned, so the three status counts
      add up to total. */
  lemma {:induction false} StatusCountsPartition(items: seq<Item>)
    ensures CountStatus(items, Active) + CountStatus(items, Claimed) + CountStatus(items, Returned) == |items|
  {
    if items != [] {
      StatusCountsPartition(items[1..]);
    }
  }

  /** The row's identities: total counts the rows; on a non-empty table
      lost + found == total and active + claimed + returned == total, each
      sum at most total; on an empty table total is 0 and every sum NULL. */
  lemma StatsIdentities(items: seq<Item>)
    ensures var r := Stats(items);
      r.total == |items| &&
      (items == [] ==> r.total == 0 && r.lostCount.None? && r.foundCount.None? &&
                       r.activeCount.None? && r.claimedCount.None? && r.returnedCount.None?) &&
      (items != [] ==>
        r.lostCount.Some? && r.foundCount.Some? && r.activeCount.Some? &&
        r.claimedCount.Some? && r.returnedCount.Some? &&
        r.lostCount.value + r.foundCount.value == r.total &&
        r.activeCount.value + r.claimedCount.value + r.returnedCount.value == r.total &&
        r.lostCount.value <= r.total && r.foundCount.value <= r.total &&
        r.activeCount.value <= r.total && r.claimedCount.value <= r.total &&
        r.returnedCount.value <= r.total)
  {
    TypeCountsPartition(items);
    StatusCountsPartition(items);
  }

  /** Adding one item raises total by one and exactly the two counts that
      match its type and status. */
  lemma AddingAnItem(items: seq<Item>, x: Item, t: ItemType, s: ItemStatus)
    ensures CountType([x] + items, t) == CountType(items, t) + (if x.itemType == t then 1 else 0)
    ensures CountStatus([x] + items, s) == CountStatus(items, s) + (if x.status == s then 1 else 0)
  {
    assert ([x] + items)[1..] == items;
  }
}
