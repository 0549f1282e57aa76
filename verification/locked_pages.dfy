/** Counting the locks on memory pages (src/allocators.h:28-105). */
module LockedPages {
  import opened Arithmetic

  datatype Range = Range(addr: nat, size: nat)

  /** The number of the page that holds an address. Clearing the low bits of the address with the
      mask of a page size that is a power of two gives the base of that page. */
  function PageOf(addr: nat, pageSize: nat): (r: nat)
    requires pageSize > 0
  {
    Division(addr, pageSize);
    addr / pageSize
  }

  /** The range touches the page. */
  predicate Touches(r: Range, page: nat, pageSize: nat)
    requires pageSize > 0
  {
    r.size > 0 && PageOf(r.addr, pageSize) <= page <= PageOf(r.addr + r.size - 1, pageSize)
  }

  /** How many of the live ranges touch a page. */
  function Count(live: seq<Range>, page: nat, pageSize: nat): nat
    requires pageSize > 0
  {
    if live == [] then 0
    else Count(live[..|live| - 1], page, pageSize) + (if Touches(live[|live| - 1], page, pageSize) then 1 else 0)
  }

  lemma {:induction false} CountWithout(live: seq<Range>, k: nat, page: nat, pageSize: nat)
    requires pageSize > 0 && k < |live|
    ensures Count(live, page, pageSize)
         == Count(live[..k] + live[k + 1..], page, pageSize) + (if Touches(live[k], page, pageSize) then 1 else 0)
    decreases |live|
  {
    hide Touches;
    var n := |live| - 1;
    var rest := live[..k] + live[k + 1..];
    if k == n {
      assert rest == live[..n];
    } else {
      CountWithout(live[..n], k, page, pageSize);
      assert rest[..n - 1] == live[..n][..k] + live[..n][k + 1..];
    }
  }

  lemma CountSnoc(live: seq<Range>, r: Range, page: nat, pageSize: nat)
    requires pageSize > 0
    ensures Count(live + [r], page, pageSize) == Count(live, page, pageSize) + (if Touches(r, page, pageSize) then 1 else 0)
  {
    assert (live + [r])[..|live|] == live;
  }

  /** The table counts the live ranges on each page and holds no zero. */
  ghost predicate Counts(histogram: map<nat, nat>, live: seq<Range>, pageSize: nat)
    requires pageSize > 0
  {
    && (forall page :: page in histogram ==> histogram[page] > 0)
    && (forall page: nat :: Count(live, page, pageSize) == Held(histogram, page))
  }

  function Held(histogram: map<nat, nat>, page: nat): nat { if page in histogram then histogram[page] else 0 }

  class Manager {
    var histogram: map<nat, nat>
    var locked: set<nat>
    const pageSize: nat
    ghost var live: seq<Range>

    /** The table counts the live ranges, and exactly the pages it holds are locked. */
    ghost predicate Valid()
      reads this
    {
      pageSize > 0 && Counts(histogram, live, pageSize) && locked == histogram.Keys
    }

    // src/allocators.h:31-37
    constructor (size: nat)
      requires size > 0
      ensures Valid() && live == [] && pageSize == size
    {
      pageSize, histogram, locked, live := size, map[], {}, [];
    }

    // src/allocators.h:46-66
    method LockRange(p: nat, size: nat)
      requires Valid()
      modifies this
      ensures Valid() && live == old(live) + [Range(p, size)]
    {
      hide Count, PageOf;
      ghost var r := Range(p, size);
      ghost var was, counts := live, histogram;
      live := live + [r];
      forall page: nat
        ensures Count(live, page, pageSize) == Count(was, page, pageSize) + (if Touches(r, page, pageSize) then 1 else 0)
      {
        CountSnoc(was, r, page, pageSize);
      }
      if size == 0 { return; }
      PageMonotone(p, p + size - 1, pageSize);
      var page, end := PageOf(p, pageSize), PageOf(p + size - 1, pageSize);
      while page <= end
        invariant locked == histogram.Keys && live == was + [r] && PageOf(p, pageSize) <= page
        invariant forall k :: k in histogram ==> histogram[k] > 0
        invariant forall k: nat :: Held(histogram, k) == Held(counts, k) + (if Touches(r, k, pageSize) && k < page then 1 else 0)
        invariant page <= end + 1
        decreases end + 1 - page
      {
        if page !in histogram {
          locked := locked + {page};
          histogram := histogram[page := 1];
        } else {
          histogram := histogram[page := histogram[page] + 1];
        }
        page := page + 1;
      }
    }

    // src/allocators.h:69-89; the range is live, so no page is found unlocked
    method UnlockRange(p: nat, size: nat, ghost k: nat)
      requires Valid() && k < |live| && live[k] == Range(p, size)
      modifies this
      ensures Valid() && live == old(live[..k] + live[k + 1..])
    {
      hide Count, PageOf;
      ghost var r := Range(p, size);
      ghost var was, counts := live, histogram;
      live := live[..k] + live[k + 1..];
      forall page: nat
        ensures Count(was, page, pageSize) == Count(live, page, pageSize) + (if Touches(r, page, pageSize) then 1 else 0)
      {
        CountWithout(was, k, page, pageSize);
      }
      if size == 0 { return; }
      PageMonotone(p, p + size - 1, pageSize);
      var page, end := PageOf(p, pageSize), PageOf(p + size - 1, pageSize);
      while page <= end
        invariant locked == histogram.Keys && live == was[..k] + was[k + 1..] && PageOf(p, pageSize) <= page
        invariant forall j :: j in histogram ==> histogram[j] > 0
        invariant forall j: nat :: Held(counts, j) == Held(histogram, j) + (if Touches(r, j, pageSize) && j < page then 1 else 0)
        invariant page <= end + 1
        decreases end + 1 - page
      {
        assert Count(was, page, pageSize) == Held(counts, page) && Touches(r, page, pageSize);
        assert page in histogram;
        histogram := histogram[page := histogram[page] - 1];
        if histogram[page] == 0 {
          locked := locked - {page};
          histogram := histogram - {page};
        }
        page := page + 1;
      }
    }

    // src/allocators.h:92-96
    method GetLockedPageCount() returns (n: nat)
      requires Valid()
      ensures n == |locked|
    {
      n := |histogram.Keys|;
    }
  }

  /** A page is locked exactly while a live range touches it; with no live range the table is empty,
      so the assertion of the destructor holds. */
  lemma LockedIff(histogram: map<nat, nat>, live: seq<Range>, pageSize: nat, page: nat)
    requires pageSize > 0 && Counts(histogram, live, pageSize)
    ensures page in histogram <==> exists k :: 0 <= k < |live| && Touches(live[k], page, pageSize)
    ensures live == [] ==> histogram == map[]
  {
    hide Touches;
    assert Count(live, page, pageSize) == Held(histogram, page);
    CountPositive(live, page, pageSize);
    if live == [] {
      forall h: nat
        ensures Held(histogram, h) == 0
      {
        assert Count(live, h, pageSize) == Held(histogram, h);
      }
      assert forall h :: h in histogram ==> Held(histogram, h) > 0;
    }
  }

  lemma {:induction false} CountPositive(live: seq<Range>, page: nat, pageSize: nat)
    requires pageSize > 0
    ensures Count(live, page, pageSize) > 0 <==> exists k :: 0 <= k < |live| && Touches(live[k], page, pageSize)
    decreases |live|
  {
    hide Touches;
    if live != [] {
      var n := |live| - 1;
      CountPositive(live[..n], page, pageSize);
      if k :| 0 <= k < |live| && Touches(live[k], page, pageSize) {
        if k < n { assert Touches(live[..n][k], page, pageSize); }
      }
      if j :| 0 <= j < n && Touches(live[..n][j], page, pageSize) {
        assert Touches(live[j], page, pageSize);
      }
    }
  }

  /** Touching a page means having an address on it. */
  lemma TouchesIff(r: Range, page: nat, pageSize: nat)
    requires pageSize > 0
    ensures Touches(r, page, pageSize) <==> exists x: nat :: r.addr <= x < r.addr + r.size && PageOf(x, pageSize) == page
  {
    hide PageOf;
    if x: nat :| r.addr <= x < r.addr + r.size && PageOf(x, pageSize) == page {
      PageMonotone(r.addr, x, pageSize);
      PageMonotone(x, r.addr + r.size - 1, pageSize);
    }
    if Touches(r, page, pageSize) {
      var x := if PageOf(r.addr, pageSize) == page then r.addr else page * pageSize;
      if PageOf(r.addr, pageSize) != page { BaseInside(r, page, pageSize); }
      assert r.addr <= x < r.addr + r.size && PageOf(x, pageSize) == page;
    }
  }

  lemma ProductPage(page: nat, m: nat)
    requires m > 0
    ensures page * m / m == page
  {
    var q := page * m / m;
    Division(page * m, m);
    if q > page { Further(q, page, m); }
    if q < page { Further(page, q, m); }
  }

  lemma PageMonotone(x: nat, y: nat, pageSize: nat)
    requires pageSize > 0 && x <= y
    ensures PageOf(x, pageSize) <= PageOf(y, pageSize)
  {
    Division(x, pageSize);
    Division(y, pageSize);
    var a, b: nat := x / pageSize, PageOf(y, pageSize);
    if a > b { Further(a, b, pageSize); }
  }

  /** The base of a page after the first lies inside the range. */
  lemma BaseInside(r: Range, page: nat, pageSize: nat)
    requires pageSize > 0 && Touches(r, page, pageSize) && PageOf(r.addr, pageSize) < page
    ensures r.addr <= page * pageSize < r.addr + r.size && PageOf(page * pageSize, pageSize) == page
  {
    var last := r.addr + r.size - 1;
    var first, end := PageOf(r.addr, pageSize), PageOf(last, pageSize);
    Division(r.addr, pageSize);
    Division(last, pageSize);
    Further(page, first, pageSize);
    if end > page { Further(end, page, pageSize); }
    ProductPage(page, pageSize);
  }
}
