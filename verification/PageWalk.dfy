/** Offset paging over an upstream that serves numbered pages, and following `next_offset`. */
module PageWalk {
  import opened Wrappers

  const DEFAULT_LIMIT := 20
  const MAX_LIMIT := 100

  datatype Page<T> = Page(items: seq<T>, count: int, limit: int, offset: int, next: Option<int>)

  function Clamped(limit: Option<int>): (size: nat)
    ensures 1 <= size <= MAX_LIMIT
    ensures limit.Some? && 1 <= limit.value <= MAX_LIMIT ==> size == limit.value
  {
    var wanted := if limit.Some? then limit.value else DEFAULT_LIMIT;
    if wanted < 1 then 1 else if wanted > MAX_LIMIT then MAX_LIMIT else wanted
  }

  function NonNegative(offset: Option<int>): nat {
    if offset.Some? && offset.value > 0 then offset.value else 0
  }

  function PageNumber(offset: nat, size: nat): nat
    requires size >= 1
  {
    offset / size + 1
  }

  function Min(a: int, b: int): int { if a <= b then a else b }

  /** A page of exact size, or an error for a page behind the last one. */
  function Served<T>(all: seq<T>, size: nat, page: nat): (items: Option<seq<T>>)
    requires size >= 1 && page >= 1
    ensures items.Some? && items.value == [] ==> all == []
  {
    var first := (page - 1) * size;
    if first < |all| then Some(all[first..Min(first + size, |all|)])
    else if page == 1 then Some([])
    else None
  }

  /** One request: the page the offset falls into, and the offset to ask for next.  An upstream
      that reports no count is taken at the length of its page. */
  function Listed<T>(all: seq<T>, counts: bool, limit: Option<int>, offset: Option<int>): (page: Option<Page<T>>)
    ensures page.Some? && page.value.next.Some? ==> NonNegative(offset) < page.value.next.value < |all|
  {
    var size := Clamped(limit);
    var from := NonNegative(offset);
    match Served(all, size, PageNumber(from, size))
    case None => None
    case Some(items) =>
      var count := if counts then |all| else |items|;
      Some(Page(items, count, size, from, if from + |items| >= count then None else Some(from + |items|)))
  }

  /** Without a limit a page has twenty rows; wished limits count between one and a hundred. */
  lemma PageSizesExactly<T>(all: seq<T>, counts: bool, limit: Option<int>, offset: Option<int>)
    requires Listed(all, counts, limit, offset).Some?
    ensures var page := Listed(all, counts, limit, offset).value;
            && |page.items| <= page.limit
            && (limit.None? ==> page.limit == 20)
            && (limit.Some? && limit.value < 1 ==> page.limit == 1)
            && (limit.Some? && limit.value > 100 ==> page.limit == 100)
            && (limit.Some? && 1 <= limit.value <= 100 ==> page.limit == limit.value)
            && page.offset == (if offset.Some? && offset.value > 0 then offset.value else 0)
            && page.count == (if counts then |all| else |page.items|)
  {
    ServedIsShort(all, Clamped(limit), PageNumber(NonNegative(offset), Clamped(limit)));
    hide PageNumber, Served;
  }

  lemma ServedIsShort<T>(all: seq<T>, size: nat, page: nat)
    requires size >= 1 && page >= 1 && Served(all, size, page).Some?
    ensures |Served(all, size, page).value| <= size
  {
    var first := (page - 1) * size;
    assert first >= 0;
  }

  /** All pages a client sees that follows `next_offset`. */
  function Walk<T>(all: seq<T>, counts: bool, limit: Option<int>, offset: nat): seq<Page<T>>
    decreases |all| - offset
  {
    match Listed(all, counts, limit, Some(offset))
    case None => []
    case Some(page) =>
      [page] + if page.next.Some? then Walk(all, counts, limit, page.next.value) else []
  }

  function Items<T>(pages: seq<Page<T>>): seq<T> {
    if pages == [] then [] else pages[0].items + Items(pages[1..])
  }

  // ---------------------------------------------------------------- division

  /** The offset at which page k starts, counted from 0. */
  function At(k: nat, size: nat): nat { k * size }

  lemma AtLeastOnce(k: nat, size: nat)
    requires k >= 1
    ensures k * size >= size
  {
  }

  lemma QuotientsAgree(k: nat, r: nat, q: nat, s: nat, size: nat)
    requires r < size && s < size && k * size + r == q * size + s
    ensures k == q && r == s
  {
    if k < q {
      assert q * size == k * size + (q - k) * size;
      AtLeastOnce(q - k, size);
    } else if q < k {
      assert k * size == q * size + (k - q) * size;
      AtLeastOnce(k - q, size);
    }
  }

  lemma DivisionOf(k: nat, size: nat, r: nat)
    requires r < size
    ensures (At(k, size) + r) / size == k && (At(k, size) + r) % size == r
  {
    var n := k * size + r;
    assert n == (n / size) * size + n % size;
    QuotientsAgree(k, r, n / size, n % size, size);
  }

  lemma NextPage(k: nat, size: nat)
    ensures At(k + 1, size) == At(k, size) + size && At(0, size) == 0
  {
  }

  lemma {:induction false} PagesAscend(a: nat, b: nat, size: nat)
    requires a < b
    ensures At(a, size) + size <= At(b, size)
    decreases b - a
  {
    NextPage(b - 1, size);
    hide At;
    if a < b - 1 {
      PagesAscend(a, b - 1, size);
    }
  }

  // ---------------------------------------------------------------- following the offsets

  /** Where a walk ends that starts r rows into page k: its last page's end. */
  function Reach(rows: nat, size: nat, k: nat, r: nat): (end: nat)
    requires size >= 1 && At(k, size) < rows
    ensures At(k, size) < end <= rows
    decreases rows - At(k, size)
  {
    NextPage(k, size);
    if At(k + 1, size) + r < rows then Reach(rows, size, k + 1, r) else Min(At(k + 1, size), rows)
  }

  function PagesFrom(rows: nat, size: nat, k: nat, r: nat): (pages: nat)
    requires size >= 1 && At(k, size) < rows
    ensures pages >= 1
    decreases rows - At(k, size)
  {
    NextPage(k, size);
    if At(k + 1, size) + r < rows then 1 + PagesFrom(rows, size, k + 1, r) else 1
  }

  /** The rows of page k. */
  function PageItems<T>(all: seq<T>, size: nat, k: nat): seq<T>
    requires At(k, size) < |all|
  {
    all[At(k, size)..Min(At(k, size) + size, |all|)]
  }

  lemma ServedAt<T>(all: seq<T>, size: nat, k: nat)
    requires size >= 1 && At(k, size) < |all|
    ensures Served(all, size, k + 1) == Some(PageItems(all, size, k))
  {
    assert (k + 1 - 1) * size == At(k, size);
    hide At;
  }

  lemma PageNumberAt(k: nat, r: nat, size: nat)
    requires r < size
    ensures PageNumber(At(k, size) + r, size) == k + 1
  {
    DivisionOf(k, size, r);
    hide At;
  }

  /** The page an offset falls into, and the offset after it. */
  lemma ListedAt<T>(all: seq<T>, limit: Option<int>, k: nat, r: nat)
    requires r < Clamped(limit) && At(k, Clamped(limit)) < |all|
    ensures var size := Clamped(limit);
            var page := Listed(all, true, limit, Some(At(k, size) + r));
            && page.Some? && page.value.items == PageItems(all, size, k)
            && page.value.offset == At(k, size) + r
            && page.value.next == if At(k, size) + size + r < |all| then Some(At(k, size) + size + r) else None
  {
    hide Clamped, At, Served, PageNumber;
    PageNumberAt(k, r, Clamped(limit));
    ServedAt(all, Clamped(limit), k);
  }

  /** The pages from r rows into page k on. */
  function WalkAt<T>(all: seq<T>, limit: Option<int>, k: nat, r: nat): seq<Page<T>> {
    Walk(all, true, limit, At(k, Clamped(limit)) + r)
  }

  predicate GoesOn(rows: nat, size: nat, k: nat, r: nat) { At(k + 1, size) + r < rows }

  lemma WalkStep<T>(all: seq<T>, limit: Option<int>, k: nat, r: nat) returns (page: Page<T>)
    requires r < Clamped(limit) && At(k, Clamped(limit)) < |all|
    ensures var size := Clamped(limit);
            && page.items == PageItems(all, size, k) && page.offset == At(k, size) + r
            && WalkAt(all, limit, k, r) == [page] + if GoesOn(|all|, size, k, r) then WalkAt(all, limit, k + 1, r) else []
  {
    ListedAt(all, limit, k, r);
    NextPage(k, Clamped(limit));
    page := Listed(all, true, limit, Some(At(k, Clamped(limit)) + r)).value;
    hide Listed, Clamped, At, PageItems;
  }

  lemma ItemsCons<T>(page: Page<T>, rest: seq<Page<T>>)
    ensures Items([page] + rest) == page.items + Items(rest)
  {
    assert ([page] + rest)[1..] == rest;
  }

  lemma ReachStep(rows: nat, size: nat, k: nat, r: nat)
    requires size >= 1 && At(k, size) < rows
    ensures GoesOn(rows, size, k, r) ==> At(k + 1, size) < rows
    ensures Reach(rows, size, k, r) == if GoesOn(rows, size, k, r) then Reach(rows, size, k + 1, r) else Min(At(k + 1, size), rows)
    ensures PagesFrom(rows, size, k, r) == if GoesOn(rows, size, k, r) then 1 + PagesFrom(rows, size, k + 1, r) else 1
  {
    hide At;
  }

  lemma {:induction false} WalkFrom<T>(all: seq<T>, limit: Option<int>, k: nat, r: nat)
    requires r < Clamped(limit) && At(k, Clamped(limit)) < |all|
    ensures Items(WalkAt(all, limit, k, r)) == all[At(k, Clamped(limit))..Reach(|all|, Clamped(limit), k, r)]
    ensures |WalkAt(all, limit, k, r)| == PagesFrom(|all|, Clamped(limit), k, r)
    decreases |all| - At(k, Clamped(limit))
  {
    var size := Clamped(limit);
    var page := WalkStep(all, limit, k, r);
    ReachStep(|all|, size, k, r);
    NextPage(k, size);
    assert page.items == all[At(k, size)..Min(At(k + 1, size), |all|)];
    assert !GoesOn(|all|, size, k, r) ==> Reach(|all|, size, k, r) == Min(At(k + 1, size), |all|);
    hide *;
    if GoesOn(|all|, size, k, r) {
      WalkFrom(all, limit, k + 1, r);
      ItemsCons(page, WalkAt(all, limit, k + 1, r));
      FullPage(|all|, size, k);
      JoinSlices(all, At(k, size), At(k + 1, size), Reach(|all|, size, k + 1, r));
    } else {
      ItemsCons(page, []);
      NoItems<T>();
    }
  }

  lemma FullPage(rows: nat, size: nat, k: nat)
    requires At(k + 1, size) < rows
    ensures Min(At(k + 1, size), rows) == At(k + 1, size)
  {
  }

  lemma NoItems<T>()
    ensures Items<T>([]) == []
  {
  }

  lemma WalkTail<T>(all: seq<T>, limit: Option<int>, k: nat, r: nat, i: nat)
    requires r < Clamped(limit) && At(k, Clamped(limit)) < |all| && i < |WalkAt(all, limit, k, r)|
    ensures i == 0 ==> WalkAt(all, limit, k, r)[i].offset == At(k, Clamped(limit)) + r
    ensures i > 0 ==>
      && At(k + 1, Clamped(limit)) < |all| && i - 1 < |WalkAt(all, limit, k + 1, r)|
      && WalkAt(all, limit, k, r)[i] == WalkAt(all, limit, k + 1, r)[i - 1]
  {
    var page := WalkStep(all, limit, k, r);
    ReachStep(|all|, Clamped(limit), k, r);
    hide *;
  }

  lemma {:induction false} WalkOffset<T>(all: seq<T>, limit: Option<int>, k: nat, r: nat, i: nat)
    requires r < Clamped(limit) && At(k, Clamped(limit)) < |all| && i < |WalkAt(all, limit, k, r)|
    ensures WalkAt(all, limit, k, r)[i].offset == At(k + i, Clamped(limit)) + r
    decreases i
  {
    hide *;
    WalkTail(all, limit, k, r, i);
    if i > 0 {
      WalkOffset(all, limit, k + 1, r, i - 1);
      assert k + 1 + (i - 1) == k + i;
    }
  }

  lemma JoinSlices<T>(all: seq<T>, a: nat, b: nat, c: nat)
    requires a <= b <= c <= |all|
    ensures all[a..b] + all[b..c] == all[a..c]
  {
  }

  // ---------------------------------------------------------------- from the beginning

  lemma {:induction false} AlignedReachesTheEnd(rows: nat, size: nat, k: nat)
    requires size >= 1 && At(k, size) < rows
    ensures Reach(rows, size, k, 0) == rows
    ensures At(k + PagesFrom(rows, size, k, 0) - 1, size) < rows <= At(k + PagesFrom(rows, size, k, 0), size)
    decreases rows - At(k, size)
  {
    NextPage(k, size);
    hide At;
    if At(k + 1, size) < rows {
      AlignedReachesTheEnd(rows, size, k + 1);
    }
  }

  /** The number of pages that rows fill, at least one. */
  function PageCount(rows: nat, size: nat): nat
    requires size >= 1
  {
    if rows == 0 then 1 else (rows - 1) / size + 1
  }

  lemma CountBetween(rows: nat, size: nat, p: nat)
    requires size >= 1 && p >= 1 && At(p - 1, size) < rows <= At(p, size)
    ensures PageCount(rows, size) == p
  {
    NextPage(p - 1, size);
    DivisionOf(p - 1, size, rows - 1 - At(p - 1, size));
    hide At;
  }

  lemma NothingToList<T>(limit: Option<int>)
    ensures var pages := Walk<T>([], true, limit, 0);
            Items(pages) == [] && |pages| == 1 && pages[0].offset == 0
  {
    var size := Clamped(limit);
    DivisionOf(0, size, 0);
    hide Clamped;
    var pages := Walk<T>([], true, limit, 0);
    assert pages[1..] == [];
  }

  /** Starting at offset 0, whatever limit is asked for, following the offsets visits every row
      exactly once, in order, in as many pages as the rows fill; every offset is a page start. */
  lemma WalkVisitsEveryRowOnce<T>(all: seq<T>, limit: Option<int>)
    ensures var pages := Walk(all, true, limit, 0);
            && Items(pages) == all
            && |pages| == PageCount(|all|, Clamped(limit))
            && forall i :: 0 <= i < |pages| ==> pages[i].offset == i * Clamped(limit)
  {
    if all == [] {
      NothingToList<T>(limit);
    } else {
      NonEmptyWalk(all, limit);
      forall i | 0 <= i < |WalkAt(all, limit, 0, 0)|
        ensures WalkAt(all, limit, 0, 0)[i].offset == i * Clamped(limit)
      {
        WalkOffset(all, limit, 0, 0, i);
      }
    }
  }

  lemma NonEmptyWalk<T>(all: seq<T>, limit: Option<int>)
    requires all != []
    ensures Walk(all, true, limit, 0) == WalkAt(all, limit, 0, 0)
    ensures Items(WalkAt(all, limit, 0, 0)) == all && |WalkAt(all, limit, 0, 0)| == PageCount(|all|, Clamped(limit))
    ensures At(0, Clamped(limit)) < |all|
  {
    var size := Clamped(limit);
    NextPage(0, size);
    hide Clamped, At, Walk, PageCount;
    WalkFrom(all, limit, 0, 0);
    AlignedReachesTheEnd(|all|, size, 0);
    CountBetween(|all|, size, PagesFrom(|all|, size, 0, 0));
  }

  // ---------------------------------------------------------------- from anywhere

  lemma {:induction false} ReachFrom(rows: nat, size: nat, k: nat, r: nat, last: nat)
    requires size >= 1 && r < size && k <= last && At(last, size) < rows <= At(last + 1, size) && At(k, size) < rows
    ensures Reach(rows, size, k, r) == if k == last || r < rows - At(last, size) then rows else At(last, size)
    decreases last - k
  {
    NextPage(k, size);
    NextPage(last, size);
    if k < last {
      if k + 1 < last {
        PagesAscend(k + 1, last, size);
      }
      hide At;
      if At(k + 1, size) + r < rows {
        ReachFrom(rows, size, k + 1, r, last);
      }
    }
  }

  /** A walk from r rows into page k reads whole pages: it starts with that page's first row, and
      it misses the last page exactly when that page has no more than r rows, unless the walk
      began on it. */
  lemma WalkFromAnyOffset<T>(all: seq<T>, limit: Option<int>, k: nat, r: nat, last: nat)
    requires r < Clamped(limit) && k <= last && At(k, Clamped(limit)) < |all|
    requires At(last, Clamped(limit)) < |all| <= At(last + 1, Clamped(limit))
    ensures var size := Clamped(limit);
            var end := if k == last || r < |all| - At(last, size) then |all| else At(last, size);
            At(k, size) <= end && Items(WalkAt(all, limit, k, r)) == all[At(k, size)..end]
  {
    WalkFrom(all, limit, k, r);
    ReachFrom(|all|, Clamped(limit), k, r, last);
    hide WalkAt, At, Clamped;
  }

  ghost predicate Distinct<T(!new)>(all: seq<T>) { forall i, j :: 0 <= i < j < |all| ==> all[i] != all[j] }

  /** Exactly the page starts lead to exactly the rows from there on. */
  lemma WalkIsExactForPageStarts<T(!new)>(all: seq<T>, limit: Option<int>, k: nat, r: nat)
    requires r < Clamped(limit) && At(k, Clamped(limit)) + r < |all| && Distinct(all)
    ensures Items(WalkAt(all, limit, k, r)) == all[At(k, Clamped(limit)) + r..] <==> r == 0
  {
    var size := Clamped(limit);
    WalkFrom(all, limit, k, r);
    hide WalkAt, Clamped, At;
    var first, offset := At(k, size), At(k, size) + r;
    if r == 0 {
      AlignedReachesTheEnd(|all|, size, k);
    } else {
      assert Items(WalkAt(all, limit, k, r))[0] == all[first] && all[offset..][0] == all[offset] && first < offset;
    }
  }

  lemma WithoutACountNothingFollows<T>(all: seq<T>, limit: Option<int>, offset: nat)
    ensures |Walk(all, false, limit, offset)| <= 1
    ensures Walk(all, false, limit, offset) == [] <==> Served(all, Clamped(limit), PageNumber(offset, Clamped(limit))).None?
  {
    hide Served, PageNumber, Clamped;
  }

  /** An upstream that reports no count ends every walk after one page: from r rows into page k
      the walk is that page, and it is all there is exactly when the rows fit the first page. */
  lemma WithoutACountOnePageIsAll<T>(all: seq<T>, limit: Option<int>, k: nat, r: nat)
    requires r < Clamped(limit) && (k == 0 || At(k, Clamped(limit)) < |all|)
    ensures var size := Clamped(limit);
            var pages := Walk(all, false, limit, At(k, size) + r);
            && |pages| == 1 && At(k, size) <= |all|
            && Items(pages) == all[At(k, size)..Min(At(k, size) + size, |all|)]
            && (Items(pages) == all <==> |all| <= size)
  {
    var size := Clamped(limit);
    PageNumberAt(k, r, size);
    PageFillsAll(all, size, k);
    WithoutACountNothingFollows(all, limit, At(k, size) + r);
    hide Clamped, At, Served, PageNumber, Min;
    var pages := Walk(all, false, limit, At(k, size) + r);
    assert pages[1..] == [];
  }

  lemma PageFillsAll<T>(all: seq<T>, size: nat, k: nat)
    requires size >= 1 && (k == 0 || At(k, size) < |all|)
    ensures At(k, size) <= |all|
    ensures Served(all, size, k + 1) == Some(all[At(k, size)..Min(At(k, size) + size, |all|)])
    ensures all[At(k, size)..Min(At(k, size) + size, |all|)] == all <==> |all| <= size
  {
    assert (k + 1 - 1) * size == At(k, size);
    NextPage(0, size);
    if k > 0 {
      PagesAscend(0, k, size);
    }
    hide At;
  }
}
