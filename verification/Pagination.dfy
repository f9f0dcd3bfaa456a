/** The client's paginator, and the list endpoints it pages through. */
module Pagination {
  import opened Prelude

  // ---- the client ----

  /** A page as the client reads it: no items where the answer has no array, no total where it has no
      number. */
  datatype Page<T> = Page(items: seq<T>, total: Option<int>)

  const MAX_COLLECTED_ITEMS: nat := 10_000

  datatype Stop = Finished | TooMany | BadPageSize

  datatype Walked<T> = Walked(items: seq<T>, stop: Stop, requests: nat)

  /** What a paginator that has `collected` items yields from there. */
  function Walk<T>(fetch: (int, nat) -> Page<T>, size: int, collected: nat): Walked<T>
    requires collected <= MAX_COLLECTED_ITEMS
    decreases MAX_COLLECTED_ITEMS - collected
  {
    var page := fetch(size, collected);
    var more := collected + |page.items|;
    if more > MAX_COLLECTED_ITEMS then Walked(page.items[..MAX_COLLECTED_ITEMS + 1 - collected], TooMany, 1)
    else if |page.items| == 0 || (page.total.Some? && more >= page.total.value) then Walked(page.items, Finished, 1)
    else
      var rest := Walk(fetch, size, more);
      Walked(page.items + rest.items, rest.stop, 1 + rest.requests)
  }

  /** The whole run with a page size. */
  function Paginated<T>(fetch: (int, nat) -> Page<T>, pageSize: real): Walked<T> {
    if pageSize.Floor as real != pageSize || pageSize <= 0.0 then Walked([], BadPageSize, 0)
    else Walk(fetch, pageSize.Floor, 0)
  }

  /** What was yielded and requested so far, and the rest of the run. */
  function Joined<T>(yielded: seq<T>, requests: nat, rest: Walked<T>): Walked<T> {
    Walked(yielded + rest.items, rest.stop, requests + rest.requests)
  }

  lemma WalkOn<T>(fetch: (int, nat) -> Page<T>, size: int, whole: Walked<T>, yielded: seq<T>, requests: nat)
    requires |yielded| <= MAX_COLLECTED_ITEMS && whole == Joined(yielded, requests, Walk(fetch, size, |yielded|))
    ensures var page := fetch(size, |yielded|);
      var more := |yielded| + |page.items|;
      if more > MAX_COLLECTED_ITEMS then
        whole == Walked(yielded + page.items[..MAX_COLLECTED_ITEMS + 1 - |yielded|], TooMany, requests + 1)
      else if |page.items| == 0 || (page.total.Some? && more >= page.total.value) then
        whole == Walked(yielded + page.items, Finished, requests + 1)
      else
        whole == Joined(yielded + page.items, requests + 1, Walk(fetch, size, more))
  {
    var page := fetch(size, |yielded|);
    var more := |yielded| + |page.items|;
    if more <= MAX_COLLECTED_ITEMS && |page.items| > 0 {
      var rest := Walk(fetch, size, more);
      assert yielded + (page.items + rest.items) == yielded + page.items + rest.items;
    }
  }

  /** The inner loop: yields the items of a page until there are too many. */
  method YieldPage<T>(before: seq<T>, items: seq<T>) returns (yielded: seq<T>, aborted: bool)
    requires |before| <= MAX_COLLECTED_ITEMS
    ensures aborted == (|before| + |items| > MAX_COLLECTED_ITEMS)
    ensures yielded == before + if aborted then items[..MAX_COLLECTED_ITEMS + 1 - |before|] else items
  {
    yielded := before;
    var collected := |before|;
    for i := 0 to |items|
      invariant collected == |before| + i <= MAX_COLLECTED_ITEMS
      invariant yielded == before + items[..i]
    {
      yielded := yielded + [items[i]];
      assert items[..i + 1] == items[..i] + [items[i]];
      collected := collected + 1;
      if collected > MAX_COLLECTED_ITEMS {
        return yielded, true;
      }
    }
    assert items[..|items|] == items;
    aborted := false;
  }

  /** The loop of `paginate`: stops on any server, whatever the pages hold. */
  method PaginateLoop<T>(fetch: (int, nat) -> Page<T>, size: int) returns (yielded: seq<T>, stop: Stop, requests: nat)
    ensures Walked(yielded, stop, requests) == Walk(fetch, size, 0)
    ensures |yielded| <= MAX_COLLECTED_ITEMS + 1
  {
    yielded, requests := [], 0;
    var offset: nat, collected: nat := 0, 0;
    ghost var whole := Walk(fetch, size, 0);
    while true
      invariant offset == collected == |yielded| <= MAX_COLLECTED_ITEMS
      invariant whole == Joined(yielded, requests, Walk(fetch, size, collected))
      decreases MAX_COLLECTED_ITEMS - collected
    {
      ghost var before := yielded;
      WalkOn(fetch, size, whole, yielded, requests);
      var page := fetch(size, offset);
      var aborted: bool;
      yielded, aborted := YieldPage(yielded, page.items);
      requests := requests + 1;
      if aborted {
        return yielded, TooMany, requests;
      }
      collected := collected + |page.items|;
      if |page.items| == 0 {
        return yielded, Finished, requests;
      }
      offset := offset + |page.items|;
      if page.total.Some? && collected >= page.total.value {
        return yielded, Finished, requests;
      }
      assert yielded == before + page.items && collected == |before| + |page.items|;
    }
  }

  /** `paginate`. */
  method Paginate<T>(fetch: (int, nat) -> Page<T>, pageSize: real) returns (yielded: seq<T>, stop: Stop, requests: nat)
    ensures Walked(yielded, stop, requests) == Paginated(fetch, pageSize)
    ensures |yielded| <= MAX_COLLECTED_ITEMS + 1
  {
    if pageSize.Floor as real != pageSize || pageSize <= 0.0 {
      return [], BadPageSize, 0;
    }
    yielded, stop, requests := PaginateLoop(fetch, pageSize.Floor);
  }

  /** `paginateAll`: the items, or the `RangeError` that stopped the paginator. */
  method PaginateAll<T>(fetch: (int, nat) -> Page<T>, pageSize: real) returns (r: Result<seq<T>, Stop>)
    ensures var w := Paginated(fetch, pageSize); r == if w.stop.Finished? then Ok(w.items) else Err(w.stop)
  {
    var items, stop, requests := Paginate(fetch, pageSize);
    ghost var w := Paginated(fetch, pageSize);
    assert w == Walked(items, stop, requests);
    var out := [];
    for i := 0 to |items|
      invariant out == items[..i]
    {
      out := out + [items[i]];
    }
    assert out == items;
    r := if stop.Finished? then Ok(out) else Err(stop);
  }

  // ---- the server ----

  /** `getLimit`: a number that does not parse counts as absent. */
  function GetLimit(n: int): (limit: nat)
    ensures 1 <= limit <= 100
  {
    if !Int64(n) then 20 else if n < 1 then 1 else if n > 100 then 100 else n
  }

  /** `getOffset`. */
  function GetOffset(n: int): nat {
    if !Int64(n) || n < 0 then 0 else if n > 0x7FFF_FFFF then 0x7FFF_FFFF else n
  }

  function Min(a: nat, b: nat): nat {
    if a < b then a else b
  }

  /** LIMIT and OFFSET over a list that does not change, with its count. */
  function Served<T>(list: seq<T>, limit: int, offset: int): Page<T> {
    var start := Min(GetOffset(offset), |list|);
    Page(list[start..Min(start + GetLimit(limit), |list|)], Some(|list|))
  }

  /** The pages come from the server. */
  ghost predicate Serves<T(!new)>(fetch: (int, nat) -> Page<T>, list: seq<T>) {
    forall limit: int, offset: nat :: fetch(limit, offset) == Served(list, limit, offset)
  }

  /** What the server lists: from an offset that is no less than none and no more than 32 bits hold, one that
      does not parse counting as none. */
  lemma OffsetsAreClamped<T>(list: seq<T>, limit: int, offset: int)
    ensures Served(list, limit, offset).total == Some(|list|)
    ensures offset < 0 || offset > 0x7FFF_FFFF_FFFF_FFFF ==> Served(list, limit, offset) == Served(list, limit, 0)
    ensures 0x7FFF_FFFF < offset <= 0x7FFF_FFFF_FFFF_FFFF ==>
      Served(list, limit, offset) == Served(list, limit, 0x7FFF_FFFF)
    ensures 0 <= offset <= 0x7FFF_FFFF ==>
      var items := Served(list, limit, offset).items;
      && |items| <= GetLimit(limit)
      && (forall k | 0 <= k < |items| :: offset + k < |list| && items[k] == list[offset + k])
      && (|items| < GetLimit(limit) ==> offset + |items| >= |list|)
  {
  }

  // ---- client and server together ----

  /** Requests for `n` items, at least one. */
  function Requests(n: nat, limit: nat): (r: nat)
    requires limit > 0
  {
    if n <= limit then 1 else 1 + Requests(n - limit, limit)
  }

  lemma {:induction false} RequestsAreCeiling(n: nat, limit: nat)
    requires limit > 0
    ensures Requests(n, limit) == if n == 0 then 1 else (n + limit - 1) / limit
    decreases n
  {
    if n > limit {
      RequestsAreCeiling(n - limit, limit);
      DivideOff(n - 1, limit);
    } else if n > 0 {
      DivideOff(n - 1, limit);
      SmallQuotient(n - 1, limit);
    }
  }

  lemma DivideOff(n: nat, limit: nat)
    requires limit > 0
    ensures (n + limit) / limit == n / limit + 1
  {
    var q, r := n / limit, n % limit;
    assert n + limit == (q + 1) * limit + r;
    QuotientIs(n + limit, limit, q + 1, r);
  }

  lemma QuotientIs(n: nat, limit: nat, q: nat, r: nat)
    requires 0 <= r < limit && n == q * limit + r
    ensures n / limit == q
  {
    var k, s := n / limit, n % limit;
    assert n == k * limit + s && 0 <= s < limit;
    if k > q {
      AtLeastOneMore(k, q, limit);
    } else if k < q {
      AtLeastOneMore(q, k, limit);
    }
  }

  lemma AtLeastOneMore(a: nat, b: nat, limit: nat)
    requires a > b
    ensures a * limit >= b * limit + limit
  {
    assert a * limit == b * limit + (a - b) * limit;
    assert (a - b) * limit == limit + (a - b - 1) * limit;
  }

  lemma SmallQuotient(n: nat, limit: nat)
    requires n < limit
    ensures n / limit == 0
  {
  }

  /** All there is, or one more than the client takes. */
  function Reach(n: nat): nat {
    Min(n, MAX_COLLECTED_ITEMS + 1)
  }

  /** Where the page after `collected` items ends. */
  function PageEnd(n: nat, size: int, collected: nat): nat {
    Min(collected + GetLimit(size), n)
  }

  lemma ServedPage<T>(list: seq<T>, size: int, collected: nat)
    requires collected <= |list| && collected <= MAX_COLLECTED_ITEMS
    ensures collected <= PageEnd(|list|, size, collected)
    ensures Served(list, size, collected) == Page(list[collected..PageEnd(|list|, size, collected)], Some(|list|))
  {
  }

  /** What is left of the run after `collected` items. */
  ghost function Remaining<T>(list: seq<T>, size: int, collected: nat): Walked<T>
    requires collected <= Reach(|list|)
  {
    Walked(list[collected..Reach(|list|)], if |list| <= MAX_COLLECTED_ITEMS then Finished else TooMany,
           Requests(Reach(|list|) - collected, GetLimit(size)))
  }

  lemma MiddlePage<T>(list: seq<T>, size: int, collected: nat)
    requires collected <= MAX_COLLECTED_ITEMS && PageEnd(|list|, size, collected) <= MAX_COLLECTED_ITEMS
    requires PageEnd(|list|, size, collected) < |list|
    ensures var more := PageEnd(|list|, size, collected);
      var rest := Remaining(list, size, more);
      Remaining(list, size, collected) == Walked(list[collected..more] + rest.items, rest.stop, 1 + rest.requests)
  {
    var more := PageEnd(|list|, size, collected);
    assert more == collected + GetLimit(size);
    assert list[collected..more] + list[more..Reach(|list|)] == list[collected..Reach(|list|)];
  }

  lemma LastPage<T>(list: seq<T>, size: int, collected: nat)
    requires collected <= MAX_COLLECTED_ITEMS && collected <= |list|
    requires PageEnd(|list|, size, collected) > MAX_COLLECTED_ITEMS || PageEnd(|list|, size, collected) == |list|
    ensures var page := list[collected..PageEnd(|list|, size, collected)];
      Remaining(list, size, collected)
      == if |list| <= MAX_COLLECTED_ITEMS then Walked(page, Finished, 1)
         else Walked(page[..MAX_COLLECTED_ITEMS + 1 - collected], TooMany, 1)
  {
    var page := list[collected..PageEnd(|list|, size, collected)];
    if |list| > MAX_COLLECTED_ITEMS {
      assert page[..MAX_COLLECTED_ITEMS + 1 - collected] == list[collected..Reach(|list|)];
    }
  }

  lemma WalkUnfold<T>(fetch: (int, nat) -> Page<T>, size: int, collected: nat)
    requires collected <= MAX_COLLECTED_ITEMS
    ensures var page := fetch(size, collected);
      var more := collected + |page.items|;
      Walk(fetch, size, collected)
      == if more > MAX_COLLECTED_ITEMS then Walked(page.items[..MAX_COLLECTED_ITEMS + 1 - collected], TooMany, 1)
         else if |page.items| == 0 || (page.total.Some? && more >= page.total.value) then
           Walked(page.items, Finished, 1)
         else
           var rest := Walk(fetch, size, more);
           Walked(page.items + rest.items, rest.stop, 1 + rest.requests)
  {
  }

  lemma WalkGoesOn<T>(fetch: (int, nat) -> Page<T>, size: int, collected: nat, items: seq<T>, total: nat)
    requires fetch(size, collected) == Page(items, Some(total))
    requires |items| > 0 && collected + |items| <= MAX_COLLECTED_ITEMS && collected + |items| < total
    ensures var rest := Walk(fetch, size, collected + |items|);
      Walk(fetch, size, collected) == Walked(items + rest.items, rest.stop, 1 + rest.requests)
  {
    WalkUnfold(fetch, size, collected);
  }

  lemma PageFetched<T(!new)>(fetch: (int, nat) -> Page<T>, list: seq<T>, size: int, collected: nat)
    requires Serves(fetch, list)
    requires collected <= MAX_COLLECTED_ITEMS && collected <= |list|
    ensures collected <= PageEnd(|list|, size, collected)
    ensures fetch(size, collected) == Page(list[collected..PageEnd(|list|, size, collected)], Some(|list|))
  {
    ServedPage(list, size, collected);
  }

  lemma WalkLast<T>(fetch: (int, nat) -> Page<T>, list: seq<T>, size: int, collected: nat)
    requires collected <= MAX_COLLECTED_ITEMS && collected <= PageEnd(|list|, size, collected)
    requires fetch(size, collected) == Page(list[collected..PageEnd(|list|, size, collected)], Some(|list|))
    requires PageEnd(|list|, size, collected) > MAX_COLLECTED_ITEMS || PageEnd(|list|, size, collected) == |list|
    ensures Walk(fetch, size, collected) == Remaining(list, size, collected)
  {
    WalkUnfold(fetch, size, collected);
    LastPage(list, size, collected);
  }

  lemma WalkMiddle<T>(fetch: (int, nat) -> Page<T>, list: seq<T>, size: int, collected: nat, more: nat)
    requires more == PageEnd(|list|, size, collected) && collected < more <= MAX_COLLECTED_ITEMS && more < |list|
    requires fetch(size, collected) == Page(list[collected..more], Some(|list|))
    requires Walk(fetch, size, more) == Remaining(list, size, more)
    ensures Walk(fetch, size, collected) == Remaining(list, size, collected)
  {
    WalkGoesOn(fetch, size, collected, list[collected..more], |list|);
    MiddlePage(list, size, collected);
  }

  lemma {:induction false} WalkFrom<T(!new)>(fetch: (int, nat) -> Page<T>, list: seq<T>, size: int, collected: nat)
    requires Serves(fetch, list)
    requires collected <= MAX_COLLECTED_ITEMS && (collected < |list| || collected == |list| == 0)
    ensures Walk(fetch, size, collected) == Remaining(list, size, collected)
    decreases MAX_COLLECTED_ITEMS - collected
  {
    var more := PageEnd(|list|, size, collected);
    PageFetched(fetch, list, size, collected);
    if more <= MAX_COLLECTED_ITEMS && more < |list| {
      WalkFrom(fetch, list, size, more);
      WalkMiddle(fetch, list, size, collected, more);
    } else {
      WalkLast(fetch, list, size, collected);
    }
  }

  /** Over a list that does not change, every positive whole page size gives the whole list in order,
      in as few requests as the server's clamp allows; a list of more than 10 000 items gives the
      first 10 001 and an error. */
  lemma PaginationIsExact<T(!new)>(fetch: (int, nat) -> Page<T>, list: seq<T>, pageSize: real)
    requires Serves(fetch, list)
    requires pageSize.Floor as real == pageSize && pageSize > 0.0
    ensures var w := Paginated(fetch, pageSize);
      var n := if |list| <= 10_000 then |list| else 10_001;
      var size := pageSize.Floor;
      var limit := if size > 0x7FFF_FFFF_FFFF_FFFF then 20 else if size < 100 then size else 100;
      && w.items == list[..n]
      && w.stop == (if |list| <= 10_000 then Finished else TooMany)
      && w.requests == if n == 0 then 1 else (n + limit - 1) / limit
  {
    WholeWalk(fetch, list, pageSize.Floor);
    RequestsAreCeiling(Reach(|list|), GetLimit(pageSize.Floor));
  }

  /** A page size is honoured, clamped to 100, exactly when it fits 64 bits: then every list costs the
      requests that pages of min(size, 100) items need. A larger one falls back to pages of 20. */
  lemma PageSizeIsHonoured(size: int)
    requires size >= 1
    ensures GetLimit(size) == (if Int64(size) then Min(size, 100) else 20)
    ensures Int64(size) <==> forall n: nat :: Requests(Reach(n), GetLimit(size)) == Requests(Reach(n), Min(size, 100))
  {
    if !Int64(size) {
      RequestsAreCeiling(100, 20);
      RequestsAreCeiling(100, 100);
      assert Requests(Reach(100), GetLimit(size)) != Requests(Reach(100), Min(size, 100));
    }
  }

  predicate IsCount(pageSize: real, n: nat) {
    n > 0 && pageSize == n as real
  }

  /** A page size that is not a positive whole number is an error before any request is made; every other
      one makes at least one request. */
  lemma BadPageSizes<T>(fetch: (int, nat) -> Page<T>, pageSize: real)
    ensures var w := Paginated(fetch, pageSize);
      if exists n: nat :: IsCount(pageSize, n) then w.stop != BadPageSize && w.requests >= 1
      else w == Walked([], BadPageSize, 0)
  {
    if n: nat :| IsCount(pageSize, n) {
      assert pageSize.Floor == n;
      WalkStops(fetch, n, 0);
    } else if pageSize.Floor as real == pageSize && pageSize > 0.0 {
      assert IsCount(pageSize, pageSize.Floor);
      assert false;
    }
  }

  lemma {:induction false} WalkStops<T>(fetch: (int, nat) -> Page<T>, size: int, collected: nat)
    requires collected <= MAX_COLLECTED_ITEMS
    ensures Walk(fetch, size, collected).stop != BadPageSize && Walk(fetch, size, collected).requests >= 1
    decreases MAX_COLLECTED_ITEMS - collected
  {
    WalkUnfold(fetch, size, collected);
    var page := fetch(size, collected);
    var more := collected + |page.items|;
    if more <= MAX_COLLECTED_ITEMS && |page.items| > 0 && !(page.total.Some? && more >= page.total.value) {
      WalkStops(fetch, size, more);
    }
  }

  const TOO_LARGE := 10_000_000_000_000_000_000.0

  /** Pages of 10^19 items: a list of 100 takes five requests, where the largest page takes one. */
  lemma OversizedPages<T(!new)>(fetch: (int, nat) -> Page<T>, list: seq<T>)
    requires Serves(fetch, list) && |list| == 100
    ensures Paginated(fetch, TOO_LARGE).requests == 5 && Paginated(fetch, 100.0).requests == 1
  {
    PaginationIsExact(fetch, list, TOO_LARGE);
    PaginationIsExact(fetch, list, 100.0);
  }

  lemma WholeWalk<T(!new)>(fetch: (int, nat) -> Page<T>, list: seq<T>, size: int)
    requires Serves(fetch, list)
    ensures Walk(fetch, size, 0)
      == Walked(list[..Reach(|list|)], if |list| <= MAX_COLLECTED_ITEMS then Finished else TooMany,
                Requests(Reach(|list|), GetLimit(size)))
  {
    WalkFrom(fetch, list, size, 0);
    assert list[0..Reach(|list|)] == list[..Reach(|list|)];
  }
}
