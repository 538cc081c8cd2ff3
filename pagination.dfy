/**
 * The pagination flattener `get_all` (src/main.py:12-32): a wrapper that turns
 * a limit/offset page-fetch function into one that returns every item from the
 * starting offset onward, in the order the service returned them.
 *
 * The remote collection is a value (`Source`); every call of the wrapped
 * function is a `Request` holding exactly the keyword arguments it was given,
 * and `Serve` is the page the service answers with. The method `GetAll` runs
 * the wrapper's loop and also returns the requests it issued, so that the
 * number and the order of the fetches can be stated.
 */
module Pagination {
  import opened Wrappers

  /** The paging keyword arguments of one call of the wrapped function. */
  datatype Request = Request(offset: Option<nat>, limit: Option<nat>)

  /** One response: its items and the window (`limit`, `offset`) the service echoes. */
  datatype Page<T> = Page(items: seq<T>, limit: nat, offset: nat)

  /**
   * A remote limit/offset collection: its items in API order and the page size
   * it serves to a request that names no limit. A request without an offset
   * starts at 0.
   */
  datatype Source<T> = Source(items: seq<T>, defaultLimit: nat)

  /** A page is full exactly when the collection reaches the end of its window. */
  lemma FullIff<T>(src: Source<T>, req: Request)
    requires Serve(src, req).limit > 0
    ensures var p := Serve(src, req);
            |p.items| >= p.limit <==> p.offset + p.limit <= |src.items|
  {
    ServeWindow(src, req);
  }

  /** The items of `s` from position `off` onward; none when `off` is past the end. */
  function Suffix<T>(s: seq<T>, off: nat): (r: seq<T>)
    ensures |r| == if off <= |s| then |s| - off else 0
  {
    if off <= |s| then s[off..] else []
  }

  /** The page the service answers `req` with: the next `limit` items from `offset`, or fewer at the end. */
  function Serve<T>(src: Source<T>, req: Request): (p: Page<T>)
    ensures p.offset == req.offset.GetOr(0) && p.limit == req.limit.GetOr(src.defaultLimit)
  {
    var off := req.offset.GetOr(0);
    var lim := req.limit.GetOr(src.defaultLimit);
    Page(Take(Suffix(src.items, off), lim), lim, off)
  }

  /** The first `k` items of `s`, or all of them when there are fewer. */
  function Take<T>(s: seq<T>, k: nat): (r: seq<T>)
  {
    if k <= |s| then s[..k] else s
  }

  /**
   * A served page never holds more than its limit; a full page is the window of
   * `limit` items at its offset; a short page runs to the end of the collection.
   */
  lemma ServeWindow<T>(src: Source<T>, req: Request)
    ensures var p := Serve(src, req);
            && |p.items| <= p.limit
            && (0 < p.limit <= |p.items| ==>
                  p.offset + p.limit <= |src.items| && p.items == src.items[p.offset .. p.offset + p.limit])
            && (|p.items| < p.limit ==> p.items == Suffix(src.items, p.offset))
  {
  }

  /** The items of the pages served to `reqs`, one page after the other. */
  function Concat<T>(src: Source<T>, reqs: seq<Request>): (r: seq<T>)
  {
    if reqs == [] then [] else Serve(src, reqs[0]).items + Concat(src, reqs[1..])
  }

  /**
   * The requests the loop issues after a full page at `offset`: each one asks
   * for the offset `limit` further on and names `later` as its page size; the
   * loop stops after the first page with fewer than `limit` items.
   */
  function Followups<T>(src: Source<T>, offset: nat, limit: nat, later: Option<nat>): (r: seq<Request>)
    requires limit > 0
    ensures |r| > 0
    decreases |src.items| - offset
  {
    var next := Request(Some(offset + limit), later);
    if |Serve(src, next).items| < limit then [next]
    else ServeWindow(src, next); [next] + Followups(src, offset + limit, limit, later)
  }

  /** The page size the wrapper runs with: the caller's `limit`, else the one the first page reports. */
  function EffectiveLimit<T>(src: Source<T>, limitArg: Option<nat>): (r: nat)
    ensures r == limitArg.GetOr(src.defaultLimit)
  {
    if limitArg.Some? then limitArg.value else Serve(src, Request(None, limitArg)).limit
  }

  /** The offset the wrapper starts from: the caller's `offset`, else the one the first page reports. */
  function EffectiveOffset<T>(src: Source<T>, offsetArg: Option<nat>): (r: nat)
    ensures r == offsetArg.GetOr(0)
  {
    if offsetArg.Some? then offsetArg.value else Serve(src, Request(offsetArg, None)).offset
  }

  /**
   * The requests `get_all` issues as written: the first call passes the
   * caller's arguments; later calls pass only the new offset, because line 17
   * pops `limit` out of the arguments and line 27 does not pass it back.
   */
  function Requests<T>(src: Source<T>, limitArg: Option<nat>, offsetArg: Option<nat>): (r: seq<Request>)
    requires EffectiveLimit(src, limitArg) > 0
    ensures |r| > 0 && r[0] == Request(offsetArg, limitArg)
  {
    var first := Request(offsetArg, limitArg);
    var limit := EffectiveLimit(src, limitArg);
    if |Serve(src, first).items| < limit then [first]
    else [first] + Followups(src, EffectiveOffset(src, offsetArg), limit, None)
  }

  /** The requests of the corrected wrapper, whose later calls pass `limit` again. */
  function RequestsResending<T>(src: Source<T>, limitArg: Option<nat>, offsetArg: Option<nat>): (r: seq<Request>)
    requires EffectiveLimit(src, limitArg) > 0
    ensures |r| > 0 && r[0] == Request(offsetArg, limitArg)
  {
    var first := Request(offsetArg, limitArg);
    var limit := EffectiveLimit(src, limitArg);
    if |Serve(src, first).items| < limit then [first]
    else [first] + Followups(src, EffectiveOffset(src, offsetArg), limit, Some(limit))
  }

  /**
   * The wrapper of `get_all` (lines 14-30). `all` is what it returns and
   * `issued` the calls it makes, in order. A limit of 0 makes the source loop
   * forever (an empty page is never shorter than 0), hence the precondition.
   */
  method GetAll<T>(src: Source<T>, limitArg: Option<nat>, offsetArg: Option<nat>)
    returns (all: seq<T>, issued: seq<Request>)
    requires EffectiveLimit(src, limitArg) > 0
    ensures issued == Requests(src, limitArg, offsetArg)
    ensures all == Concat(src, issued)
    ensures limitArg.GetOr(src.defaultLimit) == src.defaultLimit ==>
              all == Suffix(src.items, offsetArg.GetOr(0))
  {
    var first := Request(offsetArg, limitArg);
    var temp := Serve(src, first);
    issued := [first];
    var limit := if limitArg.Some? then limitArg.value else temp.limit;
    var offset := if offsetArg.Some? then offsetArg.value else temp.offset;
    var items := temp.items;
    all := items;
    ghost var last := first;
    assert Concat(src, issued) == items + Concat(src, []);
    assert Requests(src, limitArg, offsetArg) == issued + Pending(src, offset, limit, items);
    while !(|items| < limit)
      invariant limit == EffectiveLimit(src, limitArg) && limit > 0
      invariant all == Concat(src, issued)
      invariant items == Serve(src, last).items && offset == Serve(src, last).offset
      invariant Requests(src, limitArg, offsetArg) == issued + Pending(src, offset, limit, items)
      decreases |src.items| - offset
    {
      ServeWindow(src, last);
      PendingStep(src, offset, limit, items);
      offset := offset + limit;
      var next := Request(Some(offset), None);
      items := Serve(src, next).items;
      ConcatSnoc(src, issued, next);
      assert issued + ([next] + Pending(src, offset, limit, items))
          == (issued + [next]) + Pending(src, offset, limit, items);
      issued := issued + [next];
      all := all + items;
      last := next;
    }
    assert issued + [] == issued;
    if limitArg.GetOr(src.defaultLimit) == src.defaultLimit {
      FlattenComplete(src, limitArg, offsetArg);
    }
  }

  /** The requests still to come once the loop holds `page`, fetched at `offset`. */
  function Pending<T>(src: Source<T>, offset: nat, limit: nat, page: seq<T>): (r: seq<Request>)
    requires limit > 0
  {
    if |page| < limit then [] else Followups(src, offset, limit, None)
  }

  /** One turn of the loop: a full page is followed by the next request, then by what that one leaves pending. */
  lemma PendingStep<T>(src: Source<T>, offset: nat, limit: nat, page: seq<T>)
    requires 0 < limit <= |page|
    ensures var next := Request(Some(offset + limit), None);
            Pending(src, offset, limit, page) == [next] + Pending(src, offset + limit, limit, Serve(src, next).items)
  {
  }

  /** Serving the pages of `reqs + [r]` yields those of `reqs`, then the page of `r`. */
  lemma {:induction false} ConcatSnoc<T>(src: Source<T>, reqs: seq<Request>, r: Request)
    ensures Concat(src, reqs + [r]) == Concat(src, reqs) + Serve(src, r).items
  {
    if reqs == [] {
      assert [] + [r] == [r];
    } else {
      assert (reqs + [r])[1..] == reqs[1..] + [r];
      ConcatSnoc(src, reqs[1..], r);
    }
  }

  /**
   * When every later page is served with the loop's own page size, the later
   * pages together hold every item after the first full page, in order.
   */
  lemma {:induction false} FollowupsComplete<T>(src: Source<T>, offset: nat, limit: nat, later: Option<nat>)
    requires limit > 0 && later.GetOr(src.defaultLimit) == limit
    ensures Concat(src, Followups(src, offset, limit, later)) == Suffix(src.items, offset + limit)
    decreases |src.items| - offset
  {
    var next := Request(Some(offset + limit), later);
    var page := Serve(src, next).items;
    ServeWindow(src, next);
    if |page| >= limit {
      var rest := Followups(src, offset + limit, limit, later);
      assert ([next] + rest)[1..] == rest;
      FollowupsComplete(src, offset + limit, limit, later);
      SuffixSplit(src.items, offset + limit, limit);
    } else {
      assert Followups(src, offset, limit, later) == [next];
    }
  }

  /** A suffix is the window of `k` items at its start followed by the suffix after it. */
  lemma SuffixSplit<T>(s: seq<T>, off: nat, k: nat)
    requires off + k <= |s|
    ensures Suffix(s, off) == s[off .. off + k] + Suffix(s, off + k)
  {
    assert s[off..] == s[off .. off + k] + s[off + k..];
  }

  /**
   * A first page served with the loop's page size, followed by later pages
   * served with that same size, holds every item from the first page's offset.
   */
  lemma FirstAndFollowups<T>(src: Source<T>, first: Request, limit: nat, later: Option<nat>)
    requires limit > 0 && later.GetOr(src.defaultLimit) == limit
    requires Serve(src, first).limit == limit
    ensures var p := Serve(src, first);
            Concat(src, if |p.items| < limit then [first] else [first] + Followups(src, p.offset, limit, later))
              == Suffix(src.items, p.offset)
  {
    var p := Serve(src, first);
    ServeWindow(src, first);
    if |p.items| >= limit {
      var rest := Followups(src, p.offset, limit, later);
      assert ([first] + rest)[1..] == rest;
      FollowupsComplete(src, p.offset, limit, later);
      SuffixSplit(src.items, p.offset, limit);
    }
  }

  /**
   * Completeness and order (lines 16-30): when the caller's limit, if any,
   * equals the page size the service serves by default, `get_all` returns
   * exactly the items from the starting offset to the end, in API order.
   */
  lemma FlattenComplete<T>(src: Source<T>, limitArg: Option<nat>, offsetArg: Option<nat>)
    requires limitArg.GetOr(src.defaultLimit) == src.defaultLimit > 0
    ensures Concat(src, Requests(src, limitArg, offsetArg)) == Suffix(src.items, offsetArg.GetOr(0))
  {
    FirstAndFollowups(src, Request(offsetArg, limitArg), src.defaultLimit, None);
  }

  /** The corrected wrapper returns every item from the starting offset, whatever the service's default page size. */
  lemma FlattenResendingComplete<T>(src: Source<T>, limitArg: Option<nat>, offsetArg: Option<nat>)
    requires EffectiveLimit(src, limitArg) > 0
    ensures Concat(src, RequestsResending(src, limitArg, offsetArg)) == Suffix(src.items, offsetArg.GetOr(0))
  {
    var limit := EffectiveLimit(src, limitArg);
    FirstAndFollowups(src, Request(offsetArg, limitArg), limit, Some(limit));
  }

  /** The later requests ask for the offsets `limit`, `2 * limit`, ... past `offset`, in that order. */
  lemma {:induction false} FollowupsOffsets<T>(src: Source<T>, offset: nat, limit: nat, later: Option<nat>)
    requires limit > 0
    ensures forall i :: 0 <= i < |Followups(src, offset, limit, later)| ==>
              Followups(src, offset, limit, later)[i] == Request(Some(offset + (i + 1) * limit), later)
    decreases |src.items| - offset
  {
    var next := Request(Some(offset + limit), later);
    if |Serve(src, next).items| >= limit {
      FullIff(src, next);
      var rest := Followups(src, offset + limit, limit, later);
      FollowupsOffsets(src, offset + limit, limit, later);
      var f := [next] + rest;
      assert Followups(src, offset, limit, later) == f;
      forall i | 1 <= i < |f|
        ensures f[i] == Request(Some(offset + (i + 1) * limit), later)
      {
        var j := i - 1;
        assert f[i] == rest[j] == Request(Some(offset + limit + (j + 1) * limit), later);
        assert j + 1 == i && offset + limit + i * limit == offset + (i + 1) * limit;
      }
    }
  }

  /** Every later page but the last is full, and the last one is short. */
  lemma {:induction false} FollowupsFullUntilLast<T>(src: Source<T>, offset: nat, limit: nat, later: Option<nat>)
    requires limit > 0
    ensures forall i :: 0 <= i < |Followups(src, offset, limit, later)| - 1 ==>
              |Serve(src, Followups(src, offset, limit, later)[i]).items| >= limit
    ensures var f := Followups(src, offset, limit, later);
            |Serve(src, f[|f| - 1]).items| < limit
    decreases |src.items| - offset
  {
    var next := Request(Some(offset + limit), later);
    if |Serve(src, next).items| >= limit {
      FullIff(src, next);
      var rest := Followups(src, offset + limit, limit, later);
      FollowupsFullUntilLast(src, offset + limit, limit, later);
      var f := [next] + rest;
      assert forall i :: 1 <= i < |f| ==> f[i] == rest[i - 1];
    }
  }

  /**
   * The loop stops at the first short page (lines 23-28): of the pages fetched,
   * every one but the last holds `limit` items or more, and the last holds
   * fewer. This holds whatever the service's default page size.
   */
  lemma StopsAtFirstShortPage<T>(src: Source<T>, limitArg: Option<nat>, offsetArg: Option<nat>)
    requires EffectiveLimit(src, limitArg) > 0
    ensures forall i :: 0 <= i < |Requests(src, limitArg, offsetArg)| - 1 ==>
              |Serve(src, Requests(src, limitArg, offsetArg)[i]).items| >= EffectiveLimit(src, limitArg)
    ensures var r := Requests(src, limitArg, offsetArg);
            |Serve(src, r[|r| - 1]).items| < EffectiveLimit(src, limitArg)
  {
    var limit := EffectiveLimit(src, limitArg);
    var first := Request(offsetArg, limitArg);
    if |Serve(src, first).items| >= limit {
      var rest := Followups(src, offsetArg.GetOr(0), limit, None);
      FollowupsFullUntilLast(src, offsetArg.GetOr(0), limit, None);
      var r := [first] + rest;
      assert forall i :: 1 <= i < |r| ==> r[i] == rest[i - 1];
    }
  }

  /**
   * Each turn of the loop advances the offset by exactly `limit` (line 25):
   * the i-th later request names the offset `i * limit` past the start, and,
   * since line 27 does not pass it, no limit of its own.
   */
  lemma RequestOffsets<T>(src: Source<T>, limitArg: Option<nat>, offsetArg: Option<nat>)
    requires EffectiveLimit(src, limitArg) > 0
    ensures forall i :: 1 <= i < |Requests(src, limitArg, offsetArg)| ==>
              Requests(src, limitArg, offsetArg)[i] == Request(Some(offsetArg.GetOr(0) + i * EffectiveLimit(src, limitArg)), None)
  {
    var limit := EffectiveLimit(src, limitArg);
    var first := Request(offsetArg, limitArg);
    if |Serve(src, first).items| >= limit {
      var rest := Followups(src, offsetArg.GetOr(0), limit, None);
      FollowupsOffsets(src, offsetArg.GetOr(0), limit, None);
      var r := [first] + rest;
      forall i | 1 <= i < |r|
        ensures r[i] == Request(Some(offsetArg.GetOr(0) + i * limit), None)
      {
        var j := i - 1;
        assert r[i] == rest[j] && j + 1 == i;
      }
    }
  }

  /** A first page shorter than the limit, including an empty one, is the only fetch, and its items are the result. */
  lemma ShortFirstPage<T>(src: Source<T>, limitArg: Option<nat>, offsetArg: Option<nat>)
    requires EffectiveLimit(src, limitArg) > 0
    requires |Serve(src, Request(offsetArg, limitArg)).items| < EffectiveLimit(src, limitArg)
    ensures Requests(src, limitArg, offsetArg) == [Request(offsetArg, limitArg)]
    ensures Concat(src, Requests(src, limitArg, offsetArg)) == Serve(src, Request(offsetArg, limitArg)).items
  {
    assert Concat(src, [Request(offsetArg, limitArg)]) == Serve(src, Request(offsetArg, limitArg)).items + Concat(src, []);
  }

  /** A positive multiple of `k` is at least `k`. */
  lemma {:induction false} MulAtLeast(d: int, k: int)
    requires d >= 1 && k > 0
    ensures d * k >= k
    decreases d
  {
    if d > 1 {
      MulAtLeast(d - 1, k);
      assert d * k == (d - 1) * k + k;
    }
  }

  /** Division by `k` is determined by quotient and remainder. */
  lemma DivUnique(x: int, k: int, q: int, r: int)
    requires 0 < k && 0 <= r < k && x == q * k + r
    ensures x / k == q
  {
    var q', r' := x / k, x % k;
    assert (q - q') * k == r' - r;
    if q > q' {
      MulAtLeast(q - q', k);
      assert false;
    } else if q < q' {
      MulAtLeast(q' - q, k);
      assert false;
    }
  }

  /** Removing one page's worth from `x` lowers the number of whole pages in it by one. */
  lemma DivStep(x: int, k: int)
    requires 0 < k <= x
    ensures (x - k) / k + 1 == x / k
  {
    var q, r := (x - k) / k, (x - k) % k;
    assert x == (q + 1) * k + r;
    DivUnique(x, k, q + 1, r);
  }

  /** With later pages served at the loop's page size, a full page at `offset` is followed by `(n - offset) / limit` requests. */
  lemma {:induction false} FollowupsCount<T>(src: Source<T>, offset: nat, limit: nat, later: Option<nat>)
    requires limit > 0 && later.GetOr(src.defaultLimit) == limit
    requires offset + limit <= |src.items|
    ensures |Followups(src, offset, limit, later)| == (|src.items| - offset) / limit
    decreases |src.items| - offset
  {
    var next := Request(Some(offset + limit), later);
    var x := |src.items| - offset;
    FullIff(src, next);
    if |Serve(src, next).items| >= limit {
      FollowupsCount(src, offset + limit, limit, later);
      DivStep(x, limit);
    } else {
      DivUnique(x, limit, 1, x - limit);
    }
  }

  /**
   * The number of fetches (lines 16-27): for N items, page size L equal to the
   * service's default and start offset O <= N, `get_all` calls the service
   * (N - O) / L + 1 times; a start past the end costs one call.
   */
  lemma FetchCount<T>(src: Source<T>, limitArg: Option<nat>, offsetArg: Option<nat>)
    requires limitArg.GetOr(src.defaultLimit) == src.defaultLimit > 0
    ensures var n, o := |src.items|, offsetArg.GetOr(0);
            |Requests(src, limitArg, offsetArg)| == if o <= n then (n - o) / src.defaultLimit + 1 else 1
  {
    var first := Request(offsetArg, limitArg);
    var limit, n, o := src.defaultLimit, |src.items|, offsetArg.GetOr(0);
    FullIff(src, first);
    if |Serve(src, first).items| >= limit {
      FollowupsCount(src, o, limit, None);
    } else if o <= n {
      DivUnique(n - o, limit, 0, n - o);
    }
  }

  /**
   * The extra fetch: with the page size equal to the service's default and a
   * start offset O <= N, the last page fetched is empty exactly when N - O is a
   * multiple of the page size, so that one call returns nothing new.
   */
  lemma LastPageEmptyIffExactMultiple<T>(src: Source<T>, limitArg: Option<nat>, offsetArg: Option<nat>)
    requires limitArg.GetOr(src.defaultLimit) == src.defaultLimit > 0
    requires offsetArg.GetOr(0) <= |src.items|
    ensures var r := Requests(src, limitArg, offsetArg);
            Serve(src, r[|r| - 1]).items == [] <==> (|src.items| - offsetArg.GetOr(0)) % src.defaultLimit == 0
  {
    var r := Requests(src, limitArg, offsetArg);
    var limit, n, o := src.defaultLimit, |src.items|, offsetArg.GetOr(0);
    FetchCount(src, limitArg, offsetArg);
    RequestOffsets(src, limitArg, offsetArg);
    var k := |r| - 1;
    assert k == (n - o) / limit;
    assert n - o == k * limit + (n - o) % limit;
    var last := r[k];
    ServeWindow(src, last);
    assert Serve(src, last).offset == o + k * limit;
  }

  /**
   * As written, a caller limit larger than the service's default page size
   * loses items: with four items, a default page size of 1 and `limit=2`, the
   * first page [1, 2] is full, the second call names no limit and gets [3],
   * which is shorter than 2, so the wrapper stops without item 4.
   */
  lemma DroppedLimitLosesItems()
    ensures var src := Source([1, 2, 3, 4], 1);
            Concat(src, Requests(src, Some(2), None)) == [1, 2, 3] != Suffix(src.items, 0)
  {
    var src := Source([1, 2, 3, 4], 1);
    var first := Request(None, Some(2));
    var next := Request(Some(2), None);
    assert Serve(src, first).items == [1, 2];
    assert Serve(src, next).items == [3];
    assert Requests(src, Some(2), None) == [first, next];
    assert [first, next][1..] == [next];
    assert Concat(src, [next]) == [3] + Concat(src, []);
  }

  /**
   * As written, a caller limit smaller than the service's default page size
   * returns items twice: with three items, a default page size of 3 and
   * `limit=1`, the first page is [1]; the later calls name no limit and get
   * [2, 3], [3] and finally [], each starting one item further on.
   */
  lemma DroppedLimitRepeatsItems()
    ensures var src := Source([1, 2, 3], 3);
            Concat(src, Requests(src, Some(1), None)) == [1, 2, 3, 3]
  {
    var src := Source([1, 2, 3], 3);
    var reqs := RepeatingRequests();
    assert Serve(src, reqs[0]).items == [1];
    assert Serve(src, reqs[1]).items == [2, 3];
    assert Serve(src, reqs[2]).items == [3];
    assert Serve(src, reqs[3]).items == [];
    assert Concat(src, reqs[3..]) == [] + Concat(src, reqs[4..]);
    assert Concat(src, reqs[2..]) == [3] + Concat(src, reqs[3..]);
    assert Concat(src, reqs[1..]) == [2, 3] + Concat(src, reqs[2..]);
    assert Concat(src, reqs) == [1] + Concat(src, reqs[1..]);
  }

  /** The calls of the run in `DroppedLimitRepeatsItems`: the first with `limit=1`, then offsets 1, 2 and 3 with no limit. */
  lemma RepeatingRequests() returns (reqs: seq<Request>)
    ensures reqs == Requests(Source([1, 2, 3], 3), Some(1), None)
    ensures reqs == [Request(None, Some(1)), Request(Some(1), None), Request(Some(2), None), Request(Some(3), None)]
  {
    var src := Source([1, 2, 3], 3);
    var r0, r1, r2, r3 := Request(None, Some(1)), Request(Some(1), None), Request(Some(2), None), Request(Some(3), None);
    assert Serve(src, r0).items == [1];
    assert Serve(src, r1).items == [2, 3];
    assert Serve(src, r2).items == [3];
    assert Serve(src, r3).items == [];
    assert Followups(src, 2, 1, None) == [r3];
    assert Followups(src, 1, 1, None) == [r2, r3];
    assert Followups(src, 0, 1, None) == [r1, r2, r3];
    reqs := [r0, r1, r2, r3];
  }
}
