/** Filtering an ordered scan of a table, and forward-only cursor pagination as the routers do it:
    fetch `limit + 1` rows starting AT the cursor row (Prisma's `cursor` without `skip` includes it),
    then pop the extra row and hand its id back as `nextCursor`. */
module Paging {
  import opened Domain

  /** One page of ids and the cursor for the next one. */
  datatype Page = Page(items: seq<int>, nextCursor: Option<int>)

  predicate Distinct(s: seq<int>) {
    forall i, j :: 0 <= i < j < |s| ==> s[i] != s[j]
  }

  /** `order` lists every key of a table exactly once: the ids as the store enumerates them for one
      `orderBy`. */
  ghost predicate IsScan(order: seq<int>, keys: set<int>) {
    Distinct(order) && (forall k :: k in order <==> k in keys)
  }

  /** `a` occurs in `order` before some occurrence of `b`. */
  predicate Before(order: seq<int>, a: int, b: int) {
    exists p, q :: 0 <= p < q < |order| && order[p] == a && order[q] == b
  }

  /** Any two ids of `r` appear in `order` in the same relative order: `r` keeps the scan's `orderBy`. */
  predicate InOrder(r: seq<int>, order: seq<int>) {
    forall i, j | 0 <= i < j < |r| :: Before(order, r[i], r[j])
  }

  /** Putting the same id in front of both sequences keeps the order. */
  lemma InOrderCons(x: int, rest: seq<int>, tail: seq<int>)
    requires InOrder(rest, tail) && forall k :: k in rest ==> k in tail
    ensures InOrder([x] + rest, [x] + tail)
  {
    var r, o := [x] + rest, [x] + tail;
    forall i, j | 0 <= i < j < |r| ensures Before(o, r[i], r[j]) {
      if i == 0 {
        assert r[j] == rest[j - 1] && rest[j - 1] in rest;
        var q' :| 0 <= q' < |tail| && tail[q'] == rest[j - 1];
        assert o[0] == r[0] && o[q' + 1] == r[j];
      } else {
        assert Before(tail, rest[i - 1], rest[j - 1]);
        var p', q' :| 0 <= p' < q' < |tail| && tail[p'] == rest[i - 1] && tail[q'] == rest[j - 1];
        assert o[p' + 1] == r[i] && o[q' + 1] == r[j];
      }
    }
  }

  /** An id skipped at the front of the scan does not disturb the order. */
  lemma InOrderSkip(x: int, rest: seq<int>, tail: seq<int>)
    requires InOrder(rest, tail)
    ensures InOrder(rest, [x] + tail)
  {
    var o := [x] + tail;
    forall i, j | 0 <= i < j < |rest| ensures Before(o, rest[i], rest[j]) {
      assert Before(tail, rest[i], rest[j]);
      var p', q' :| 0 <= p' < q' < |tail| && tail[p'] == rest[i] && tail[q'] == rest[j];
      assert o[p' + 1] == rest[i] && o[q' + 1] == rest[j];
    }
  }

  /** The ids of `order` that satisfy `keep`, in the same order: a `where` clause applied to the
      store's ordered scan. */
  function Filter(order: seq<int>, keep: int -> bool): (r: seq<int>)
    ensures |r| <= |order|
    ensures forall k :: k in r <==> k in order && keep(k)
    ensures Distinct(order) ==> Distinct(r)
    ensures InOrder(r, order)
  {
    if order == [] then []
    else
      var rest := Filter(order[1..], keep);
      assert order == [order[0]] + order[1..];
      assert forall k :: k in order <==> k == order[0] || k in order[1..];
      if keep(order[0]) then
        assert Distinct(order) ==> order[0] !in order[1..];
        InOrderCons(order[0], rest, order[1..]);
        [order[0]] + rest
      else
        InOrderSkip(order[0], rest, order[1..]);
        rest
  }

  /** A scan without repetition has as many ids as it has distinct members. */
  lemma {:induction false} DistinctSize(s: seq<int>)
    requires Distinct(s)
    ensures |(set x | x in s)| == |s|
  {
    if s != [] {
      var init, x := s[..|s| - 1], s[|s| - 1];
      assert s == init + [x];
      forall i, j | 0 <= i < j < |init| ensures init[i] != init[j] {
        assert init[i] == s[i] && init[j] == s[j];
      }
      forall k | 0 <= k < |init| ensures init[k] != x {
        assert init[k] == s[k];
      }
      DistinctSize(init);
      assert (set y | y in s) == (set y | y in init) + {x};
    }
  }

  /** Two filters that agree on every row of the scan select the same rows. */
  lemma {:induction false} FilterSame(order: seq<int>, p: int -> bool, q: int -> bool)
    requires forall k | k in order :: p(k) == q(k)
    ensures Filter(order, p) == Filter(order, q)
  {
    if order != [] {
      var x := order[0];
      assert x in order;
      assert p(x) == q(x);
      assert forall k | k in order[1..] :: k in order;
      FilterSame(order[1..], p, q);
    }
  }

  /** At most `n` ids from the front: `take: n` without a cursor. */
  function Take(s: seq<int>, n: nat): (r: seq<int>)
    ensures |r| == Min(|s|, n)
    ensures r == s[..|r|]
    ensures |s| <= n ==> r == s
  {
    if |s| <= n then s else s[..n]
  }

  /** The position of the first occurrence of `x`. */
  function IndexOf(s: seq<int>, x: int): (r: Option<nat>)
    ensures r.Some? ==> r.value < |s| && s[r.value] == x
    ensures r.None? ==> x !in s
  {
    if s == [] then None
    else if s[0] == x then Some(0)
    else match IndexOf(s[1..], x)
      case None => None
      case Some(k) => Some(k + 1)
  }

  /** The rows `findMany({ take: limit + 1, cursor: cursor ? { id: cursor } : undefined })` returns
      from the ordered, filtered rows: from the front when the cursor is falsy (absent or 0), from the
      cursor row itself otherwise, and nothing when the cursor row is not among the rows. */
  function Window(rows: seq<int>, cursor: Option<int>, limit: nat): (w: seq<int>)
    ensures |w| <= limit + 1
    ensures forall x :: x in w ==> x in rows
    ensures Truthy(cursor) && w != [] ==> w[0] == cursor.value
    ensures Truthy(cursor) && cursor.value !in rows ==> w == []
  {
    if !Truthy(cursor) then Take(rows, limit + 1)
    else match IndexOf(rows, cursor.value)
      case None => []
      case Some(k) => Take(rows[k..], limit + 1)
  }

  /** The pop step on what was fetched: when more than `limit` rows arrived, the last one leaves the
      page and its id becomes the next cursor. */
  function Pop(fetched: seq<int>, limit: nat): (p: Page)
    ensures p.nextCursor.Some? <==> |fetched| > limit
    ensures p.nextCursor.Some? ==> p.items + [p.nextCursor.value] == fetched
    ensures p.nextCursor.None? ==> p.items == fetched
    ensures |fetched| <= limit + 1 ==> |p.items| <= limit
  {
    if |fetched| > limit then
      assert fetched == fetched[..|fetched| - 1] + [fetched[|fetched| - 1]];
      Page(fetched[..|fetched| - 1], Some(fetched[|fetched| - 1]))
    else Page(fetched, None)
  }

  /** `if (rows.length > limit) nextCursor = rows.pop()?.id` on the fetched array. */
  method PopExtra(fetched: seq<int>, limit: nat) returns (page: Page)
    ensures page == Pop(fetched, limit)
  {
    var rows := fetched;
    var nextCursor: Option<int> := None;
    if |rows| > limit {
      nextCursor := Some(rows[|rows| - 1]);
      rows := rows[..|rows| - 1];
    }
    page := Page(rows, nextCursor);
  }

  /** One page of a cursor-paginated list over the ordered, filtered rows. */
  function Paginate(rows: seq<int>, cursor: Option<int>, limit: nat): (p: Page)
    ensures |p.items| <= limit
    ensures forall x :: x in p.items ==> x in rows
    ensures p.nextCursor.Some? ==> p.nextCursor.value in rows
    ensures p.nextCursor.Some? <==> |Window(rows, cursor, limit)| == limit + 1
  {
    Pop(Window(rows, cursor, limit), limit)
  }

  function Min(a: int, b: int): int {
    if a <= b then a else b
  }

  /** Ids are store-assigned from 1, so every id is truthy as a cursor. */
  predicate NoZeroId(rows: seq<int>) {
    forall x :: x in rows ==> x != 0
  }

  /** The first page: `limit` rows from the front, and a cursor exactly when more rows remain. */
  lemma FirstPage(rows: seq<int>, limit: nat)
    ensures Paginate(rows, None, limit) ==
            Page(rows[..Min(|rows|, limit)], if limit < |rows| then Some(rows[limit]) else None)
  {
    var w := Window(rows, None, limit);
    assert w == Take(rows, limit + 1);
    if limit < |rows| {
      assert w[..|w| - 1] == rows[..limit];
    }
  }

  /** The page that starts at the row in position `k`: when exactly `limit` rows remain there is no
      next cursor, not a cursor that names a missing row. */
  lemma PageAt(rows: seq<int>, k: nat, limit: nat)
    requires Distinct(rows) && NoZeroId(rows)
    requires k < |rows|
    ensures Paginate(rows, Some(rows[k]), limit) ==
            Page(rows[k..Min(|rows|, k + limit)], if k + limit < |rows| then Some(rows[k + limit]) else None)
  {
    assert rows[k] in rows;
    var i := IndexOf(rows, rows[k]);
    assert i == Some(k);
    var w := Window(rows, Some(rows[k]), limit);
    assert w == Take(rows[k..], limit + 1);
    if k + limit < |rows| {
      assert w[..|w| - 1] == rows[k..k + limit];
    } else {
      assert w == rows[k..];
    }
  }

  /** What a client reads by following `nextCursor` from a given cursor, for at most `fuel` pages. */
  ghost function Follow(rows: seq<int>, cursor: Option<int>, limit: nat, fuel: nat): seq<int>
    decreases fuel
  {
    if fuel == 0 then []
    else
      var p := Paginate(rows, cursor, limit);
      p.items + (if p.nextCursor.Some? then Follow(rows, p.nextCursor, limit, fuel - 1) else [])
  }

  /** One page read that hands back a cursor, then the rest read from that cursor. */
  lemma FollowStep(rows: seq<int>, cursor: Option<int>, limit: nat, fuel: nat, f: nat,
                   items: seq<int>, c: int, rest: seq<int>)
    requires fuel == f + 1
    requires Paginate(rows, cursor, limit) == Page(items, Some(c))
    requires rest == Follow(rows, Some(c), limit, f)
    ensures Follow(rows, cursor, limit, fuel) == items + rest
  {
  }

  /** A page without a next cursor ends the reading. */
  lemma FollowLast(rows: seq<int>, cursor: Option<int>, limit: nat, fuel: nat, items: seq<int>)
    requires fuel > 0
    requires Paginate(rows, cursor, limit) == Page(items, None)
    ensures Follow(rows, cursor, limit, fuel) == items
  {
  }

  /** Following the cursors from the row in position `k` reads exactly the rows from there on. */
  lemma {:induction false} FollowFrom(rows: seq<int>, k: nat, limit: nat, fuel: nat)
    requires Distinct(rows) && NoZeroId(rows) && 1 <= limit
    requires k < |rows| && |rows| - k <= fuel
    ensures Follow(rows, Some(rows[k]), limit, fuel) == rows[k..]
    decreases fuel
  {
    var f: nat := fuel - 1;
    if k + limit < |rows| {
      var j := k + limit;
      assert rows[k..j] + rows[j..] == rows[k..];
      assert Paginate(rows, Some(rows[k]), limit) == Page(rows[k..j], Some(rows[j])) by {
        PageAt(rows, k, limit);
      }
      FollowFrom(rows, j, limit, f);
      FollowStep(rows, Some(rows[k]), limit, fuel, f, rows[k..j], rows[j], rows[j..]);
    } else {
      assert Paginate(rows, Some(rows[k]), limit) == Page(rows[k..], None) by {
        PageAt(rows, k, limit);
      }
      FollowLast(rows, Some(rows[k]), limit, fuel, rows[k..]);
    }
  }

  /** Starting without a cursor and following `nextCursor` until it is absent reads every row once,
      in order: no row is skipped and none is repeated. */
  lemma {:induction false} FollowAll(rows: seq<int>, limit: nat)
    requires Distinct(rows) && NoZeroId(rows) && 1 <= limit
    ensures Follow(rows, None, limit, |rows| + 1) == rows
  {
    if limit < |rows| {
      assert rows[..limit] + rows[limit..] == rows;
      assert Paginate(rows, None, limit) == Page(rows[..limit], Some(rows[limit])) by {
        FirstPage(rows, limit);
      }
      FollowFrom(rows, limit, limit, |rows|);
      FollowStep(rows, None, limit, |rows| + 1, |rows|, rows[..limit], rows[limit], rows[limit..]);
    } else {
      assert Paginate(rows, None, limit) == Page(rows, None) by {
        FirstPage(rows, limit);
      }
      FollowLast(rows, None, limit, |rows| + 1, rows);
    }
  }
}
