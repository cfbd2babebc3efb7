/**
 * A whole traversal against a delegate backed by one ordered list of records
 * whose cursor-field values are distinct and truthy.  Such a `findMany`
 * positions at the record the `cursor` names (or at the start), skips `skip`
 * records and returns at most `take`.  Under it the pages are the consecutive
 * chunks of the list and the step after the last record ends the iteration.
 */
module Traversal {
  import opened Wrappers
  import opened JsValues
  import opened Pagination

  function Min(a: int, b: int): int {
    if a <= b then a else b
  }

  /** The caller's obligation: cursor-field values identify records and are truthy. */
  predicate DistinctTruthyCursors(db: seq<Record>, key: string) {
    && (forall i :: 0 <= i < |db| ==> Truthy(Get(db[i], key)))
    && (forall i, j :: 0 <= i < j < |db| ==> Get(db[i], key) != Get(db[j], key))
  }

  /** The index of the first record whose `key` property is `v`. */
  function CursorIndex(db: seq<Record>, key: string, v: Value): (r: Option<nat>)
    ensures r.Some? ==> r.value < |db| && Get(db[r.value], key) == v
    ensures r.None? ==> forall i :: 0 <= i < |db| ==> Get(db[i], key) != v
    decreases |db|
  {
    if db == [] then None
    else if Get(db[0], key) == v then Some(0)
    else
      match CursorIndex(db[1..], key, v)
      case None => None
      case Some(j) => Some(j + 1)
  }

  function Skip(req: Request): nat {
    match Get(req, "skip")
    case Num(n) => if n >= 0 then n else 0
    case _ => 0
  }

  function Take(req: Request, total: nat): nat {
    match Get(req, "take")
    case Num(n) => if n >= 0 then n else total
    case _ => total
  }

  /** The records such a `findMany` returns for a request. */
  function Window(db: seq<Record>, key: string, req: Request): seq<Record> {
    var anchor :=
      if "cursor" !in req then Some(0)
      else match req["cursor"]
        case Obj(c) => if key in c then CursorIndex(db, key, c[key]) else None
        case _ => None;
    match anchor
    case None => []
    case Some(a) =>
      var lo := Min(a + Skip(req), |db|);
      var hi := Min(lo + Take(req, |db|), |db|);
      db[lo..hi]
  }

  function ListDelegate(db: seq<Record>, key: string): Request -> Fetch {
    req => Fetched(Window(db, key, req))
  }

  /** The list cut into consecutive pieces of `size`, the last possibly shorter. */
  function Chunks<T>(s: seq<T>, size: nat): seq<seq<T>>
    requires size > 0
    decreases |s|
  {
    if s == [] then []
    else
      var n := Min(size, |s|);
      [s[..n]] + Chunks(s[n..], size)
  }

  /** Every chunk holds between one and `size` elements, and all but the last exactly `size`. */
  lemma {:induction false} ChunkSizes<T>(s: seq<T>, size: nat)
    requires size > 0
    ensures forall i :: 0 <= i < |Chunks(s, size)| ==> 0 < |Chunks(s, size)[i]| <= size
    ensures forall i :: 0 <= i < |Chunks(s, size)| - 1 ==> |Chunks(s, size)[i]| == size
    decreases |s|
  {
    if s != [] {
      var n := Min(size, |s|);
      var cs, rest := Chunks(s, size), Chunks(s[n..], size);
      ChunkSizes(s[n..], size);
      assert cs == [s[..n]] + rest;
      assert |cs[0]| == n;
      if n < size {
        assert s[n..] == [];
        assert rest == [];
      }
      forall i | 0 < i < |cs| ensures cs[i] == rest[i - 1] && 0 < |rest[i - 1]| <= size {
      }
      forall i | 0 < i < |cs| - 1 ensures |cs[i]| == size {
        assert cs[i] == rest[i - 1];
      }
    }
  }

  function Flatten<T>(cs: seq<seq<T>>): seq<T> {
    if cs == [] then [] else cs[0] + Flatten(cs[1..])
  }

  lemma {:induction false} FlattenChunks<T>(s: seq<T>, size: nat)
    requires size > 0
    ensures Flatten(Chunks(s, size)) == s
    decreases |s|
  {
    if s != [] {
      var n := Min(size, |s|);
      FlattenChunks(s[n..], size);
      assert Chunks(s, size)[1..] == Chunks(s[n..], size);
      assert s == s[..n] + s[n..];
    }
  }

  /** The outcomes of `n` successive steps from cursor `c`. */
  function Trace(it: Iterable, c: Value, n: nat): seq<Outcome>
    decreases n
  {
    if n == 0 then [] else [Advance(it, c).0] + Trace(it, Advance(it, c).1, n - 1)
  }

  function Yields(pages: seq<seq<Record>>): (rs: seq<Outcome>)
    ensures |rs| == |pages|
    ensures forall i :: 0 <= i < |pages| ==> rs[i] == Yielded(pages[i])
  {
    if pages == [] then [] else [Yielded(pages[0])] + Yields(pages[1..])
  }

  /** The arguments of a traversal: the list, its cursor key, a page size. */
  predicate ListSetup(db: seq<Record>, key: string, args: Object, defaultCursorField: Value, pageSize: nat) {
    && DistinctTruthyCursors(db, key)
    && PropertyKey(if Nullish(Get(args, "cursorField")) then defaultCursorField else args["cursorField"]) == key
    && Get(args, "pageSize") == Num(pageSize) && pageSize > 0
    && "cursor" !in args && "skip" !in args
  }

  /** Without a cursor the delegate answers with the first `take` records. */
  lemma WindowFromStart(db: seq<Record>, key: string, req: Request, pageSize: nat)
    requires "cursor" !in req && "skip" !in req && Get(req, "take") == Num(pageSize)
    ensures Window(db, key, req) == db[..Min(pageSize, |db|)]
  {
  }

  /** With the cursor of record `start - 1` and `skip = 1` it answers from `start` on. */
  lemma WindowAfter(db: seq<Record>, key: string, req: Request, start: nat, pageSize: nat)
    requires DistinctTruthyCursors(db, key)
    requires 0 < start <= |db|
    requires "cursor" in req && req["cursor"] == Obj(map[key := Get(db[start - 1], key)])
    requires Get(req, "skip") == Num(1) && Get(req, "take") == Num(pageSize)
    ensures Window(db, key, req) == db[start..Min(start + pageSize, |db|)]
  {
    var c := map[key := Get(db[start - 1], key)];
    assert key in c && c[key] == Get(db[start - 1], key);
    CursorIndexOf(db, key, start - 1);
    assert Skip(req) == 1 && Take(req, |db|) == pageSize;
  }

  /** Distinct cursors: the cursor of record `i` leads back to `i`. */
  lemma {:induction false} CursorIndexOf(db: seq<Record>, key: string, i: nat)
    requires i < |db|
    requires forall j :: 0 <= j < i ==> Get(db[j], key) != Get(db[i], key)
    ensures CursorIndex(db, key, Get(db[i], key)) == Some(i)
    decreases i
  {
    if i > 0 {
      var v := Get(db[i], key);
      assert db[1..][i - 1] == db[i];
      forall j | 0 <= j < i - 1 ensures Get(db[1..][j], key) != v {
        assert db[1..][j] == db[j + 1];
      }
      CursorIndexOf(db[1..], key, i - 1);
    }
  }

  /** The request a step sends, from the start or from after record `start - 1`. */
  lemma ListRequest(db: seq<Record>, key: string, args: Object, defaultCursorField: Value, pageSize: nat,
                    start: nat, c: Value)
    requires ListSetup(db, key, args, defaultCursorField, pageSize)
    requires start <= |db|
    requires (start == 0 && c == Null) || (0 < start && c == Get(db[start - 1], key))
    ensures var it := Paginate(ListDelegate(db, key), defaultCursorField, args);
            var req := FindManyRequest(it, c);
            && CursorKey(it) == key
            && Get(req, "take") == Num(pageSize)
            && (start == 0 ==> "cursor" !in req && "skip" !in req)
            && (start > 0 ==> "cursor" in req && req["cursor"] == Obj(map[key := c]) && Get(req, "skip") == Num(1))
  {
    RequestForwardsArgs(ListDelegate(db, key), defaultCursorField, args, c);
  }

  /** What the delegate returns to a step. */
  lemma ListFetch(db: seq<Record>, key: string, args: Object, defaultCursorField: Value, pageSize: nat,
                  start: nat, c: Value)
    requires ListSetup(db, key, args, defaultCursorField, pageSize)
    requires start <= |db|
    requires (start == 0 && c == Null) || (0 < start && c == Get(db[start - 1], key))
    ensures var it := Paginate(ListDelegate(db, key), defaultCursorField, args);
            && CursorKey(it) == key
            && it.findMany(FindManyRequest(it, c)) == Fetched(db[start..Min(start + pageSize, |db|)])
  {
    var it := Paginate(ListDelegate(db, key), defaultCursorField, args);
    var req := FindManyRequest(it, c);
    ListRequest(db, key, args, defaultCursorField, pageSize, start, c);
    if start == 0 {
      WindowFromStart(db, key, req, pageSize);
    } else {
      WindowAfter(db, key, req, start, pageSize);
    }
  }

  /** The cursor a step starts from: none at the start, else that of record `start - 1`. */
  predicate AtPosition(db: seq<Record>, key: string, start: nat, c: Value) {
    start <= |db| && ((start == 0 && c == Null) || (0 < start && c == Get(db[start - 1], key)))
  }

  /** The step the list delegate makes possible from `start`: the next chunk and its last cursor, or the end. */
  function ListAnswer(db: seq<Record>, key: string, pageSize: nat, start: nat, c: Value): (Outcome, Value)
    requires pageSize > 0 && start <= |db|
  {
    var hi := Min(start + pageSize, |db|);
    if start == |db| then (Finished, c) else (Yielded(db[start..hi]), Get(db[hi - 1], key))
  }

  /** A step whose fetch gave the next chunk of the list is the list's answer. */
  lemma AdvanceAfterFetch(it: Iterable, db: seq<Record>, key: string, pageSize: nat, start: nat, c: Value)
    requires pageSize > 0 && start <= |db|
    requires CursorKey(it) == key
    requires it.findMany(FindManyRequest(it, c)) == Fetched(db[start..Min(start + pageSize, |db|)])
    ensures Advance(it, c) == ListAnswer(db, key, pageSize, start, c)
  {
    var hi := Min(start + pageSize, |db|);
    var page := db[start..hi];
    if start < |db| {
      assert |page| == hi - start > 0;
      assert page[|page| - 1] == db[hi - 1];
      assert Advance(it, c) == (Yielded(page), Get(page[|page| - 1], key));
    } else {
      assert page == [];
      assert Advance(it, c) == (Finished, c);
    }
  }

  /**
   * One step from the position after record `start - 1` (or from the start)
   * returns the next chunk and moves the cursor to its last record, or ends.
   */
  lemma ListStep(db: seq<Record>, key: string, args: Object, defaultCursorField: Value, pageSize: nat,
                 start: nat, c: Value)
    requires ListSetup(db, key, args, defaultCursorField, pageSize)
    requires AtPosition(db, key, start, c)
    ensures Advance(Paginate(ListDelegate(db, key), defaultCursorField, args), c) == ListAnswer(db, key, pageSize, start, c)
  {
    ListFetch(db, key, args, defaultCursorField, pageSize, start, c);
    AdvanceAfterFetch(Paginate(ListDelegate(db, key), defaultCursorField, args), db, key, pageSize, start, c);
  }

  /** Every step an iterable makes from a list position is the list's answer. */
  ghost predicate TraversesList(it: Iterable, db: seq<Record>, key: string, pageSize: nat) {
    pageSize > 0 &&
    forall start: nat, c: Value :: AtPosition(db, key, start, c) ==>
      Advance(it, c) == ListAnswer(db, key, pageSize, start, c)
  }

  lemma ListIterableTraverses(db: seq<Record>, key: string, args: Object, defaultCursorField: Value, pageSize: nat)
    requires ListSetup(db, key, args, defaultCursorField, pageSize)
    ensures TraversesList(Paginate(ListDelegate(db, key), defaultCursorField, args), db, key, pageSize)
  {
    forall start: nat, c: Value | AtPosition(db, key, start, c)
      ensures Advance(Paginate(ListDelegate(db, key), defaultCursorField, args), c) == ListAnswer(db, key, pageSize, start, c)
    {
      ListStep(db, key, args, defaultCursorField, pageSize, start, c);
    }
  }

  lemma ChunksFrom<T>(s: seq<T>, start: nat, size: nat)
    requires size > 0 && start < |s|
    ensures Chunks(s[start..], size) == [s[start..Min(start + size, |s|)]] + Chunks(s[Min(start + size, |s|)..], size)
  {
    var hi := Min(start + size, |s|);
    assert s[start..][hi - start..] == s[hi..];
    assert s[start..][..hi - start] == s[start..hi];
  }

  lemma YieldsCons(page: seq<Record>, rest: seq<seq<Record>>, t: seq<Outcome>)
    requires t == Yields(rest) + [Finished]
    ensures [Yielded(page)] + t == Yields([page] + rest) + [Finished]
  {
    assert ([page] + rest)[1..] == rest;
  }

  lemma TraceStep(it: Iterable, c: Value, n: nat)
    ensures Trace(it, c, n + 1) == [Advance(it, c).0] + Trace(it, Advance(it, c).1, n)
  {
  }

  lemma {:induction false} TraceFrom(it: Iterable, db: seq<Record>, key: string, pageSize: nat, start: nat, c: Value)
    requires TraversesList(it, db, key, pageSize)
    requires AtPosition(db, key, start, c)
    ensures var pages := Chunks(db[start..], pageSize);
            Trace(it, c, |pages| + 1) == Yields(pages) + [Finished]
    decreases |db| - start
  {
    var step := Advance(it, c);
    StepOnList(it, db, key, pageSize, start, c, step.0, step.1);
    TraceStep(it, c, |Chunks(db[start..], pageSize)|);
    if start < |db| {
      var hi := Min(start + pageSize, |db|);
      var page, rest := db[start..hi], Chunks(db[hi..], pageSize);
      assert |Chunks(db[start..], pageSize)| == |rest| + 1;
      TraceFrom(it, db, key, pageSize, hi, step.1);
      YieldsCons(page, rest, Trace(it, step.1, |rest| + 1));
    } else {
      assert Chunks(db[start..], pageSize) == [];
    }
  }

  /**
   * A fresh iterator yields the chunks of the list in order, every one of
   * `pageSize` records but the last, and its next step ends the iteration;
   * the yielded pages put together are the whole list.
   */
  lemma ListTraversal(db: seq<Record>, key: string, args: Object, defaultCursorField: Value, pageSize: nat)
    requires ListSetup(db, key, args, defaultCursorField, pageSize)
    ensures var it := Paginate(ListDelegate(db, key), defaultCursorField, args);
            var pages := Chunks(db, pageSize);
            && Trace(it, Null, |pages| + 1) == Yields(pages) + [Finished]
            && Flatten(pages) == db
            && (forall i :: 0 <= i < |pages| ==> 0 < |pages[i]| <= pageSize)
            && (forall i :: 0 <= i < |pages| - 1 ==> |pages[i]| == pageSize)
  {
    var it := Paginate(ListDelegate(db, key), defaultCursorField, args);
    ListIterableTraverses(db, key, args, defaultCursorField, pageSize);
    assert AtPosition(db, key, 0, Null);
    TraceFrom(it, db, key, pageSize, 0, Null);
    assert db[0..] == db;
    FlattenChunks(db, pageSize);
    ChunkSizes(db, pageSize);
  }

  /**
   * What one step on the list means for the collected pages: the end exactly
   * at the end of the list, otherwise the first remaining chunk and the
   * position after it.
   */
  lemma StepOnList(it: Iterable, db: seq<Record>, key: string, pageSize: nat, start: nat, c: Value,
                   r: Outcome, c': Value)
    requires TraversesList(it, db, key, pageSize)
    requires AtPosition(db, key, start, c)
    requires (r, c') == Advance(it, c)
    ensures r == Finished <==> start == |db|
    ensures start == |db| ==> Chunks(db[start..], pageSize) == []
    ensures start < |db| ==>
              && r == Yielded(db[start..Min(start + pageSize, |db|)])
              && AtPosition(db, key, Min(start + pageSize, |db|), c')
              && Chunks(db[start..], pageSize) == [db[start..Min(start + pageSize, |db|)]] + Chunks(db[Min(start + pageSize, |db|)..], pageSize)
  {
    assert Advance(it, c) == ListAnswer(db, key, pageSize, start, c);
    if start == |db| {
      assert db[start..] == [];
    } else {
      ChunksFrom(db, start, pageSize);
    }
  }

  /** One `next()` on an iterator that stands at list position `start`. */
  method NextOnList(it: PageIterator, ghost db: seq<Record>, ghost key: string, ghost pageSize: nat, ghost start: nat)
    returns (r: Outcome)
    requires TraversesList(it.iterable, db, key, pageSize)
    requires AtPosition(db, key, start, it.lastCursor)
    modifies it
    ensures r == Finished <==> start == |db|
    ensures start == |db| ==> Chunks(db[start..], pageSize) == []
    ensures start < |db| ==>
              && r == Yielded(db[start..Min(start + pageSize, |db|)])
              && AtPosition(db, key, Min(start + pageSize, |db|), it.lastCursor)
              && Chunks(db[start..], pageSize) == [db[start..Min(start + pageSize, |db|)]] + Chunks(db[Min(start + pageSize, |db|)..], pageSize)
  {
    ghost var c := it.lastCursor;
    r := it.Next();
    StepOnList(it.iterable, db, key, pageSize, start, c, r, it.lastCursor);
  }

  lemma MovePage<T>(done: seq<T>, page: T, rest: seq<T>)
    ensures (done + [page]) + rest == done + ([page] + rest)
  {
  }

  /** Calls `next()` until it reports done and collects the yielded pages. */
  method Drain(it: PageIterator, ghost db: seq<Record>, ghost key: string, ghost pageSize: nat)
    returns (pages: seq<seq<Record>>)
    requires TraversesList(it.iterable, db, key, pageSize)
    requires it.lastCursor == Null
    modifies it
    ensures pages == Chunks(db, pageSize)
  {
    assert db[0..] == db;
    pages := [];
    ghost var start: nat := 0;
    while true
      invariant AtPosition(db, key, start, it.lastCursor)
      invariant pages + Chunks(db[start..], pageSize) == Chunks(db, pageSize)
      decreases |db| - start
    {
      var r := NextOnList(it, db, key, pageSize, start);
      if r == Finished {
        assert pages + [] == pages;
        break;
      }
      ghost var hi := Min(start + pageSize, |db|);
      var page := r.result.value.value;
      MovePage(pages, page, Chunks(db[hi..], pageSize));
      pages := pages + [page];
      start := hi;
    }
  }

  /**
   * Drives a fresh PageIterator over the list until it reports done: the
   * collected pages are the chunks of the list.
   */
  method CollectPages(db: seq<Record>, key: string, args: Object, defaultCursorField: Value, pageSize: nat)
    returns (pages: seq<seq<Record>>)
    requires ListSetup(db, key, args, defaultCursorField, pageSize)
    ensures pages == Chunks(db, pageSize)
    ensures Flatten(pages) == db
  {
    var it := new PageIterator(Paginate(ListDelegate(db, key), defaultCursorField, args));
    ListIterableTraverses(db, key, args, defaultCursorField, pageSize);
    pages := Drain(it, db, key, pageSize);
    FlattenChunks(db, pageSize);
  }

  /** The records of the five-record scenario: ids 1 to 5. */
  function FiveRecords(): seq<Record> {
    [map["id" := Num(1)], map["id" := Num(2)], map["id" := Num(3)], map["id" := Num(4)], map["id" := Num(5)]]
  }

  lemma FiveRecordsSetup()
    ensures ListSetup(FiveRecords(), "id", map["pageSize" := Num(2)], Str("id"), 2)
  {
    var db := FiveRecords();
    forall i | 0 <= i < |db| ensures Get(db[i], "id") == Num(i + 1) { }
  }

  lemma ChunksOfFive()
    ensures Chunks(FiveRecords(), 2) == [FiveRecords()[0..2], FiveRecords()[2..4], FiveRecords()[4..5]]
  {
    var db := FiveRecords();
    ChunksFrom(db, 0, 2);
    ChunksFrom(db, 2, 2);
    ChunksFrom(db, 4, 2);
    assert db[0..] == db;
    assert db[5..] == [];
  }

  /** 5 records with ids 1..5 and a page size of 2 give [1, 2], [3, 4], [5], then the end. */
  lemma FiveRecordsInPagesOfTwo()
    ensures var db := FiveRecords();
            var it := Paginate(ListDelegate(db, "id"), Str("id"), map["pageSize" := Num(2)]);
            var pages := Chunks(db, 2);
            && pages == [db[0..2], db[2..4], db[4..5]]
            && Trace(it, Null, |pages| + 1) == Yields(pages) + [Finished]
  {
    FiveRecordsSetup();
    ListTraversal(FiveRecords(), "id", map["pageSize" := Num(2)], Str("id"), 2);
    ChunksOfFive();
  }

  /** With no matching records the first step already ends the iteration. */
  lemma NoRecordsEndAtOnce(key: string, args: Object, defaultCursorField: Value, pageSize: nat)
    requires ListSetup([], key, args, defaultCursorField, pageSize)
    ensures Trace(Paginate(ListDelegate([], key), defaultCursorField, args), Null, 1) == [Finished]
  {
    ListTraversal([], key, args, defaultCursorField, pageSize);
  }
}
