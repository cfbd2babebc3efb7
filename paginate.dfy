/**
 * Cursor pagination over a delegate's `findMany`.
 *
 * `paginate(client, delegateName, defaultCursorField)` returns a function of
 * the pagination arguments; that function resolves the cursor field, strips
 * the two control keys and returns an iterable whose iterators each keep one
 * mutable field, `lastCursor`.  Here the delegate `client[delegateName]` is
 * the function `findMany` from request object to fetch outcome, and the
 * curried calls are one function, Paginate.
 */
module Pagination {
  import opened Wrappers
  import opened JsValues
  import Util

  type Record = Object

  /** The argument object handed to `findMany`. */
  type Request = Object

  /** What awaiting `findMany` gives: a page of records, or a rejection. */
  datatype Fetch = Fetched(page: seq<Record>) | Rejected(reason: Value)

  /** The `{done, value}` object `next()` resolves to; `value: null` is None. */
  datatype IteratorResult = IteratorResult(done: bool, value: Option<seq<Record>>)

  /** How the promise `next()` returns settles. */
  datatype Outcome = Resolved(result: IteratorResult) | Thrown(reason: Value)

  const Finished: Outcome := Resolved(IteratorResult(true, None))

  function Yielded(page: seq<Record>): Outcome {
    Resolved(IteratorResult(false, Some(page)))
  }

  /** What the iterable captures: the delegate and the three constants of the closure. */
  datatype Iterable = Iterable(
    findMany: Request -> Fetch,
    cursorField: Value,
    pageSize: Value,
    findManyArgs: Object)

  /** The keys that steer pagination and are not forwarded to `findMany`. */
  const ControlKeys: seq<string> := ["cursorField", "pageSize"]

  /**
   * `paginate(client, delegateName, defaultCursorField)(args)`: the cursor
   * field is `args.cursorField ?? defaultCursorField`, the page size is
   * `args.pageSize`, and every other argument is forwarded.
   */
  function Paginate(findMany: Request -> Fetch, defaultCursorField: Value, args: Object): (it: Iterable)
    ensures it.findMany == findMany
    ensures !Nullish(Get(args, "cursorField")) ==> it.cursorField == args["cursorField"]
    ensures Nullish(Get(args, "cursorField")) ==> it.cursorField == defaultCursorField
    ensures it.pageSize == Get(args, "pageSize")
    ensures it.findManyArgs.Keys == args.Keys - {"cursorField", "pageSize"}
    ensures forall k :: k in it.findManyArgs ==> it.findManyArgs[k] == args[k]
  {
    var supplied := Get(args, "cursorField");
    var cursorField := if Nullish(supplied) then defaultCursorField else supplied;
    Iterable(findMany, cursorField, Get(args, "pageSize"), Util.OmitKeys(args, ControlKeys))
  }

  /** The property name the cursor field designates in records and in `cursor`. */
  function CursorKey(it: Iterable): string {
    PropertyKey(it.cursorField)
  }

  /** `cursorArgs`: empty unless `lastCursor` is truthy. */
  function CursorArgs(it: Iterable, lastCursor: Value): (r: Object)
    ensures r.Keys == if Truthy(lastCursor) then {"cursor", "skip"} else {}
  {
    if Truthy(lastCursor) then
      map["cursor" := Obj(map[CursorKey(it) := lastCursor]), "skip" := Num(1)]
    else
      map[]
  }

  /** `{...findManyArgs, ...cursorArgs, take: pageSize}`: later spreads win. */
  function FindManyRequest(it: Iterable, lastCursor: Value): (req: Request)
    ensures req.Keys == it.findManyArgs.Keys + {"take"} + (if Truthy(lastCursor) then {"cursor", "skip"} else {})
    ensures req["take"] == it.pageSize
  {
    it.findManyArgs + CursorArgs(it, lastCursor) + map["take" := it.pageSize]
  }

  /** One `next()` step as a value: its outcome and the new `lastCursor`. */
  function Advance(it: Iterable, lastCursor: Value): (Outcome, Value) {
    match it.findMany(FindManyRequest(it, lastCursor))
    case Rejected(reason) => (Thrown(reason), lastCursor)
    case Fetched(page) =>
      if |page| == 0 then (Finished, lastCursor)
      else (Yielded(page), Get(page[|page| - 1], CursorKey(it)))
  }

  /** An iterator of the iterable, as `[Symbol.asyncIterator]()` hands it out. */
  class PageIterator {
    const iterable: Iterable
    var lastCursor: Value

    /** Every iterator starts without a cursor. */
    constructor (iterable: Iterable)
      ensures this.iterable == iterable
      ensures lastCursor == Null
    {
      this.iterable := iterable;
      lastCursor := Null;
    }

    /**
     * next(): fetch the page after `lastCursor`; an empty page ends the
     * iteration, any other page is yielded and its last record's cursor-field
     * value becomes `lastCursor`.  A rejected fetch changes nothing.
     */
    method Next() returns (r: Outcome)
      modifies this
      ensures (r, lastCursor) == Advance(iterable, old(lastCursor))
    {
      var cursorArgs: Object := map[];
      if Truthy(lastCursor) {
        cursorArgs := map["cursor" := Obj(map[PropertyKey(iterable.cursorField) := lastCursor]), "skip" := Num(1)];
      }
      var fetched := iterable.findMany(iterable.findManyArgs + cursorArgs + map["take" := iterable.pageSize]);
      match fetched {
        case Rejected(reason) =>
          r := Thrown(reason);
        case Fetched(page) =>
          if |page| == 0 {
            r := Finished;
          } else {
            lastCursor := Get(page[|page| - 1], PropertyKey(iterable.cursorField));
            r := Yielded(page);
          }
      }
    }
  }

  /**
   * Iterators share no state: two iterators of one iterable exist side by
   * side, and advancing the first one twice leaves the second one's first
   * fetch the same as the first one's was.
   */
  method IteratorsIndependent(it: Iterable) returns (first: Outcome, again: Outcome)
    ensures first == again
    ensures first == Advance(it, Null).0
  {
    var a := new PageIterator(it);
    var b := new PageIterator(it);
    first := a.Next();
    var _ := a.Next();
    again := b.Next();
  }

  // ---------------------------------------------------------------------------
  // Properties of one step
  // ---------------------------------------------------------------------------

  /**
   * The request holds the arguments minus the control keys, the cursor
   * arguments exactly when `lastCursor` is truthy, and `take`; every other
   * key keeps its value.
   */
  lemma RequestForwardsArgs(findMany: Request -> Fetch, defaultCursorField: Value, args: Object, lastCursor: Value)
    ensures var it := Paginate(findMany, defaultCursorField, args);
            var req := FindManyRequest(it, lastCursor);
            && req.Keys == (args.Keys - {"cursorField", "pageSize"}) + {"take"}
                           + (if Truthy(lastCursor) then {"cursor", "skip"} else {})
            && req["take"] == Get(args, "pageSize")
            && (Truthy(lastCursor) ==>
                  req["cursor"] == Obj(map[CursorKey(it) := lastCursor]) && req["skip"] == Num(1))
            && forall k :: k in args && k != "cursorField" && k != "pageSize" && k != "take" &&
                           (Falsy(lastCursor) || (k != "cursor" && k != "skip")) ==>
                             req[k] == args[k]
  {
    var it := Paginate(findMany, defaultCursorField, args);
    var req := FindManyRequest(it, lastCursor);
    RequestValues(it, lastCursor);
    forall k | k in args && k != "cursorField" && k != "pageSize" && k != "take" &&
               (Falsy(lastCursor) || (k != "cursor" && k != "skip"))
      ensures req[k] == args[k]
    {
      assert k in it.findManyArgs;
    }
  }

  /** Every key of the request that is not `take` or a cursor argument is forwarded unchanged. */
  lemma RequestValues(it: Iterable, lastCursor: Value)
    ensures forall k :: k in it.findManyArgs && k != "take" && (Falsy(lastCursor) || (k != "cursor" && k != "skip")) ==>
              k in FindManyRequest(it, lastCursor) && FindManyRequest(it, lastCursor)[k] == it.findManyArgs[k]
  {
    var cur := CursorArgs(it, lastCursor);
    forall k | k in it.findManyArgs && k != "take" && (Falsy(lastCursor) || (k != "cursor" && k != "skip"))
      ensures FindManyRequest(it, lastCursor)[k] == it.findManyArgs[k]
    {
      assert k !in cur;
    }
  }

  /** The first fetch of every iterator sends no `cursor` and no `skip` of its own. */
  lemma FirstRequest(it: Iterable)
    ensures FindManyRequest(it, Null) == it.findManyArgs + map["take" := it.pageSize]
  {
  }

  /**
   * A falsy cursor value (0, '', false, null, undefined) counts as no cursor:
   * the step after it is the first step again.
   */
  lemma FalsyCursorRestarts(it: Iterable, lastCursor: Value)
    requires Falsy(lastCursor)
    ensures FindManyRequest(it, lastCursor) == FindManyRequest(it, Null)
    ensures Advance(it, lastCursor).0 == Advance(it, Null).0
  {
  }

  /**
   * An empty page ends the iteration and keeps the cursor; any other page,
   * also one shorter than the page size, is yielded unchanged and moves the
   * cursor to its last record; a rejection keeps the cursor.
   */
  lemma AdvanceCases(it: Iterable, lastCursor: Value)
    ensures var (r, c) := Advance(it, lastCursor);
            match it.findMany(FindManyRequest(it, lastCursor))
            case Rejected(reason) => r == Thrown(reason) && c == lastCursor
            case Fetched(page) =>
              && (r.Resolved? && r.result.done <==> |page| == 0)
              && (|page| == 0 ==> r == Resolved(IteratorResult(true, None)) && c == lastCursor)
              && (|page| > 0 ==> r == Resolved(IteratorResult(false, Some(page))) &&
                                 c == Get(page[|page| - 1], CursorKey(it)))
  {
  }

  /**
   * With neither an override nor a default the cursor field is undefined and
   * no error is raised: the key is "undefined", records without that property
   * leave the cursor falsy, and every step fetches the first page again.
   */
  lemma UnresolvedCursorFieldRepeats(findMany: Request -> Fetch, args: Object, page: seq<Record>)
    requires Nullish(Get(args, "cursorField"))
    requires findMany(FindManyRequest(Paginate(findMany, Undefined, args), Null)) == Fetched(page)
    requires |page| > 0 && "undefined" !in page[|page| - 1]
    ensures var it := Paginate(findMany, Undefined, args);
            && Advance(it, Null) == (Yielded(page), Undefined)
            && Advance(it, Undefined) == Advance(it, Null)
  {
  }
}
