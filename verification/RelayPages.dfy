/** The reading side of the relay client (`client-side-relay/databridge-relay.py`): selecting
    records from a response, the next page, and the generator that yields record after record. */
module RelayPages {
  import opened Wrappers
  import opened JsonValues
  import opened Paths

  // ----- json_select

  predicate EndsInStar(part: string) {
    |part| >= 3 && part[|part| - 3..] == "[*]"
  }

  /** `[item.get(part) for item in items if isinstance(item, dict)]`. */
  function Pluck(items: seq<Json>, part: string): seq<Json> {
    if items == [] then []
    else (if items[0].Obj? then [Get(items[0], part, Null)] else []) + Pluck(items[1..], part)
  }

  /** One segment: a value to go on from, or one that is returned at once. */
  datatype Walked = On(value: Json) | Returned(value: Json)

  function SelectStep(current: Json, part: string): Walked {
    if EndsInStar(part) then
      var next := if current.Obj? then Get(current, part[..|part| - 3], Arr([])) else Arr([]);
      if next.Arr? then On(next) else Returned(Arr([]))
    else
      match current
      case Arr(items) =>
        if IsDigits(part) then On(if ToNat(part) < |items| then items[ToNat(part)] else Null)
        else On(Arr(Pluck(items, part)))
      case Obj(fields) => On(Get(current, part, Null))
      case _ => Returned(Null)
  }

  function SelectParts(current: Json, parts: seq<string>): Json
    decreases parts
  {
    if parts == [] then current
    else
      match SelectStep(current, parts[0])
      case On(next) => SelectParts(next, parts[1..])
      case Returned(v) => v
  }

  /** `json_select`; None for a path that is not supported, which ends the program. */
  function Select(value: Json, path: string): Option<Json> {
    if path == "" || path == "$" then Some(value)
    else if !("$." <= path) then None
    else Some(SelectParts(value, Split(path[2..], '.')))
  }

  method JsonSelect(value: Json, path: string) returns (r: Option<Json>)
    ensures r == Select(value, path)
  {
    if path == "" || path == "$" { return Some(value); }
    if !("$." <= path) { return None; }
    var parts := Split(path[2..], '.');
    var current := value;
    for i := 0 to |parts|
      invariant SelectParts(value, parts) == SelectParts(current, parts[i..])
    {
      match SelectStep(current, parts[i]) {
        case Returned(v) => return Some(v);
        case On(next) => current := next;
      }
    }
    return Some(current);
  }

  /** A path of plain keys selects what lies under those keys. */
  lemma SelectsAtKeys(value: Json, keys: seq<string>)
    requires keys != [] && forall k | k in keys :: '.' !in k && !EndsInStar(k)
    requires AtKeys(value, keys).Some?
    ensures Select(value, "$." + Join(keys, '.')) == AtKeys(value, keys)
  {
    var path := "$." + Join(keys, '.');
    assert path[..2] == "$." && path[2..] == Join(keys, '.') && path[1] == '.';
    assert path != "" && path != "$" && "$." <= path;
    SplitJoin(keys, '.');
    PartsAreKeys(value, keys);
  }

  lemma {:induction false} PartsAreKeys(value: Json, keys: seq<string>)
    requires forall k | k in keys :: !EndsInStar(k)
    requires AtKeys(value, keys).Some?
    ensures SelectParts(value, keys) == AtKeys(value, keys).value
    decreases keys
  {
    if keys != [] {
      assert keys[0] in keys;
      PartsAreKeys(Get(value, keys[0], Null), keys[1..]);
    }
  }

  /** Any other segment looks the name up in every dict of the list and passes over what is no dict. */
  lemma {:induction false} PluckJoins(a: seq<Json>, b: seq<Json>, part: string)
    ensures Pluck(a + b, part) == Pluck(a, part) + Pluck(b, part)
  {
    if a == [] {
      assert [] + b == b;
    } else {
      PluckJoins(a[1..], b, part);
      PluckHead(a[0], a[1..] + b, part);
      assert a + b == [a[0]] + (a[1..] + b);
      var first := if a[0].Obj? then [Get(a[0], part, Null)] else [];
      assert first + (Pluck(a[1..], part) + Pluck(b, part)) == first + Pluck(a[1..], part) + Pluck(b, part);
    }
  }

  lemma PluckHead(item: Json, rest: seq<Json>, part: string)
    ensures Pluck([item] + rest, part) == (if item.Obj? then [Get(item, part, Null)] else []) + Pluck(rest, part)
  {
    assert ([item] + rest)[1..] == rest;
  }

  lemma PluckOne(item: Json, part: string)
    ensures Pluck([item], part) ==
      if !item.Obj? then [] else match AtKeys(item, [part]) case Some(v) => [v] case None => [Null]
  {
    assert Pluck([], part) == [];
  }

  lemma {:induction false} PartsAppend(value: Json, keys: seq<string>, more: seq<string>)
    requires forall k | k in keys :: !EndsInStar(k)
    requires AtKeys(value, keys).Some?
    ensures SelectParts(value, keys + more) == SelectParts(AtKeys(value, keys).value, more)
    decreases keys
  {
    if keys == [] {
      assert keys + more == more;
    } else {
      assert keys[0] in keys && (keys + more)[0] == keys[0] && (keys + more)[1..] == keys[1..] + more;
      PartsAppend(Get(value, keys[0], Null), keys[1..], more);
    }
  }

  /** What a path selects whose last segment meets a list under plain keys. */
  lemma SelectsFurther(value: Json, keys: seq<string>, part: string)
    requires '.' !in part && forall k | k in keys :: '.' !in k && !EndsInStar(k)
    requires AtKeys(value, keys).Some?
    ensures Select(value, "$." + Join(keys + [part], '.')) == Some(SelectParts(AtKeys(value, keys).value, [part]))
  {
    var text := Join(keys + [part], '.');
    var path := "$." + text;
    assert path[..2] == "$." && path[2..] == text && path[1] == '.';
    assert path != "" && path != "$" && "$." <= path;
    SplitJoin(keys + [part], '.');
    PartsAppend(value, keys, [part]);
  }

  /** A number in any spelling selects the element, or null beyond the end. */
  lemma SelectsElement(value: Json, keys: seq<string>, n: nat, k: nat)
    requires forall key | key in keys :: '.' !in key && !EndsInStar(key)
    requires AtKeys(value, keys).Some? && AtKeys(value, keys).value.Arr?
    ensures var items := AtKeys(value, keys).value.items;
      Select(value, "$." + Join(keys + [Zeros(k) + Decimal(n)], '.')) == Some(if n < |items| then items[n] else Null)
  {
    var items := AtKeys(value, keys).value.items;
    var part := Zeros(k) + Decimal(n);
    NumberPart(n, k);
    SelectsFurther(value, keys, part);
    assert [part][1..] == [];
  }

  lemma NumberPart(n: nat, k: nat)
    ensures var part := Zeros(k) + Decimal(n);
      '.' !in part && !EndsInStar(part) && IsDigits(part) && ToNat(part) == n
  {
    DecimalIs(n);
    ZerosBefore(k, Decimal(n));
    var part := Zeros(k) + Decimal(n);
    assert |part| >= 3 ==> part[|part| - 3..][0] == part[|part| - 3] && part[|part| - 3] in part;
  }

  /** A name selects the column of that name, and `[*]` behind a key the list under it, or an empty
      list when there is no list. */
  lemma SelectsColumn(value: Json, keys: seq<string>, part: string)
    requires '.' !in part && forall key | key in keys :: '.' !in key && !EndsInStar(key)
    requires AtKeys(value, keys).Some?
    ensures var at := AtKeys(value, keys).value;
      && (at.Arr? && !IsDigits(part) && !EndsInStar(part) ==>
            Select(value, "$." + Join(keys + [part], '.')) == Some(Arr(Pluck(at.items, part))))
      && (Select(value, "$." + Join(keys + [part + "[*]"], '.'))
            == match AtKeys(at, [part])
               case Some(Arr(items)) => Some(Arr(items))
               case _ => Some(Arr([])))
  {
    var at := AtKeys(value, keys).value;
    var star: string := part + "[*]";
    SelectsFurther(value, keys, part);
    SelectsFurther(value, keys, star);
    assert EndsInStar(star) && star[..|star| - 3] == part;
    assert [part][1..] == [] && [star][1..] == [];
  }

  // ----- Records of a page

  function EnsureObject(v: Json): Json {
    if v.Obj? then v else Obj([Field("value", v)])
  }

  function EnsureObjects(items: seq<Json>): (r: seq<Json>)
    ensures |r| == |items|
  {
    seq(|items|, i requires 0 <= i < |items| => EnsureObject(items[i]))
  }

  /** A record that is an object passes unchanged; any other is put under the key "value". */
  lemma ObjectsAre(items: seq<Json>)
    ensures EnsureObjects(items) == items <==> forall v | v in items :: v.Obj?
    ensures forall i | 0 <= i < |items| && !items[i].Obj? ::
              EnsureObjects(items)[i].Obj? && |EnsureObjects(items)[i].fields| == 1
              && AtKeys(EnsureObjects(items)[i], ["value"]) == Some(items[i])
  {
    var all := EnsureObjects(items);
    if forall v | v in items :: v.Obj? {
      assert forall i | 0 <= i < |items| :: all[i] == items[i];
    }
    if all == items {
      forall v | v in items ensures v.Obj? {
        var i :| 0 <= i < |items| && items[i] == v;
        assert all[i].Obj?;
      }
    }
    forall i | 0 <= i < |items| && !items[i].Obj? ensures AtKeys(all[i], ["value"]) == Some(items[i]) {
      assert all[i] == Obj([Field("value", items[i])]) && AtKeys(items[i], []) == Some(items[i]);
      assert ["value"][1..] == [];
    }
  }

  /** What a page yields under the record path. */
  function Records(payload: Json, recordPath: string): Option<seq<Json>> {
    match Select(payload, recordPath)
    case Some(Arr(items)) => Some(EnsureObjects(items))
    case Some(Null) => Some([])
    case Some(v) => Some([EnsureObject(v)])
    case None => None
  }

  // ----- The next page

  /** A request parameter: a number, or any other value of the configuration. */
  datatype Param = Number(n: int) | Other(v: Json)

  type Params = map<string, Param>

  datatype Pagination =
    | NoPages
    | Cursor(nextCursorPath: string, cursorParam: string)
    | Offset(itemsPath: string, offsetParam: string, limitParam: string, limit: Option<int>)
    | PageNumber(itemsPath: string, pageParam: string)
    | NextLink(nextLinkPath: Option<string>)

  /** What the next request asks for: the parameters, or a link the source gave. */
  datatype Request = WithParams(params: Params) | Link(url: string)

  /** The decoded body of a response, and the target of its `Link` header. */
  datatype Reply = Reply(payload: Json, link: Option<string>)

  /** `reply` answers request number `k` of a run, None standing for an error status. The source
      answers `patience` requests, however large, and no further ones. */
  datatype Source = Source(reply: (nat, Request) -> Option<Reply>, patience: nat)

  datatype Pager = Pager(
    pagination: Pagination, maxPages: Option<int>, recordPath: string, source: Source, str: Json -> string)

  /** Python's `not v`. */
  predicate Falsy(v: Json) {
    match v
    case Null => true
    case Bool(b) => !b
    case Num(literal) => IsZero(literal)
    case Str(s) => s == ""
    case Arr(items) => items == []
    case Obj(fields) => fields == []
  }

  predicate IsZero(literal: string) {
    literal == [] || literal[0] == 'e' || literal[0] == 'E' || (!('1' <= literal[0] <= '9') && IsZero(literal[1..]))
  }

  /** A literal stands for zero exactly when no digit but 0 comes before the exponent. */
  lemma {:induction false} ZeroExactly(literal: string)
    ensures IsZero(literal) <==>
      forall i | 0 <= i < |literal| && '1' <= literal[i] <= '9' :: 'e' in literal[..i] || 'E' in literal[..i]
  {
    if literal != [] {
      ZeroExactly(literal[1..]);
      forall i | 0 < i < |literal| ensures literal[i] == literal[1..][i - 1] {}
      forall i | 0 < i <= |literal| ensures literal[..i] == [literal[0]] + literal[1..][..i - 1] {}
    }
  }

  lemma FalsyExactly(v: Json)
    ensures Falsy(v) <==>
      v in {Null, Bool(false), Str(""), Arr([]), Obj([])}
      || (v.Num? && forall i | 0 <= i < |v.literal| && '1' <= v.literal[i] <= '9' ::
            'e' in v.literal[..i] || 'E' in v.literal[..i])
  {
    if v.Num? { ZeroExactly(v.literal); }
  }

  /** `int(params.get(key, otherwise))`; None when it raises. */
  function Int(params: Params, key: string, otherwise: int): Option<int> {
    if key !in params then Some(otherwise)
    else match params[key] case Number(n) => Some(n) case Other(_) => None
  }

  /** `int(params.get(key) or limit or 0)`. */
  function PageSize(params: Params, key: string, limit: Option<int>): Option<int> {
    if key in params && params[key].Other? && !Falsy(params[key].v) then None
    else if key in params && params[key].Number? && params[key].n != 0 then Some(params[key].n)
    else match limit case Some(n) => Some(n) case None => Some(0)
  }

  /** Stop after the page, go on to a request, or end with an exception. */
  datatype Turn = Stop | Fails | Go(request: Request)

  /** `next_pagination_value` and `apply_next_pagination`. */
  function NextTurn(pager: Pager, reply: Reply, request: Request): Turn {
    var params := if request.WithParams? then request.params else map[];
    match pager.pagination
    case NoPages => Stop
    case Cursor(path, param) =>
      (match Select(reply.payload, path)
       case None => Fails
       case Some(Arr(_)) => Fails
       case Some(Null) => Stop
       case Some(v) => Go(WithParams(params[param := Other(v)])))
    case Offset(itemsPath, offsetParam, limitParam, limit) =>
      (match Select(reply.payload, itemsPath)
       case None => Fails
       case Some(items) =>
         if Falsy(items) then Stop
         else
           match (PageSize(params, limitParam, limit), Int(params, offsetParam, 0))
           case (Some(size), Some(offset)) =>
             if size == 0 then Fails else Go(WithParams(params[offsetParam := Number(offset + size)]))
           case _ => Fails)
    case PageNumber(itemsPath, pageParam) =>
      (match Select(reply.payload, itemsPath)
       case None => Fails
       case Some(items) =>
         if Falsy(items) then Stop
         else
           match Int(params, pageParam, 1)
           case Some(page) => Go(WithParams(params[pageParam := Number(page + 1)]))
           case None => Fails)
    case NextLink(Some(path)) =>
      (match Select(reply.payload, path)
       case None => Fails
       case Some(v) => if Falsy(v) then Stop else Go(Link(pager.str(v))))
    case NextLink(None) =>
      if reply.link.None? || reply.link.value == "" then Stop else Go(Link(reply.link.value))
  }

  /** After `done` requests: the page limit comes first. */
  function TurnAfter(pager: Pager, reply: Reply, request: Request, done: nat): Turn {
    if pager.maxPages.Some? && done >= pager.maxPages.value then Stop else NextTurn(pager, reply, request)
  }

  // ----- The generator

  /** All that a generator yields when it is drained, whether it then raises, and how many requests
      it has made by then. */
  datatype Feed = Feed(records: seq<Json>, raises: bool, requests: nat)

  /** From the request that follows `done` requests. */
  function Rest(pager: Pager, request: Request, done: nat): Feed
    decreases if done < pager.source.patience then pager.source.patience - done else 0, 0
  {
    if done >= pager.source.patience then Feed([], true, done + 1)
    else
      match pager.source.reply(done, request)
      case None => Feed([], true, done + 1)
      case Some(reply) =>
        match Records(reply.payload, pager.recordPath)
        case None => Feed([], true, done + 1)
        case Some(got) => Before(got, RestAfter(pager, reply, request, done + 1))
  }

  /** From the end of a page. */
  function RestAfter(pager: Pager, reply: Reply, request: Request, done: nat): Feed
    decreases if done < pager.source.patience then pager.source.patience - done else 0, 1
  {
    match TurnAfter(pager, reply, request, done)
    case Stop => Feed([], false, done)
    case Fails => Feed([], true, done)
    case Go(next) => Rest(pager, next, done)
  }

  function Before(got: seq<Json>, feed: Feed): Feed {
    feed.(records := got + feed.records)
  }

  /** The requests made once `j` records were taken: no page is fetched before a record of it is
      wanted. */
  function RequestsFor(pager: Pager, request: Request, done: nat, j: nat): nat
    decreases if done < pager.source.patience then pager.source.patience - done else 0, 0
  {
    if j == 0 then done
    else if done >= pager.source.patience then done + 1
    else
      match pager.source.reply(done, request)
      case None => done + 1
      case Some(reply) =>
        match Records(reply.payload, pager.recordPath)
        case None => done + 1
        case Some(got) => RequestsBeyond(pager, got, reply, request, done + 1, j)
  }

  /** With the records `pending` of the page at hand. */
  function RequestsBeyond(pager: Pager, pending: seq<Json>, reply: Reply, request: Request, done: nat, j: nat): nat
    decreases if done < pager.source.patience then pager.source.patience - done else 0, 1
  {
    if j <= |pending| then done
    else
      match TurnAfter(pager, reply, request, done)
      case Go(next) => RequestsFor(pager, next, done, j - |pending|)
      case _ => done
  }

  /** Whoever asks for more records than there are makes all requests, and no more. */
  lemma {:induction false} RequestsToTheEnd(pager: Pager, request: Request, done: nat, j: nat)
    requires j > |Rest(pager, request, done).records|
    ensures RequestsFor(pager, request, done, j) == Rest(pager, request, done).requests
    decreases if done < pager.source.patience then pager.source.patience - done else 0
  {
    hide Records, NextTurn;
    if done < pager.source.patience {
      var reply := pager.source.reply(done, request);
      if reply.Some? && Records(reply.value.payload, pager.recordPath).Some? {
        var got := Records(reply.value.payload, pager.recordPath).value;
        var turn := TurnAfter(pager, reply.value, request, done + 1);
        if turn.Go? && j > |got| {
          RequestsToTheEnd(pager, turn.request, done + 1, j - |got|);
        }
      }
    }
  }

  datatype Delivery = Yields(record: Json) | Ends | Raises

  /** `iter_openapi_records`, a page at a time and only on demand. */
  class RecordIterator {
    const pager: Pager
    const start: Request
    var request: Request
    var pageCount: nat
    var page: Option<Reply>
    var pending: seq<Json>
    /** The number of records delivered. */
    ghost var delivered: nat

    constructor (pager: Pager, params: Params)
      ensures this.pager == pager && start == WithParams(params)
      ensures Remaining() == Rest(pager, start, 0) && Counted() && delivered == 0
    {
      this.pager, start, delivered := pager, WithParams(params), 0;
      request, pageCount, page, pending := WithParams(params), 0, None, [];
    }

    /** What is still to come. */
    ghost function Remaining(): Feed
      reads this
    {
      if page.None? then Rest(pager, request, pageCount)
      else Before(pending, RestAfter(pager, page.value, request, pageCount))
    }

    /** The requests made once `j` more records were taken. */
    ghost function RequestsAt(j: nat): nat
      reads this
    {
      if page.None? then RequestsFor(pager, request, pageCount, j)
      else RequestsBeyond(pager, pending, page.value, request, pageCount, j)
    }

    /** How many requests it will take follows from the number of records wanted. */
    ghost predicate Counted()
      reads this
    {
      forall j: nat | j > 0 :: RequestsAt(j) == RequestsFor(pager, start, 0, delivered + j)
    }

    /** Leaves a page whose records were all taken. */
    method TurnPage() returns (ending: Option<Delivery>)
      requires Counted() && page.Some? && pending == []
      modifies this`request, this`page
      ensures ending.Some? ==>
                old(Remaining()) == Feed([], ending.value == Raises, pageCount) && !ending.value.Yields?
      ensures ending.None? ==> page.None? && Remaining() == old(Remaining()) && Counted()
    {
      BeforeNothing(RestAfter(pager, page.value, request, pageCount));
      match TurnAfter(pager, page.value, request, pageCount) {
        case Stop => return Some(Ends);
        case Fails => return Some(Raises);
        case Go(next) =>
          forall j: nat | j > 0
            ensures RequestsFor(pager, next, pageCount, j) == RequestsFor(pager, start, 0, delivered + j)
          {
            assert RequestsAt(j) == RequestsFor(pager, next, pageCount, j);
          }
          request, page := next, None;
          return None;
      }
    }

    /** Requests the next page. */
    method GetPage() returns (ok: bool)
      requires Counted() && page.None?
      modifies this`pageCount, this`page, this`pending
      ensures pageCount == old(pageCount) + 1
      ensures !ok ==> old(Remaining()) == Feed([], true, pageCount)
      ensures ok ==> old(pageCount) < pager.source.patience
      ensures ok ==> page.Some? && Remaining() == old(Remaining()) && Counted()
    {
      var reply := if pageCount >= pager.source.patience then None else pager.source.reply(pageCount, request);
      ok := reply.Some? && Records(reply.value.payload, pager.recordPath).Some?;
      if ok {
        var got := Records(reply.value.payload, pager.recordPath).value;
        var count := pageCount + 1;
        forall j: nat | j > 0
          ensures RequestsBeyond(pager, got, reply.value, request, count, j)
               == RequestsFor(pager, start, 0, delivered + j)
        {
          assert RequestsAt(j) == RequestsFor(pager, start, 0, delivered + j);
        }
        page, pending := reply, got;
      }
      pageCount := pageCount + 1;
    }

    /** Requests pages until one holds records. */
    method FetchPage() returns (ending: Option<Delivery>)
      requires Counted()
      modifies this
      ensures delivered == old(delivered)
      ensures ending.Some? ==>
                old(Remaining()).records == [] && pageCount == old(Remaining()).requests
                && ending.value == if old(Remaining()).raises then Raises else Ends
      ensures ending.None? ==> page.Some? && pending != [] && Remaining() == old(Remaining()) && Counted()
    {
      hide Rest, RestAfter, Before, RequestsFor, RequestsBeyond;
      while pending == [] || page.None?
        invariant Remaining() == old(Remaining()) && delivered == old(delivered) && Counted()
        decreases if pageCount < pager.source.patience then pager.source.patience - pageCount else 0
      {
        if page.Some? {
          ending := TurnPage();
          if ending.Some? { return; }
        }
        var ok := GetPage();
        if !ok { return Some(Raises); }
      }
      return None;
    }

    method Next() returns (r: Delivery)
      requires Counted()
      modifies this
      ensures var before := old(Remaining());
        if before.records == [] then
          r == (if before.raises then Raises else Ends) && pageCount == before.requests
        else
          r == Yields(before.records[0]) && Remaining() == before.(records := before.records[1..])
      ensures r.Yields? ==>
                Counted() && delivered == old(delivered) + 1 && pageCount == RequestsFor(pager, start, 0, delivered)
      ensures old(page.Some? && pending != []) ==> pageCount == old(pageCount)
    {
      var ending := None;
      if pending == [] || page.None? {
        ending := FetchPage();
        if ending.Some? { return ending.value; }
      }
      r := Yields(pending[0]);
      BeforeOne(pending, RestAfter(pager, page.value, request, pageCount));
      TakeOne(pager, pending, page.value, request, pageCount);
      assert RequestsAt(1) == pageCount && RequestsAt(1) == RequestsFor(pager, start, 0, delivered + 1);
      forall j: nat | j > 0
        ensures RequestsBeyond(pager, pending[1..], page.value, request, pageCount, j)
             == RequestsFor(pager, start, 0, delivered + 1 + j)
      {
        assert RequestsAt(j + 1) == RequestsFor(pager, start, 0, delivered + (j + 1));
      }
      pending, delivered := pending[1..], delivered + 1;
    }
  }

  lemma TakeOne(pager: Pager, pending: seq<Json>, reply: Reply, request: Request, done: nat)
    requires pending != []
    ensures forall j: nat ::
              RequestsBeyond(pager, pending[1..], reply, request, done, j)
              == RequestsBeyond(pager, pending, reply, request, done, j + 1)
  {
  }

  lemma BeforeNothing(feed: Feed)
    ensures Before([], feed) == feed
  {
    assert [] + feed.records == feed.records;
  }

  lemma BeforeOne(got: seq<Json>, feed: Feed)
    requires got != []
    ensures var all := Before(got, feed).records;
      all != [] && all[0] == got[0] && all[1..] == Before(got[1..], feed).records
  {
    assert (got + feed.records)[1..] == got[1..] + feed.records;
  }

  // ----- Sources that serve slices of one list

  function Least(a: nat, b: nat): nat {
    if a <= b then a else b
  }

  function Slice(items: seq<Json>, offset: nat, size: nat): seq<Json> {
    items[Least(offset, |items|)..Least(offset + size, |items|)]
  }

  /** `x` divided by `size`, rounded up. */
  function Pages(x: nat, size: nat): (n: nat)
    requires size > 0
    ensures x <= n * size < x + size
  {
    if x == 0 then 0
    else if x <= size then 1
    else
      var n := Pages(x - size, size);
      assert (n + 1) * size == n * size + size;
      n + 1
  }

  /** No page follows the one at `offset`: a source that says so tells it with the last page that
      holds records, and from any other it shows with a page that holds none. */
  predicate AtEnd(n: nat, offset: nat, size: nat, told: bool) {
    if told then offset + size >= n else offset >= n
  }

  /** The reply holds the page at `offset`, and leads on to a request for the next one. */
  predicate LeadsOn(pager: Pager, items: seq<Json>, size: nat, told: bool, asks: (Request, nat) -> bool,
                    request: Request, offset: nat, reply: Reply) {
    && Records(reply.payload, pager.recordPath) == Some(EnsureObjects(Slice(items, offset, size)))
    && match NextTurn(pager, reply, request)
       case Stop => AtEnd(|items|, offset, size, told)
       case Fails => false
       case Go(next) => !AtEnd(|items|, offset, size, told) && asks(next, offset + size)
  }

  /** Every request that asks for a page of the list gets it; `asks(r, o)` says that `r` asks for the
      page of `size` records from `o` on. */
  ghost predicate Serves(pager: Pager, items: seq<Json>, size: nat, told: bool, asks: (Request, nat) -> bool) {
    forall k: nat, request: Request, offset: nat | asks(request, offset) ::
      && pager.source.reply(k, request).Some?
      && LeadsOn(pager, items, size, told, asks, request, offset, pager.source.reply(k, request).value)
  }

  /** The requests that are made after `done` of them: one for every page that holds records, and
      one for an empty page unless the end is told, until the page limit. */
  function RequestsLeft(pager: Pager, n: nat, offset: nat, size: nat, told: bool, done: nat): (m: nat)
    requires size > 0
    ensures m > 0
  {
    var full := if offset < n then Pages(n - offset, size) else 0;
    var all := if told && full > 0 then full else full + 1;
    if pager.maxPages.None? then all
    else Least(all, if pager.maxPages.value - done > 1 then pager.maxPages.value - done else 1)
  }

  lemma JoinsSlices(items: seq<Json>, offset: nat, size: nat, more: nat)
    ensures EnsureObjects(Slice(items, offset, size)) + EnsureObjects(Slice(items, offset + size, more))
         == EnsureObjects(Slice(items, offset, size + more))
  {
    assert Slice(items, offset, size) + Slice(items, offset + size, more) == Slice(items, offset, size + more);
  }

  lemma OneMore(n: nat, size: nat)
    ensures (n + 1) * size == n * size + size
  {
  }

  /** A page before what the rest of `m` requests brings. */
  lemma PageBeforeRest(items: seq<Json>, offset: nat, size: nat, m: nat, done: nat)
    ensures Before(EnsureObjects(Slice(items, offset, size)),
                   Feed(EnsureObjects(Slice(items, offset + size, m * size)), false, done + 1 + m))
         == Feed(EnsureObjects(Slice(items, offset, (m + 1) * size)), false, done + (m + 1))
  {
    hide EnsureObjects, Slice;
    OneMore(m, size);
    JoinsSlices(items, offset, size, m * size);
  }

  lemma LastPage(items: seq<Json>, offset: nat, size: nat, done: nat)
    ensures Before(EnsureObjects(Slice(items, offset, size)), Feed([], false, done + 1))
         == Feed(EnsureObjects(Slice(items, offset, 1 * size)), false, done + 1)
  {
    var page := EnsureObjects(Slice(items, offset, size));
    assert page + [] == page;
  }

  /** Paging ends, and yields the list from the first offset on, once and in order, up to the end or
      to the page limit. */
  lemma {:induction false} YieldsInOrder(pager: Pager, items: seq<Json>, size: nat, told: bool,
                                         asks: (Request, nat) -> bool, request: Request, offset: nat, done: nat)
    requires Serves(pager, items, size, told, asks) && asks(request, offset) && size > 0
    requires done + RequestsLeft(pager, |items|, offset, size, told, done) <= pager.source.patience
    ensures var m := RequestsLeft(pager, |items|, offset, size, told, done);
      Rest(pager, request, done) == Feed(EnsureObjects(Slice(items, offset, m * size)), false, done + m)
    decreases |items| - offset
  {
    hide Rest, Serves, EnsureObjects, Slice, Before, RequestsLeft, NextTurn;
    PageOf(pager, items, size, told, asks, request, offset, done);
    if AtEnd(|items|, offset, size, told) || (pager.maxPages.Some? && done + 1 >= pager.maxPages.value) {
      LastOne(pager, |items|, offset, size, told, done);
      LastPage(items, offset, size, done);
    } else {
      OneFewer(pager, |items|, offset, size, told, done);
      var next := NextTurn(pager, pager.source.reply(done, request).value, request).request;
      YieldsInOrder(pager, items, size, told, asks, next, offset + size, done + 1);
      PageBeforeRest(items, offset, size, RequestsLeft(pager, |items|, offset + size, size, told, done + 1), done);
    }
  }

  lemma LastOne(pager: Pager, n: nat, offset: nat, size: nat, told: bool, done: nat)
    requires size > 0
    requires AtEnd(n, offset, size, told) || (pager.maxPages.Some? && done + 1 >= pager.maxPages.value)
    ensures RequestsLeft(pager, n, offset, size, told, done) == 1
  {
  }

  lemma OneFewer(pager: Pager, n: nat, offset: nat, size: nat, told: bool, done: nat)
    requires size > 0 && !AtEnd(n, offset, size, told)
    requires pager.maxPages.Some? ==> done + 1 < pager.maxPages.value
    ensures offset < n
    ensures RequestsLeft(pager, n, offset, size, told, done)
         == RequestsLeft(pager, n, offset + size, size, told, done + 1) + 1
  {
  }

  /** What one request brings, and where it turns next. */
  lemma PageOf(pager: Pager, items: seq<Json>, size: nat, told: bool, asks: (Request, nat) -> bool,
               request: Request, offset: nat, done: nat)
    requires Serves(pager, items, size, told, asks) && asks(request, offset)
    requires done < pager.source.patience
    ensures pager.source.reply(done, request).Some?
    ensures var page := EnsureObjects(Slice(items, offset, size));
      if AtEnd(|items|, offset, size, told) || (pager.maxPages.Some? && done + 1 >= pager.maxPages.value)
      then Rest(pager, request, done) == Before(page, Feed([], false, done + 1))
      else
        var turn := NextTurn(pager, pager.source.reply(done, request).value, request);
        && turn.Go? && asks(turn.request, offset + size)
        && Rest(pager, request, done) == Before(page, Rest(pager, turn.request, done + 1))
  {
    hide Records, NextTurn, EnsureObjects;
    var reply := pager.source.reply(done, request).value;
    assert LeadsOn(pager, items, size, told, asks, request, offset, reply);
  }

  /** A run that takes `j` records requests no more pages than hold them. */
  lemma {:induction false} RequestsForPages(pager: Pager, items: seq<Json>, size: nat, told: bool,
                                            asks: (Request, nat) -> bool, request: Request, offset: nat, done: nat, j: nat)
    requires Serves(pager, items, size, told, asks) && asks(request, offset) && size > 0
    requires 0 < j <= |items| - offset && done + Pages(j, size) <= pager.source.patience
    requires pager.maxPages.Some? ==> done + Pages(j, size) <= pager.maxPages.value
    ensures RequestsFor(pager, request, done, j) == done + Pages(j, size)
    decreases j
  {
    hide Serves, EnsureObjects, NextTurn, Records;
    FirstPage(pager, items, size, told, asks, request, offset, done);
    if j > size {
      var next := NextTurn(pager, pager.source.reply(done, request).value, request).request;
      RequestsForPages(pager, items, size, told, asks, next, offset + size, done + 1, j - size);
    }
  }

  lemma FirstPage(pager: Pager, items: seq<Json>, size: nat, told: bool, asks: (Request, nat) -> bool,
                  request: Request, offset: nat, done: nat)
    requires Serves(pager, items, size, told, asks) && asks(request, offset)
    ensures pager.source.reply(done, request).Some?
    ensures LeadsOn(pager, items, size, told, asks, request, offset, pager.source.reply(done, request).value)
    ensures |EnsureObjects(Slice(items, offset, size))| == Least(offset + size, |items|) - Least(offset, |items|)
  {
    hide LeadsOn;
  }

  // ----- Each kind of pagination

  /** Offset pagination: the request has the page size and the offset among its parameters. */
  predicate AsksByOffset(pager: Pager, size: nat, request: Request, offset: nat) {
    && pager.pagination.Offset? && request.WithParams?
    && pager.pagination.limitParam in request.params && request.params[pager.pagination.limitParam] == Number(size)
    && Int(request.params, pager.pagination.offsetParam, 0) == Some(offset)
  }

  /** Page numbers, counted from 1. */
  predicate AsksByNumber(pager: Pager, size: nat, request: Request, offset: nat) {
    && pager.pagination.PageNumber? && request.WithParams?
    && var page := Int(request.params, pager.pagination.pageParam, 1);
    && page.Some? && page.value >= 1 && (page.value - 1) * size == offset
  }

  /** The cursor that the source gave for an offset, or none yet. */
  predicate AsksByCursor(pager: Pager, token: nat -> Json, request: Request, offset: nat) {
    && pager.pagination.Cursor? && request.WithParams?
    && if pager.pagination.cursorParam in request.params
       then request.params[pager.pagination.cursorParam] == Other(token(offset)) else offset == 0
  }

  /** The link that the source gave for an offset, or the first request. */
  predicate AsksByLink(url: nat -> string, request: Request, offset: nat) {
    if request.Link? then request.url == url(offset) else offset == 0
  }

  function ByOffset(pager: Pager, size: nat): (Request, nat) -> bool {
    (r: Request, o: nat) => AsksByOffset(pager, size, r, o)
  }

  function ByNumber(pager: Pager, size: nat): (Request, nat) -> bool {
    (r: Request, o: nat) => AsksByNumber(pager, size, r, o)
  }

  function ByCursor(pager: Pager, token: nat -> Json): (Request, nat) -> bool {
    (r: Request, o: nat) => AsksByCursor(pager, token, r, o)
  }

  function ByLink(url: nat -> string): (Request, nat) -> bool {
    (r: Request, o: nat) => AsksByLink(url, r, o)
  }

  /** Both paths select the page. */
  predicate Shows(pager: Pager, itemsPath: string, page: seq<Json>, reply: Reply) {
    Select(reply.payload, itemsPath) == Some(Arr(page)) && Select(reply.payload, pager.recordPath) == Some(Arr(page))
  }

  lemma OffsetServes(pager: Pager, items: seq<Json>, size: nat)
    requires pager.pagination.Offset? && pager.pagination.offsetParam != pager.pagination.limitParam && size > 0
    requires forall k: nat, r: Request, o: nat | AsksByOffset(pager, size, r, o) ::
      pager.source.reply(k, r).Some?
      && Shows(pager, pager.pagination.itemsPath, Slice(items, o, size), pager.source.reply(k, r).value)
    ensures Serves(pager, items, size, false, ByOffset(pager, size))
  {
    forall k: nat, r: Request, o: nat | AsksByOffset(pager, size, r, o)
      ensures LeadsOn(pager, items, size, false, ByOffset(pager, size), r, o, pager.source.reply(k, r).value)
    {
      OffsetTurn(pager, r.params, o, size, pager.source.reply(k, r).value, Slice(items, o, size));
    }
  }

  lemma OffsetTurn(pager: Pager, params: Params, offset: nat, size: nat, reply: Reply, page: seq<Json>)
    requires pager.pagination.Offset? && pager.pagination.offsetParam != pager.pagination.limitParam && size > 0
    requires AsksByOffset(pager, size, WithParams(params), offset)
    requires Shows(pager, pager.pagination.itemsPath, page, reply)
    ensures Records(reply.payload, pager.recordPath) == Some(EnsureObjects(page))
    ensures var next := WithParams(params[pager.pagination.offsetParam := Number(offset + size)]);
      && AsksByOffset(pager, size, next, offset + size)
      && NextTurn(pager, reply, WithParams(params)) == if page == [] then Stop else Go(next)
  {
    assert PageSize(params, pager.pagination.limitParam, pager.pagination.limit) == Some(size);
  }

  /** Without a usable limit parameter the page size is the one of the configuration; a request that
      has neither fails behind the first page. */
  lemma OffsetFallsBack(pager: Pager, params: Params, offset: int, reply: Reply, page: seq<Json>)
    requires pager.pagination.Offset? && Int(params, pager.pagination.offsetParam, 0) == Some(offset)
    requires Select(reply.payload, pager.pagination.itemsPath) == Some(Arr(page)) && page != []
    requires var key := pager.pagination.limitParam;
      key !in params || params[key] == Number(0) || params[key] == Other(Null) || params[key] == Other(Str(""))
    ensures var limit := pager.pagination.limit;
      NextTurn(pager, reply, WithParams(params)) ==
        if limit.None? || limit.value == 0 then Fails
        else Go(WithParams(params[pager.pagination.offsetParam := Number(offset + limit.value)]))
  {
  }

  lemma NumberServes(pager: Pager, items: seq<Json>, size: nat)
    requires pager.pagination.PageNumber? && size > 0
    requires forall k: nat, r: Request, o: nat | AsksByNumber(pager, size, r, o) ::
      pager.source.reply(k, r).Some?
      && Shows(pager, pager.pagination.itemsPath, Slice(items, o, size), pager.source.reply(k, r).value)
    ensures Serves(pager, items, size, false, ByNumber(pager, size))
  {
    forall k: nat, r: Request, o: nat | AsksByNumber(pager, size, r, o)
      ensures LeadsOn(pager, items, size, false, ByNumber(pager, size), r, o, pager.source.reply(k, r).value)
    {
      NumberTurn(pager, r.params, o, size, pager.source.reply(k, r).value, Slice(items, o, size));
    }
  }

  lemma NumberTurn(pager: Pager, params: Params, offset: nat, size: nat, reply: Reply, page: seq<Json>)
    requires AsksByNumber(pager, size, WithParams(params), offset)
    requires Shows(pager, pager.pagination.itemsPath, page, reply)
    ensures Records(reply.payload, pager.recordPath) == Some(EnsureObjects(page))
    ensures var number := Int(params, pager.pagination.pageParam, 1).value;
      var next := WithParams(params[pager.pagination.pageParam := Number(number + 1)]);
      && AsksByNumber(pager, size, next, offset + size)
      && NextTurn(pager, reply, WithParams(params)) == if page == [] then Stop else Go(next)
  {
    var number := Int(params, pager.pagination.pageParam, 1).value;
    assert number * size == (number - 1) * size + size;
  }

  /** A cursor comes with every page but the last. */
  lemma CursorServes(pager: Pager, items: seq<Json>, size: nat, token: nat -> Json)
    requires pager.pagination.Cursor? && size > 0
    requires forall o: nat :: !token(o).Null? && !token(o).Arr?
    requires forall k: nat, r: Request, o: nat | AsksByCursor(pager, token, r, o) ::
      && pager.source.reply(k, r).Some?
      && var payload := pager.source.reply(k, r).value.payload;
      && Select(payload, pager.recordPath) == Some(Arr(Slice(items, o, size)))
      && Select(payload, pager.pagination.nextCursorPath) == Some(if o + size < |items| then token(o + size) else Null)
    ensures Serves(pager, items, size, true, ByCursor(pager, token))
  {
  }

  /** A link, in the body or in a header, comes with every page but the last. */
  lemma LinkServes(pager: Pager, items: seq<Json>, size: nat, url: nat -> string)
    requires pager.pagination.NextLink? && size > 0
    requires forall o: nat :: url(o) != ""
    requires forall k: nat, r: Request, o: nat | AsksByLink(url, r, o) ::
      && pager.source.reply(k, r).Some?
      && Select(pager.source.reply(k, r).value.payload, pager.recordPath) == Some(Arr(Slice(items, o, size)))
      && LinkIs(pager, pager.source.reply(k, r).value, if o + size < |items| then Some(url(o + size)) else None)
    ensures Serves(pager, items, size, true, ByLink(url))
  {
  }

  predicate LinkIs(pager: Pager, reply: Reply, url: Option<string>)
    requires pager.pagination.NextLink?
  {
    match pager.pagination.nextLinkPath
    case None => reply.link == url
    case Some(path) =>
      match Select(reply.payload, path)
      case None => false
      case Some(v) => if url.Some? then !Falsy(v) && pager.str(v) == url.value else Falsy(v)
  }

  /** Without a page limit offset pagination yields the whole list, after one request for every page
      that holds records and one more. */
  lemma OffsetYieldsAll(pager: Pager, items: seq<Json>, size: nat, params: Params)
    requires pager.maxPages == None && size > 0 && Pages(|items|, size) + 1 <= pager.source.patience
    requires Serves(pager, items, size, false, ByOffset(pager, size))
    requires AsksByOffset(pager, size, WithParams(params), 0)
    ensures Rest(pager, WithParams(params), 0) == Feed(EnsureObjects(items), false, Pages(|items|, size) + 1)
    ensures (forall v | v in items :: v.Obj?) ==> Rest(pager, WithParams(params), 0).records == items
  {
    hide Rest, Serves;
    var pages := Pages(|items|, size);
    assert RequestsLeft(pager, |items|, 0, size, false, 0) == pages + 1;
    YieldsInOrder(pager, items, size, false, ByOffset(pager, size), WithParams(params), 0, 0);
    OneMore(pages, size);
    ObjectsAre(items);
    WholeSlice(items, (pages + 1) * size);
  }

  /** The same for page numbers, from the first page on. */
  lemma NumberYieldsAll(pager: Pager, items: seq<Json>, size: nat, params: Params)
    requires pager.pagination.PageNumber? && pager.maxPages == None && size > 0
    requires Pages(|items|, size) + 1 <= pager.source.patience
    requires Serves(pager, items, size, false, ByNumber(pager, size))
    requires pager.pagination.pageParam !in params || params[pager.pagination.pageParam] == Number(1)
    ensures Rest(pager, WithParams(params), 0) == Feed(EnsureObjects(items), false, Pages(|items|, size) + 1)
  {
    hide Rest, Serves;
    var pages := Pages(|items|, size);
    assert RequestsLeft(pager, |items|, 0, size, false, 0) == pages + 1;
    YieldsInOrder(pager, items, size, false, ByNumber(pager, size), WithParams(params), 0, 0);
    OneMore(pages, size);
    WholeSlice(items, (pages + 1) * size);
  }

  /** Where the end is told, with a cursor or a link, there is one request for every page that holds
      records, and one for an empty list. */
  lemma ToldYieldsAll(pager: Pager, items: seq<Json>, size: nat, asks: (Request, nat) -> bool, request: Request)
    requires pager.maxPages == None && size > 0
    requires Serves(pager, items, size, true, asks) && asks(request, 0)
    requires Pages(|items|, size) + 1 <= pager.source.patience
    ensures var pages := if items == [] then 1 else Pages(|items|, size);
      Rest(pager, request, 0) == Feed(EnsureObjects(items), false, pages)
  {
    hide Rest, Serves;
    var pages := if items == [] then 1 else Pages(|items|, size);
    assert RequestsLeft(pager, |items|, 0, size, true, 0) == pages;
    YieldsInOrder(pager, items, size, true, asks, request, 0, 0);
    WholeSlice(items, pages * size);
  }

  lemma CursorYieldsAll(pager: Pager, items: seq<Json>, size: nat, token: nat -> Json, params: Params)
    requires pager.pagination.Cursor? && pager.maxPages == None && size > 0
    requires Pages(|items|, size) + 1 <= pager.source.patience
    requires Serves(pager, items, size, true, ByCursor(pager, token)) && pager.pagination.cursorParam !in params
    ensures var pages := if items == [] then 1 else Pages(|items|, size);
      Rest(pager, WithParams(params), 0) == Feed(EnsureObjects(items), false, pages)
  {
    hide Rest, Serves;
    ToldYieldsAll(pager, items, size, ByCursor(pager, token), WithParams(params));
  }

  lemma LinkYieldsAll(pager: Pager, items: seq<Json>, size: nat, url: nat -> string, params: Params)
    requires pager.maxPages == None && size > 0 && Pages(|items|, size) + 1 <= pager.source.patience
    requires Serves(pager, items, size, true, ByLink(url))
    ensures var pages := if items == [] then 1 else Pages(|items|, size);
      Rest(pager, WithParams(params), 0) == Feed(EnsureObjects(items), false, pages)
  {
    hide Rest, Serves;
    ToldYieldsAll(pager, items, size, ByLink(url), WithParams(params));
  }

  lemma WholeSlice(items: seq<Json>, total: nat)
    requires |items| <= total
    ensures Slice(items, 0, total) == items
  {
  }

  /** A source that puts each slice under the key "items" serves offset pagination. */
  lemma SliceSourceServes(items: seq<Json>, size: nat, maxPages: Option<int>, patience: nat, str: Json -> string)
    requires size > 0
    ensures var source := Source((k, request) => SliceReply(items, request), patience);
      var pager := Pager(Offset("$.items", "offset", "limit", None), maxPages, "$.items", source, str);
      Serves(pager, items, size, false, ByOffset(pager, size))
  {
    hide Select, Serves;
    var source := Source((k, request) => SliceReply(items, request), patience);
    var pager := Pager(Offset("$.items", "offset", "limit", None), maxPages, "$.items", source, str);
    forall k: nat, r: Request, o: nat | AsksByOffset(pager, size, r, o)
      ensures source.reply(k, r) == Some(SlicePage(items, o, size))
      ensures Shows(pager, "$.items", Slice(items, o, size), SlicePage(items, o, size))
    {
      SlicePageSelects(items, o, size);
    }
    OffsetServes(pager, items, size);
  }

  lemma SlicePageSelects(items: seq<Json>, offset: nat, size: nat)
    ensures Select(SlicePage(items, offset, size).payload, "$.items") == Some(Arr(Slice(items, offset, size)))
  {
    hide Select;
    SelectsAtKeys(SlicePage(items, offset, size).payload, ["items"]);
    assert "$." + Join(["items"], '.') == "$.items";
  }

  function SlicePage(items: seq<Json>, offset: nat, size: nat): Reply {
    Reply(Obj([Field("items", Arr(Slice(items, offset, size)))]), None)
  }

  function SliceReply(items: seq<Json>, request: Request): Option<Reply> {
    if request.Link? then None
    else
      match (Int(request.params, "offset", 0), Int(request.params, "limit", 0))
      case (Some(offset), Some(size)) =>
        if offset >= 0 && size >= 0 then Some(SlicePage(items, offset, size)) else None
      case _ => None
  }
}
