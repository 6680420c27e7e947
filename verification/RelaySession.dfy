/** The sending side of the relay client (`run_openapi` in `client-side-relay/databridge-relay.py`):
    chunks of records, and the session that they are sent in. */
module RelaySession {
  import opened Wrappers
  import opened JsonValues
  import opened RelayPages

  datatype Call = Create | Upload(index: nat, records: seq<Json>) | Complete(count: nat) | Abort

  /** A request to the bridge, and whether it succeeded. */
  datatype Sent = Sent(call: Call, ok: bool)

  /** The bridge answers its `k`-th request as `accepts(k)` says. */
  class Bridge {
    const accepts: nat -> bool
    var log: seq<Sent>

    constructor (accepts: nat -> bool)
      ensures this.accepts == accepts && log == []
    {
      this.accepts := accepts;
      log := [];
    }

    method Send(call: Call) returns (ok: bool)
      modifies this
      ensures log == old(log) + [Sent(call, ok)] && ok == accepts(|old(log)|)
    {
      ok := accepts(|log|);
      log := log + [Sent(call, ok)];
    }
  }

  // ----- Chunks

  /** The chunks that are full, and the one that is being filled. */
  datatype Chunking = Chunking(full: seq<seq<Json>>, open: seq<Json>)

  function Chunked(records: seq<Json>, size: int): Chunking {
    if records == [] then Chunking([], [])
    else
      var before := Chunked(records[..|records| - 1], size);
      var open := before.open + [records[|records| - 1]];
      if |open| >= size then Chunking(before.full + [open], []) else Chunking(before.full, open)
  }

  /** The chunks of a list that is read to its end. */
  function Chunks(records: seq<Json>, size: int): seq<seq<Json>> {
    var c := Chunked(records, size);
    if c.open == [] then c.full else c.full + [c.open]
  }

  function Concat(chunks: seq<seq<Json>>): seq<Json> {
    if chunks == [] then [] else Concat(chunks[..|chunks| - 1]) + chunks[|chunks| - 1]
  }

  function ChunkSize(size: int): nat {
    if size < 1 then 1 else size
  }

  lemma {:induction false} ChunkedIs(records: seq<Json>, size: int)
    ensures var c := Chunked(records, size);
      && Concat(c.full) + c.open == records && |c.open| < ChunkSize(size)
      && forall chunk | chunk in c.full :: |chunk| == ChunkSize(size)
  {
    if records != [] {
      var n := |records| - 1;
      ChunkedIs(records[..n], size);
      var (before, c) := (Chunked(records[..n], size), Chunked(records, size));
      assert records == records[..n] + [records[n]];
      if c.full != before.full {
        assert c.full[..|c.full| - 1] == before.full;
      }
    }
  }

  /** The chunks join up to the records; none is empty, and all but the last have the full size. */
  predicate CutInto(records: seq<Json>, chunks: seq<seq<Json>>, size: int) {
    && Concat(chunks) == records
    && (forall i | 0 <= i < |chunks| :: 0 < |chunks[i]| <= ChunkSize(size))
    && (forall i | 0 <= i < |chunks| - 1 :: |chunks[i]| == ChunkSize(size))
  }

  lemma ChunksAre(records: seq<Json>, size: int)
    ensures CutInto(records, Chunks(records, size), size)
  {
    ChunkedIs(records, size);
    var c := Chunked(records, size);
    var chunks := Chunks(records, size);
    if c.open != [] {
      assert chunks[..|chunks| - 1] == c.full;
    } else {
      assert Concat(c.full) + c.open == Concat(c.full);
    }
  }

  lemma ChunkedOne(records: seq<Json>, i: nat, size: int)
    requires i < |records|
    ensures var before := Chunked(records[..i], size);
      var open := before.open + [records[i]];
      Chunked(records[..i + 1], size) ==
        if |open| >= size then Chunking(before.full + [open], []) else Chunking(before.full, open)
  {
    assert records[..i + 1][..i] == records[..i];
  }

  lemma ChunkedNone(records: seq<Json>, size: int)
    ensures Chunked(records[..0], size) == Chunking([], [])
  {
  }

  lemma {:induction false} FullChunksStay(records: seq<Json>, size: int, i: nat)
    requires i <= |records|
    ensures Chunked(records[..i], size).full <= Chunked(records, size).full
  {
    if i == |records| {
      assert records[..i] == records;
    } else {
      FullChunksStay(records[..|records| - 1], size, i);
      assert records[..|records| - 1][..i] == records[..i];
    }
  }

  // ----- What a run is to send

  /** The number of records at which the limit stops the loop: it is tested after a record has been
      taken. */
  predicate Cut(n: nat, limit: Option<int>) {
    n > 0 && limit.Some? && limit.value <= n
  }

  function Taken(n: nat, limit: Option<int>): (k: nat)
    ensures k <= n
  {
    if Cut(n, limit) then ChunkSize(limit.value) else n
  }

  function Uploads(chunks: seq<seq<Json>>): (calls: seq<Call>)
    ensures |calls| == |chunks|
  {
    seq(|chunks|, i requires 0 <= i < |chunks| => Upload(i, chunks[i]))
  }

  /** The creation of the session and the chunks. */
  function SessionCalls(full: seq<seq<Json>>): seq<Call> {
    [Create] + Uploads(full)
  }

  /** The calls of a run in which the bridge refuses nothing. */
  function Script(feed: Feed, size: int, limit: Option<int>): (calls: seq<Call>)
    ensures calls != [] && calls[0] == Create
  {
    var records := feed.records[..Taken(|feed.records|, limit)];
    if feed.raises && !Cut(|feed.records|, limit) then SessionCalls(Chunked(records, size).full)
    else SessionCalls(Chunks(records, size)) + [Complete(|records|)]
  }

  function Accepted(calls: seq<Call>): (sent: seq<Sent>)
    ensures |sent| == |calls|
  {
    seq(|calls|, i requires 0 <= i < |calls| => Sent(calls[i], true))
  }

  /** The first call that the bridge refuses, or the number of calls. */
  function Refused(accepts: nat -> bool, calls: nat, k: nat): (r: nat)
    requires k <= calls
    ensures k <= r <= calls && (forall j | k <= j < r :: accepts(j)) && (r < calls ==> !accepts(r))
    decreases calls - k
  {
    if k == calls || !accepts(k) then k else Refused(accepts, calls, k + 1)
  }

  /** A script is followed up to the first call that is refused. */
  function Followed(accepts: nat -> bool, script: seq<Call>): (sent: seq<Sent>) {
    var k := Refused(accepts, |script|, 0);
    Accepted(script[..k]) + if k < |script| then [Sent(script[k], false)] else []
  }

  predicate Completed(log: seq<Sent>) {
    log != [] && log[|log| - 1].ok && log[|log| - 1].call.Complete?
  }

  /** A session that was created and is not completed in the end is aborted. */
  function Transcript(accepts: nat -> bool, script: seq<Call>): seq<Sent> {
    var sent := Followed(accepts, script);
    if sent != [] && sent[0].ok && !Completed(sent) then sent + [Sent(Abort, accepts(|sent|))] else sent
  }

  lemma FollowedIs(accepts: nat -> bool, script: seq<Call>, k: nat)
    requires k <= |script| && (forall j | 0 <= j < k :: accepts(j)) && (k < |script| ==> !accepts(k))
    ensures Followed(accepts, script)
         == Accepted(script[..k]) + if k < |script| then [Sent(script[k], false)] else []
  {
    assert Refused(accepts, |script|, 0) == k;
  }

  /** The calls for the chunks that are full after `i` records begin the script. */
  lemma ScriptBegins(feed: Feed, size: int, limit: Option<int>, i: nat)
    requires i <= Taken(|feed.records|, limit)
    ensures SessionCalls(Chunked(feed.records[..i], size).full) <= Script(feed, size, limit)
  {
    var records := feed.records[..Taken(|feed.records|, limit)];
    assert records[..i] == feed.records[..i];
    FullChunksStay(records, size, i);
    var (some, all) := (Chunked(records[..i], size).full, Chunked(records, size).full);
    assert Uploads(some) <= Uploads(all);
    assert all <= Chunks(records, size);
    assert Uploads(all) <= Uploads(Chunks(records, size));
  }

  // ----- The run

  ghost predicate SentOk(bridge: Bridge, calls: seq<Call>)
    reads bridge
  {
    bridge.log == Accepted(calls) && forall j | 0 <= j < |calls| :: bridge.accepts(j)
  }

  /** The calls so far, and one more that was refused. */
  ghost predicate RefusedAt(bridge: Bridge, calls: seq<Call>, call: Call)
    reads bridge
  {
    && bridge.log == Accepted(calls) + [Sent(call, false)]
    && (forall j | 0 <= j < |calls| :: bridge.accepts(j)) && !bridge.accepts(|calls|)
  }

  method SendNext(bridge: Bridge, call: Call, ghost calls: seq<Call>) returns (ok: bool)
    requires SentOk(bridge, calls)
    modifies bridge
    ensures if ok then SentOk(bridge, calls + [call]) else RefusedAt(bridge, calls, call)
  {
    ok := bridge.Send(call);
    assert Accepted(calls + [call]) == Accepted(calls) + [Sent(call, true)];
  }

  /** `upload_jsonl_chunk`, or nothing on a dry run. */
  method Put(bridge: Bridge, dryRun: bool, chunkIndex: nat, chunk: seq<Json>, ghost full: seq<seq<Json>>)
    returns (ok: bool)
    requires |full| == chunkIndex && (!dryRun ==> SentOk(bridge, SessionCalls(full)))
    modifies bridge
    ensures dryRun ==> ok && bridge.log == old(bridge.log)
    ensures !dryRun && ok ==> SentOk(bridge, SessionCalls(full + [chunk]))
    ensures !dryRun && !ok ==> RefusedAt(bridge, SessionCalls(full), Upload(chunkIndex, chunk))
    ensures SessionCalls(full + [chunk]) == SessionCalls(full) + [Upload(chunkIndex, chunk)]
  {
    assert SessionCalls(full + [chunk]) == SessionCalls(full) + [Upload(chunkIndex, chunk)];
    ok := true;
    if !dryRun { ok := SendNext(bridge, Upload(chunkIndex, chunk), SessionCalls(full)); }
  }

  lemma StopsAtRefusal(bridge: Bridge, script: seq<Call>, calls: seq<Call>, call: Call)
    requires RefusedAt(bridge, calls, call) && calls + [call] <= script
    ensures bridge.log == Followed(bridge.accepts, script) && !Completed(bridge.log)
  {
    assert script[|calls|] == call && script[..|calls|] == calls;
    FollowedIs(bridge.accepts, script, |calls|);
  }

  lemma SentWhole(bridge: Bridge, script: seq<Call>)
    requires SentOk(bridge, script) && script != []
    ensures bridge.log == Followed(bridge.accepts, script)
    ensures Completed(bridge.log) <==> script[|script| - 1].Complete?
  {
    assert script[..|script|] == script;
    FollowedIs(bridge.accepts, script, |script|);
  }

  /** The requests to the source that a run makes: none for a record beyond the limit. */
  function Wanted(reader: RecordIterator, feed: Feed, limit: Option<int>): nat {
    if Cut(|feed.records|, limit) then RequestsFor(reader.pager, reader.start, 0, Taken(|feed.records|, limit))
    else feed.requests
  }

  datatype Ending = Exhausted | Raised | Broken

  /** The loop over the records. */
  method ReadAll(reader: RecordIterator, bridge: Bridge, size: int, limit: Option<int>, dryRun: bool)
    returns (ending: Ending, uploaded: nat, chunkIndex: nat, chunk: seq<Json>, ghost full: seq<seq<Json>>)
    requires !dryRun ==> SentOk(bridge, SessionCalls([]))
    requires reader.Counted() && reader.delivered == 0
    modifies reader, bridge
    ensures var feed := old(reader.Remaining());
      && (dryRun ==> bridge.log == old(bridge.log) && ending != Broken)
      && (ending == Raised ==> feed.raises && !Cut(|feed.records|, limit) && uploaded == |feed.records|)
      && (ending == Exhausted ==>
          uploaded == Taken(|feed.records|, limit) && !(feed.raises && !Cut(|feed.records|, limit)))
      && uploaded <= Taken(|feed.records|, limit)
      && (ending == Raised ==> reader.pageCount == Wanted(reader, feed, limit))
      && (ending == Exhausted ==>
          reader.pageCount == Wanted(reader, feed, limit))
      && |full| == chunkIndex
      && (ending != Broken ==> Chunked(feed.records[..uploaded], size) == Chunking(full, chunk))
      && (!dryRun && ending != Broken ==> SentOk(bridge, SessionCalls(full)))
      && (!dryRun && ending == Broken ==> RefusedAt(bridge, SessionCalls(full), Upload(chunkIndex, chunk)))
      && (!dryRun && ending == Broken ==>
          SessionCalls(full) + [Upload(chunkIndex, chunk)] <= Script(feed, size, limit))
  {
    hide Script, SentOk, RefusedAt, SessionCalls, Chunked, RecordIterator.Counted, RecordIterator.Remaining, RequestsFor;
    ghost var feed := reader.Remaining();
    uploaded, chunkIndex, chunk, full := 0, 0, [], [];
    ChunkedNone(feed.records, size);
    while true
      invariant uploaded <= |feed.records| && (limit.Some? ==> uploaded == 0 || uploaded < limit.value)
      invariant reader.Remaining() == feed.(records := feed.records[uploaded..])
      invariant reader.Counted() && reader.delivered == uploaded
      invariant Chunked(feed.records[..uploaded], size) == Chunking(full, chunk) && |full| == chunkIndex
      invariant dryRun ==> bridge.log == old(bridge.log)
      invariant !dryRun ==> SentOk(bridge, SessionCalls(full))
      decreases |feed.records| - uploaded
    {
      var delivery := reader.Next();
      if delivery == Ends { return Exhausted, uploaded, chunkIndex, chunk, full; }
      if delivery == Raises { return Raised, uploaded, chunkIndex, chunk, full; }
      chunk := chunk + [delivery.record];
      uploaded := uploaded + 1;
      ChunkedOne(feed.records, uploaded - 1, size);
      if |chunk| >= size {
        var put := Put(bridge, dryRun, chunkIndex, chunk, full);
        if !put {
          ScriptBegins(feed, size, limit, uploaded);
          return Broken, uploaded, chunkIndex, chunk, full;
        }
        chunkIndex, chunk, full := chunkIndex + 1, [], full + [chunk];
      }
      if limit.Some? && uploaded >= limit.value { return Exhausted, uploaded, chunkIndex, chunk, full; }
    }
  }

  /** The guarded part of the run. */
  method Transfer(reader: RecordIterator, bridge: Bridge, size: int, limit: Option<int>, dryRun: bool)
    returns (ok: bool, uploaded: nat)
    requires !dryRun ==> SentOk(bridge, [Create])
    requires reader.Counted() && reader.delivered == 0
    modifies reader, bridge
    ensures dryRun ==> bridge.log == old(bridge.log)
    ensures var feed := old(reader.Remaining());
      && (!dryRun ==> bridge.log == Followed(bridge.accepts, Script(feed, size, limit)) && ok == Completed(bridge.log))
      && (dryRun ==> ok == !(feed.raises && !Cut(|feed.records|, limit)))
      && (ok ==> uploaded == Taken(|feed.records|, limit) && reader.pageCount == Wanted(reader, feed, limit))
  {
    ghost var feed := reader.Remaining();
    ghost var script := Script(feed, size, limit);
    assert SessionCalls([]) == [Create];
    var ending, chunkIndex, chunk;
    ghost var full;
    ending, uploaded, chunkIndex, chunk, full := ReadAll(reader, bridge, size, limit, dryRun);
    if ending == Broken {
      if !dryRun { StopsAtRefusal(bridge, script, SessionCalls(full), Upload(chunkIndex, chunk)); }
      return false, uploaded;
    }
    if ending == Raised {
      if !dryRun { SentWhole(bridge, script); }
      return false, uploaded;
    }
    if chunk != [] {
      var put := Put(bridge, dryRun, chunkIndex, chunk, full);
      if !put {
        StopsAtRefusal(bridge, script, SessionCalls(full), Upload(chunkIndex, chunk));
        return false, uploaded;
      }
      full := full + [chunk];
    }
    ok := true;
    if !dryRun {
      ok := SendNext(bridge, Complete(uploaded), SessionCalls(full));
      if ok {
        SentWhole(bridge, script);
      } else {
        StopsAtRefusal(bridge, script, SessionCalls(full), Complete(uploaded));
      }
    }
  }

  /** `run_openapi` from the creation of the session on; None when it raises. */
  method Run(reader: RecordIterator, bridge: Bridge, size: int, limit: Option<int>, dryRun: bool)
    returns (relayed: Option<nat>)
    requires bridge.log == []
    requires reader.Counted() && reader.delivered == 0
    modifies reader, bridge
    ensures relayed.Some? ==> reader.pageCount == Wanted(reader, old(reader.Remaining()), limit)
    ensures var feed := old(reader.Remaining());
      if dryRun then
        && bridge.log == []
        && relayed == if feed.raises && !Cut(|feed.records|, limit) then None else Some(Taken(|feed.records|, limit))
      else
        && bridge.log == Transcript(bridge.accepts, Script(feed, size, limit))
        && relayed == if Completed(bridge.log) then Some(Taken(|feed.records|, limit)) else None
  {
    if !dryRun {
      var created := bridge.Send(Create);
      if !created { return None; }
    }
    var completed, uploaded := Transfer(reader, bridge, size, limit, dryRun);
    if !dryRun && !completed {
      var _ := bridge.Send(Abort);
    }
    relayed := if completed then Some(uploaded) else None;
  }

  // ----- What every run amounts to

  /** The records that a run takes from its source. */
  function Relayed(feed: Feed, limit: Option<int>): seq<Json> {
    feed.records[..Taken(|feed.records|, limit)]
  }

  lemma ScriptIs(feed: Feed, size: int, limit: Option<int>)
    ensures var script := Script(feed, size, limit);
      && (forall i | 0 < i < |script| && script[i].Upload? ::
            i - 1 < |Chunks(Relayed(feed, limit), size)|
            && script[i] == Upload(i - 1, Chunks(Relayed(feed, limit), size)[i - 1]))
      && (forall i | 0 < i < |script| && !script[i].Upload? ::
            i == |script| - 1 && script[i] == Complete(|Relayed(feed, limit)|)
            && script[..i] == SessionCalls(Chunks(Relayed(feed, limit), size)))
  {
    var (script, chunks) := (Script(feed, size, limit), Chunks(Relayed(feed, limit), size));
    var full := Chunked(Relayed(feed, limit), size).full;
    assert full <= chunks;
    if !(feed.raises && !Cut(|feed.records|, limit)) {
      assert script[..|script| - 1] == SessionCalls(chunks);
    }
  }

  lemma FollowedAt(accepts: nat -> bool, script: seq<Call>)
    requires script != []
    ensures var sent := Followed(accepts, script);
      && 0 < |sent| <= |script|
      && (forall i | 0 <= i < |sent| :: sent[i].call == script[i] && sent[..i] == Accepted(script[..i]))
      && (forall i | 0 <= i < |sent| - 1 :: sent[i].ok)
      && (sent[|sent| - 1].ok ==> |sent| == |script|)
  {
    var sent := Followed(accepts, script);
    forall i | 0 <= i < |sent| ensures sent[..i] == Accepted(script[..i]) {}
  }

  /** The session is created first; once created it ends with exactly one of a completion that
      succeeds and an abort, and nothing follows; after a request that fails only the abort comes. */
  ghost predicate WellEnded(log: seq<Sent>) {
    && log != [] && log[0].call == Create
    && (!log[0].ok ==> |log| == 1)
    && (log[0].ok ==> |log| > 1 && (Completed(log) || log[|log| - 1].call == Abort))
    && (forall i | 0 <= i < |log| - 1 :: log[i].call != Abort && !(log[i].call.Complete? && log[i].ok))
    && (forall i | 0 <= i < |log| - 1 && !log[i].ok :: i == |log| - 2)
  }

  /** The chunks are numbered from 0, and completion is asked for only after every chunk was
      accepted, with the number of records in them. */
  ghost predicate WellFilled(log: seq<Sent>, chunks: seq<seq<Json>>) {
    && (forall i | 0 < i < |log| && log[i].call.Upload? ::
          i - 1 < |chunks| && log[i].call == Upload(i - 1, chunks[i - 1]))
    && (forall i | 0 <= i < |log| && log[i].call.Complete? ::
          log[..i] == Accepted(SessionCalls(chunks)) && log[i].call == Complete(|Concat(chunks)|))
  }

  /** The session protocol, whichever requests fail. */
  lemma SessionProtocol(accepts: nat -> bool, feed: Feed, size: int, limit: Option<int>)
    ensures var log := Transcript(accepts, Script(feed, size, limit));
      WellEnded(log) && WellFilled(log, Chunks(Relayed(feed, limit), size))
  {
    var script := Script(feed, size, limit);
    ScriptIs(feed, size, limit);
    ChunksAre(Relayed(feed, limit), size);
    TranscriptEnds(accepts, script);
    TranscriptFills(accepts, script, Chunks(Relayed(feed, limit), size));
  }

  /** What was sent follows a script that starts with the creation and holds a completion at most at
      its end. */
  ghost predicate Follows(sent: seq<Sent>, script: seq<Call>) {
    && 0 < |sent| <= |script| && sent[0].call == Create
    && (forall i | 0 <= i < |sent| - 1 :: sent[i].ok)
    && (forall i | 0 < i < |sent| :: sent[i].call.Upload? || sent[i].call.Complete?)
    && (forall i | 0 <= i < |sent| - 1 :: !sent[i].call.Complete?)
  }

  lemma FollowedFollows(accepts: nat -> bool, script: seq<Call>)
    requires script != [] && script[0] == Create
    requires forall i | 0 < i < |script| :: script[i].Upload? || (script[i].Complete? && i == |script| - 1)
    ensures Follows(Followed(accepts, script), script)
  {
    FollowedAt(accepts, script);
    hide Followed;
    var sent := Followed(accepts, script);
    forall i | 0 <= i < |sent| ensures sent[i].call == script[i] {}
  }

  lemma EndsUnaborted(sent: seq<Sent>, script: seq<Call>)
    requires Follows(sent, script) && (!sent[0].ok || Completed(sent))
    ensures WellEnded(sent)
  {
  }

  lemma EndsAborted(sent: seq<Sent>, script: seq<Call>, ok: bool)
    requires Follows(sent, script) && sent[0].ok && !Completed(sent)
    ensures WellEnded(sent + [Sent(Abort, ok)])
  {
    var log := sent + [Sent(Abort, ok)];
    forall i | 0 <= i < |log| - 1 ensures log[i] == sent[i] {}
  }

  lemma TranscriptEnds(accepts: nat -> bool, script: seq<Call>)
    requires script != [] && script[0] == Create
    requires forall i | 0 < i < |script| :: script[i].Upload? || (script[i].Complete? && i == |script| - 1)
    ensures WellEnded(Transcript(accepts, script))
  {
    FollowedFollows(accepts, script);
    var sent := Followed(accepts, script);
    hide Followed, WellEnded;
    if sent[0].ok && !Completed(sent) {
      EndsAborted(sent, script, accepts(|sent|));
    } else {
      EndsUnaborted(sent, script);
    }
  }

  /** Any entry but the abort is a call of the script, after calls that were accepted. */
  lemma TranscriptAt(accepts: nat -> bool, script: seq<Call>, i: nat)
    requires script != [] && i < |Transcript(accepts, script)| && Transcript(accepts, script)[i].call != Abort
    ensures var log := Transcript(accepts, script);
      i < |script| && log[i].call == script[i] && log[..i] == Accepted(script[..i])
  {
    FollowedAt(accepts, script);
    var sent := Followed(accepts, script);
    assert Transcript(accepts, script)[..i] == sent[..i];
  }

  lemma TranscriptFills(accepts: nat -> bool, script: seq<Call>, chunks: seq<seq<Json>>)
    requires script != [] && script[0] == Create
    requires forall i | 0 < i < |script| && script[i].Upload? ::
               i - 1 < |chunks| && script[i] == Upload(i - 1, chunks[i - 1])
    requires forall i | 0 < i < |script| && !script[i].Upload? ::
               script[i] == Complete(|Concat(chunks)|) && script[..i] == SessionCalls(chunks)
    ensures WellFilled(Transcript(accepts, script), chunks)
  {
    var log := Transcript(accepts, script);
    forall i | 0 < i < |log| && log[i].call.Upload?
      ensures i - 1 < |chunks| && log[i].call == Upload(i - 1, chunks[i - 1])
    {
      TranscriptAt(accepts, script, i);
    }
    forall i | 0 <= i < |log| && log[i].call.Complete?
      ensures log[..i] == Accepted(SessionCalls(chunks)) && log[i].call == Complete(|Concat(chunks)|)
    {
      TranscriptAt(accepts, script, i);
    }
  }

  /** When nothing is refused, the run sends all that it takes, cut into chunks. */
  lemma UnrefusedRun(accepts: nat -> bool, feed: Feed, size: int, limit: Option<int>)
    requires (forall k: nat :: accepts(k)) && !feed.raises
    ensures var kept := Relayed(feed, limit);
      Transcript(accepts, Script(feed, size, limit))
      == Accepted(SessionCalls(Chunks(kept, size)) + [Complete(|kept|)])
  {
    var script := Script(feed, size, limit);
    FollowedIs(accepts, script, |script|);
    assert script[..|script|] == script;
  }

  /** When the bridge refuses nothing and the source serves pages of one list, by whatever kind of
      pagination, the run sends the list, from the first offset on, as far as page limit and record
      limit go. */
  lemma EndToEnd(
      accepts: nat -> bool, pager: Pager, items: seq<Json>, pageSize: nat, told: bool,
      asks: (Request, nat) -> bool, params: Params, offset: nat, size: int, limit: Option<int>)
    requires Serves(pager, items, pageSize, told, asks) && asks(WithParams(params), offset) && pageSize > 0
    requires RequestsLeft(pager, |items|, offset, pageSize, told, 0) <= pager.source.patience
    requires forall k: nat :: accepts(k)
    ensures var pages := RequestsLeft(pager, |items|, offset, pageSize, told, 0);
      var read := Slice(items, offset, pages * pageSize);
      var kept := EnsureObjects(UpTo(read, limit));
      var chunks := Chunks(kept, size);
      && CutInto(kept, chunks, size)
      && Transcript(accepts, Script(Rest(pager, WithParams(params), 0), size, limit))
         == Accepted(SessionCalls(chunks) + [Complete(|kept|)])
  {
    hide Rest, Serves, Transcript, Script;
    var pages := RequestsLeft(pager, |items|, offset, pageSize, told, 0);
    YieldsInOrder(pager, items, pageSize, told, asks, WithParams(params), offset, 0);
    RunOn(accepts, Rest(pager, WithParams(params), 0), Slice(items, offset, pages * pageSize), size, limit);
  }

  /** The limit is looked at behind a record, so that a limit below 1 lets one record through. */
  function UpTo(items: seq<Json>, limit: Option<int>): seq<Json> {
    if items == [] || limit.None? || |items| <= limit.value then items
    else if limit.value < 1 then items[..1]
    else items[..limit.value]
  }

  lemma RunOn(accepts: nat -> bool, feed: Feed, read: seq<Json>, size: int, limit: Option<int>)
    requires feed.records == EnsureObjects(read) && !feed.raises
    requires forall k: nat :: accepts(k)
    ensures var kept := EnsureObjects(UpTo(read, limit));
      && CutInto(kept, Chunks(kept, size), size)
      && Transcript(accepts, Script(feed, size, limit))
         == Accepted(SessionCalls(Chunks(kept, size)) + [Complete(|kept|)])
  {
    assert Relayed(feed, limit) == EnsureObjects(UpTo(read, limit));
    ChunksAre(EnsureObjects(UpTo(read, limit)), size);
    UnrefusedRun(accepts, feed, size, limit);
  }
}
