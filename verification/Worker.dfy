/** The export batch loop (`src/databridge/export/worker.py`) and the unbatched pipeline that it
    refines: sample, extract, mask, resolve assets, post. */
module Worker {
  import opened Wrappers
  import opened JsonValues
  import opened Paths
  import opened Masking
  import opened Sampling

  /** What a job row asks for. `assets(i, r)` is the record that asset resolution makes of `r`, met
      as the `i`-th of the source, or None when it raises. */
  datatype Job = Job(
    codec: Codec,
    sampler: Option<Sampler>,
    extractionPath: Option<string>,
    rules: seq<Rule>,
    assets: Option<(nat, Json) -> Option<Json>>
  ) {
    predicate Valid() {
      sampler.Some? ==> sampler.value.Valid()
    }

    function Cap(): Option<nat> {
      if sampler.Some? then sampler.value.config.maxItems else None
    }

    /** `max_items and records_processed >= max_items`. */
    predicate Full(processed: nat) {
      Cap().Some? && Cap().value != 0 && processed >= Cap().value
    }
  }

  // ----- The pipeline without batches, counters or a cap

  datatype Outcome = SampledOut | NoContent | AssetError | Posts(record: Json)

  /** What becomes of record `i` of the source. */
  function Export(job: Job, x: Stream, i: nat): Outcome
    requires job.Valid() && x.Valid() && i < |x.records|
  {
    if job.sampler.Some? && !Selected(job.sampler.value, x, i) then SampledOut
    else Prepared(job, i, x.records[i])
  }

  /** The record that masking meets for a record of the source. */
  function Content(job: Job, record: Json): Option<Json> {
    if job.extractionPath.Some? then ExtractFieldValue(job.codec, record, job.extractionPath.value) else Some(record)
  }

  /** Extraction, masking and asset resolution of a record that was sampled. */
  function Prepared(job: Job, i: nat, record: Json): Outcome {
    match Content(job, record)
    case None => NoContent
    case Some(content) =>
      var masked := MaskAll(job.codec, content, job.rules);
      if job.assets.None? then Posts(masked)
      else match job.assets.value(i, masked) case None => AssetError case Some(r) => Posts(r)
  }

  /** The posts so far, in order, and the counts of records that were not posted. */
  datatype Tally = Tally(posts: seq<Json>, skipped: nat, assetErrors: nat) {
    function Add(outcome: Outcome): Tally {
      match outcome
      case Posts(r) => Tally(posts + [r], skipped, assetErrors)
      case AssetError => Tally(posts, skipped + 1, assetErrors + 1)
      case _ => Tally(posts, skipped + 1, assetErrors)
    }
  }

  /** What becomes of the first `n` records. */
  function Pipeline(job: Job, x: Stream, n: nat): Tally
    requires job.Valid() && x.Valid() && n <= |x.records|
  {
    if n == 0 then Tally([], 0, 0) else Pipeline(job, x, n - 1).Add(Export(job, x, n - 1))
  }

  function Outputs(job: Job, x: Stream, n: nat): seq<Json>
    requires job.Valid() && x.Valid() && n <= |x.records|
  {
    Pipeline(job, x, n).posts
  }

  /** The cap is not filled before the `n`-th record. */
  ghost predicate Unfilled(job: Job, x: Stream, n: nat)
    requires job.Valid() && x.Valid() && n <= |x.records|
  {
    forall k: nat | k < n :: !job.Full(|Outputs(job, x, k)|)
  }

  /** How many of the first `end` records a run looks at: up to the one that fills the cap. */
  ghost function Needed(job: Job, x: Stream, end: nat): (n: nat)
    requires job.Valid() && x.Valid() && end <= |x.records|
    ensures n <= end && Unfilled(job, x, n) && (n == end || job.Full(|Outputs(job, x, n)|))
  {
    NeededExists(job, x, end);
    var n: nat :| n <= end && Unfilled(job, x, n) && (n == end || job.Full(|Outputs(job, x, n)|));
    n
  }

  lemma {:induction false} NeededExists(job: Job, x: Stream, end: nat)
    requires job.Valid() && x.Valid() && end <= |x.records|
    ensures exists n: nat :: n <= end && Unfilled(job, x, n) && (n == end || job.Full(|Outputs(job, x, n)|))
  {
    if end == 0 {
      assert Unfilled(job, x, 0);
    } else {
      NeededExists(job, x, end - 1);
      var n: nat :| n <= end - 1 && Unfilled(job, x, n) && (n == end - 1 || job.Full(|Outputs(job, x, n)|));
      if !job.Full(|Outputs(job, x, n)|) { assert Unfilled(job, x, end); }
    }
  }

  lemma UnfilledOne(job: Job, x: Stream, n: nat)
    requires job.Valid() && x.Valid() && n < |x.records|
    requires Unfilled(job, x, n) && !job.Full(|Outputs(job, x, n)|)
    ensures Unfilled(job, x, n + 1)
  {
  }

  lemma NeededIs(job: Job, x: Stream, end: nat, n: nat)
    requires job.Valid() && x.Valid() && n <= end <= |x.records|
    requires Unfilled(job, x, n) && (n == end || job.Full(|Outputs(job, x, n)|))
    ensures Needed(job, x, end) == n
  {
    var m := Needed(job, x, end);
    var _, _ := Outputs(job, x, m), Outputs(job, x, n);
  }

  /** The first `cap` outputs, or all of them. */
  function FirstItems(job: Job, items: seq<Json>): seq<Json> {
    if job.Full(|items|) then items[..job.Cap().value] else items
  }

  /** The counters of a progress write. */
  datatype Progress = Progress(processed: nat, skipped: nat, assetErrors: nat)

  function ProgressOf(t: Tally): Progress {
    Progress(|t.posts|, t.skipped, t.assetErrors)
  }

  /** The `k`-th offset of `range(0, total, batch_size)`. */
  function Offset(batchSize: nat, k: nat): nat {
    if k == 0 then 0 else Offset(batchSize, k - 1) + batchSize
  }

  /** Where batch `k` ends. */
  function BatchEnd(x: Stream, batchSize: nat, k: nat): nat {
    Min(Offset(batchSize, k + 1), |x.records|)
  }

  // ----- The run

  ghost predicate Quiet(answers: nat -> bool) {
    forall k: nat :: !answers(k)
  }

  ghost predicate NoneBefore(answers: nat -> bool, n: nat) {
    forall k: nat | k < n :: !answers(k)
  }

  /** Cancelled carries the batch after which the cancellation was seen. */
  datatype Result = Finished | Cancelled(batch: nat) | Failed

  class ExportRun {
    const job: Job
    const samplingBuffer: SamplingBuffer?
    var recordsProcessed: nat
    var recordsSkipped: nat
    var assetErrors: nat
    var limitReached: bool
    var posted: seq<Json>
    var progress: seq<Progress>

    constructor (job: Job)
      ensures this.job == job && (samplingBuffer != null ==> fresh(samplingBuffer))
      ensures (samplingBuffer == null <==> job.sampler.None?) && progress == [] && !limitReached
      ensures forall x: Stream | job.Valid() && x.Valid() :: At(x, 0)
    {
      this.job := job;
      if job.sampler.Some? {
        var buffer := new SamplingBuffer(job.sampler.value);
        samplingBuffer := buffer;
      } else {
        samplingBuffer := null;
      }
      recordsProcessed, recordsSkipped, assetErrors := 0, 0, 0;
      limitReached, posted, progress := false, [], [];
    }

    /** The run has dealt with the first `n` records. */
    ghost predicate At(x: Stream, n: nat)
      reads this, samplingBuffer
    {
      && job.Valid() && x.Valid() && n <= |x.records|
      && recordsProcessed == |posted|
      && Tally(posted, recordsSkipped, assetErrors) == Pipeline(job, x, n)
      && (samplingBuffer == null <==> job.sampler.None?)
      && (samplingBuffer != null ==>
          samplingBuffer.sampler == job.sampler.value && samplingBuffer.State() == After(job.sampler.value, x, n))
    }

    method Sample(x: Stream, i: nat) returns (keep: bool)
      requires i < |x.records| && At(x, i)
      modifies samplingBuffer
      ensures samplingBuffer != null ==> samplingBuffer.State() == After(job.sampler.value, x, i + 1)
      ensures keep <==> job.sampler.None? || Selected(job.sampler.value, x, i)
    {
      keep := true;
      if samplingBuffer != null {
        assert x.records[i] in x.records;
        SamplerSelects(job.sampler.value, x, i);
        keep := samplingBuffer.Feed(x.records[i], x.draws(i));
      }
    }

    method Prepare(i: nat, sampled: Json) returns (outcome: Outcome)
      ensures outcome == Prepared(job, i, sampled)
    {
      var record := sampled;
      if job.extractionPath.Some? {
        match ExtractFieldValue(job.codec, record, job.extractionPath.value) {
          case None => return NoContent;
          case Some(extracted) => record := extracted;
        }
      }
      if job.rules != [] {
        record := MaskAll(job.codec, record, job.rules);
      }
      if job.assets.Some? {
        match job.assets.value(i, record) {
          case None => return AssetError;
          case Some(resolved) => record := resolved;
        }
      }
      return Posts(record);
    }

    /** The body of the record loop. A post that raises leaves the counters as they were. */
    method ExportRecord(x: Stream, i: nat, postFails: bool) returns (raised: bool)
      requires i < |x.records| && At(x, i) && !limitReached && !job.Full(|posted|)
      modifies this, samplingBuffer
      ensures progress == old(progress)
      ensures raised ==> postFails && posted == old(posted)
      ensures !raised ==> At(x, i + 1)
      ensures !raised ==> limitReached == job.Full(|posted|)
    {
      var keep := Sample(x, i);
      var outcome := SampledOut;
      if keep { outcome := Prepare(i, x.records[i]); }
      if outcome.AssetError? { assetErrors := assetErrors + 1; }
      if !outcome.Posts? {
        recordsSkipped := recordsSkipped + 1;
        return false;
      }
      if postFails { return true; }
      posted := posted + [outcome.record];
      recordsProcessed := recordsProcessed + 1;
      if job.Full(recordsProcessed) {
        limitReached := true;
      }
      return false;
    }

    /** The inner loop, over one page; it stops behind the record that fills the cap. */
    method ExportPage(x: Stream, from: nat, end: nat, postFails: nat -> bool) returns (raised: bool, ghost n: nat)
      requires from <= end <= |x.records| && At(x, from) && !limitReached
      requires Unfilled(job, x, from) && !job.Full(|posted|)
      modifies this, samplingBuffer
      ensures progress == old(progress)
      ensures n <= end && posted == Outputs(job, x, n) && Unfilled(job, x, n)
      ensures raised ==> !Quiet(postFails)
      ensures !raised ==> At(x, n) && n == Needed(job, x, end)
      ensures !raised ==> limitReached == job.Full(|posted|)
    {
      hide Pipeline, Export, Unfilled;
      var i := from;
      while i < end && !limitReached
        invariant from <= i <= end
        invariant progress == old(progress)
        invariant At(x, i) && Unfilled(job, x, i) && limitReached == job.Full(|posted|)
        decreases end - i
      {
        UnfilledOne(job, x, i);
        raised := ExportRecord(x, i, postFails(i));
        if raised { return true, i; }
        i := i + 1;
      }
      NeededIs(job, x, end, i);
      return false, i;
    }

    /** Every progress write so far, one per batch, told the counters at the end of its batch. */
    ghost predicate Reported(x: Stream, batchSize: nat)
      requires job.Valid() && x.Valid()
      reads this
    {
      forall k | 0 <= k < |progress| ::
        progress[k] == ProgressOf(Pipeline(job, x, Needed(job, x, BatchEnd(x, batchSize, k))))
    }

    /** The state between two batches: `n` records were looked at, `offset` comes next. */
    ghost predicate Ready(x: Stream, batchSize: nat, offset: nat, n: nat)
      reads this, samplingBuffer
    {
      && At(x, n) && Reported(x, batchSize)
      && offset == Offset(batchSize, |progress|)
      && n == Needed(job, x, Min(offset, |x.records|))
      && limitReached == job.Full(|posted|)
    }

    /** The progress write at the end of a batch. */
    method Report(x: Stream, batchSize: nat, ghost n: nat)
      requires At(x, n) && Reported(x, batchSize) && n == Needed(job, x, BatchEnd(x, batchSize, |progress|))
      modifies this`progress
      ensures At(x, n) && Reported(x, batchSize) && |progress| == old(|progress|) + 1
    {
      progress := progress + [Progress(recordsProcessed, recordsSkipped, assetErrors)];
    }

    /** One turn of the batch loop; a result ends the loop. */
    method RunBatch(x: Stream, batchSize: nat, offset: nat, ghost before: nat,
                    cancelled: nat -> bool, fetchFails: nat -> bool, postFails: nat -> bool)
      returns (stop: Option<Result>, ghost n: nat)
      requires offset < |x.records| && Ready(x, batchSize, offset, before) && !limitReached
      modifies this, samplingBuffer
      ensures n <= |x.records| && posted == Outputs(job, x, n) && Unfilled(job, x, n)
      ensures Reported(x, batchSize)
      ensures stop.None? ==> Ready(x, batchSize, offset + batchSize, n)
      ensures stop.None? ==> |progress| == old(|progress|) + 1 && !cancelled(old(|progress|))
      ensures stop.Some? ==> stop.value == Failed || stop.value == Cancelled(old(|progress|))
      ensures stop == Some(Failed) ==> !Quiet(fetchFails) || !Quiet(postFails)
      ensures stop.Some? && stop.value.Cancelled? ==>
        cancelled(old(|progress|)) && n == Needed(job, x, BatchEnd(x, batchSize, old(|progress|)))
    {
      var batch := |progress|;
      n := offset;
      if fetchFails(batch) { return Some(Failed), n; }
      var raised;
      raised, n := ExportPage(x, offset, Min(offset + batchSize, |x.records|), postFails);
      if raised { return Some(Failed), n; }
      Report(x, batchSize, n);
      stop := if cancelled(batch) then Some(Cancelled(batch)) else None;
    }

    /** The batch loop. `fetchFails(k)` and `postFails(i)` say which requests raise; `cancelled(k)`
        is the answer of the cancellation check after batch `k`. */
    method RunBatches(x: Stream, batchSize: nat,
                      cancelled: nat -> bool, fetchFails: nat -> bool, postFails: nat -> bool)
      returns (result: Result, ghost n: nat)
      requires batchSize > 0 && Ready(x, batchSize, 0, 0)
      modifies this, samplingBuffer
      ensures n <= |x.records| && posted == Outputs(job, x, n) && Unfilled(job, x, n)
      ensures Reported(x, batchSize)
      ensures result.Finished? ==> n == Needed(job, x, |x.records|) && NoneBefore(cancelled, |progress|)
      ensures result.Cancelled? ==> cancelled(result.batch) && NoneBefore(cancelled, result.batch)
      ensures result.Cancelled? ==> n == Needed(job, x, BatchEnd(x, batchSize, result.batch))
      ensures result.Failed? ==> !Quiet(fetchFails) || !Quiet(postFails)
    {
      var offset := 0;
      n := 0;
      while offset < |x.records| && !limitReached
        invariant Ready(x, batchSize, offset, n)
        invariant NoneBefore(cancelled, |progress|)
        decreases |x.records| - offset
      {
        var stop;
        stop, n := RunBatch(x, batchSize, offset, n, cancelled, fetchFails, postFails);
        if stop.Some? { return stop.value, n; }
        offset := offset + batchSize;
      }
      NeededIs(job, x, |x.records|, n);
      return Finished, n;
    }

    /** An uncancelled and error-free run posts the first `max_items` results, or all, of the
        unbatched pipeline over the whole source, whatever the batch size. A cancelled one posts
        what the batches up to the cancellation yield, a failed one what preceded the failure. */
    method Run(x: Stream, batchSize: nat, cancelled: nat -> bool, fetchFails: nat -> bool, postFails: nat -> bool)
      returns (result: Result)
      requires batchSize > 0 && At(x, 0) && progress == [] && !limitReached
      modifies this, samplingBuffer
      ensures Reported(x, batchSize)
      ensures result.Finished? ==> posted == FirstItems(job, Outputs(job, x, |x.records|))
      ensures result.Finished? ==> NoneBefore(cancelled, |progress|)
      ensures result.Cancelled? ==> cancelled(result.batch) && NoneBefore(cancelled, result.batch)
      ensures result.Cancelled? ==>
        posted == FirstItems(job, Outputs(job, x, BatchEnd(x, batchSize, result.batch)))
      ensures result.Failed? ==> !Quiet(fetchFails) || !Quiet(postFails)
      ensures posted <= FirstItems(job, Outputs(job, x, |x.records|))
    {
      ghost var n;
      result, n := RunBatches(x, batchSize, cancelled, fetchFails, postFails);
      StoppedAt(job, x, n);
      NeededIsCap(job, x, if result.Cancelled? then BatchEnd(x, batchSize, result.batch) else |x.records|);
    }
  }

  lemma {:induction false} OutputsGrow(job: Job, x: Stream, n: nat, end: nat)
    requires job.Valid() && x.Valid() && n <= end <= |x.records|
    ensures Outputs(job, x, n) <= Outputs(job, x, end)
  {
    if n < end { OutputsGrow(job, x, n, end - 1); }
  }

  /** Stopping behind the record that fills the cap is taking the first `cap` outputs. */
  lemma NeededIsCap(job: Job, x: Stream, end: nat)
    requires job.Valid() && x.Valid() && end <= |x.records|
    ensures Outputs(job, x, Needed(job, x, end)) == FirstItems(job, Outputs(job, x, end))
  {
    var n := Needed(job, x, end);
    OutputsGrow(job, x, n, end);
    if job.Full(|Outputs(job, x, n)|) {
      if n > 0 {
        assert !job.Full(|Outputs(job, x, n - 1)|);
        assert |Outputs(job, x, n)| <= |Outputs(job, x, n - 1)| + 1;
      }
      assert |Outputs(job, x, n)| == job.Cap().value;
    }
  }

  /** What was posted by the time any record is reached is a prefix of what the full run posts. */
  lemma StoppedAt(job: Job, x: Stream, n: nat)
    requires job.Valid() && x.Valid() && n <= |x.records| && Unfilled(job, x, n)
    ensures Outputs(job, x, n) <= FirstItems(job, Outputs(job, x, |x.records|))
  {
    var m := Needed(job, x, |x.records|);
    var _ := Outputs(job, x, m);
    OutputsGrow(job, x, n, m);
    NeededIsCap(job, x, |x.records|);
  }

  // ----- What every run keeps

  /** Every record looked at is posted or skipped, and asset errors are among the skips. */
  lemma {:induction false} Conservation(job: Job, x: Stream, n: nat)
    requires job.Valid() && x.Valid() && n <= |x.records|
    ensures var t := Pipeline(job, x, n); |t.posts| + t.skipped == n && t.assetErrors <= t.skipped
  {
    if n > 0 { Conservation(job, x, n - 1); }
  }

  /** What a progress write says adds up to the records looked at, and never exceeds the cap. */
  lemma ProgressConserves(job: Job, x: Stream, end: nat)
    requires job.Valid() && x.Valid() && end <= |x.records|
    ensures var n := Needed(job, x, end);
      var p := ProgressOf(Pipeline(job, x, n));
      && p.processed + p.skipped == n
      && p.assetErrors <= p.skipped
      && (job.Cap().Some? && job.Cap().value > 0 ==> p.processed <= job.Cap().value)
  {
    Conservation(job, x, Needed(job, x, end));
    NeededIsCap(job, x, end);
  }

  lemma NothingPosted(job: Job, x: Stream)
    requires job.Valid() && x.Valid()
    ensures Outputs(job, x, 0) == []
  {
  }

  /** The last record adds at most one post, of what was prepared of it. */
  lemma LastPost(job: Job, x: Stream, n: nat)
    requires job.Valid() && x.Valid() && 0 < n <= |x.records|
    ensures var prepared := Prepared(job, n - 1, x.records[n - 1]);
      || Outputs(job, x, n) == Outputs(job, x, n - 1)
      || (prepared.Posts? && Content(job, x.records[n - 1]).Some? &&
          Outputs(job, x, n) == Outputs(job, x, n - 1) + [prepared.record])
  {
    hide Selected, MaskAll;
  }

  /** What is posted for a source record is its masked content, in which no rule is defeated, or what
      asset resolution makes of that content. */
  lemma {:induction false} EveryPostIsMasked(job: Job, x: Stream, n: nat, k: nat)
    requires job.Valid() && x.Valid() && n <= |x.records| && k < |Outputs(job, x, n)|
    requires Lawful(job.codec)
    requires forall i | 0 <= i < n :: JsonValues.Valid(x.records[i])
    requires forall i | 0 <= i < n && Content(job, x.records[i]).Some? ::
      DropsMoveNothing(job.codec, Content(job, x.records[i]).value, job.rules)
    ensures exists i: nat | i < n :: MaskedPost(job, i, x.records[i], Outputs(job, x, n)[k])
  {
    hide Outputs, Prepared, MaskAll, Covered, DropsMoveNothing;
    if n > 0 { LastPost(job, x, n); } else { NothingPosted(job, x); }
    if k < |Outputs(job, x, n - 1)| {
      EveryPostIsMasked(job, x, n - 1, k);
    } else {
      PostIsMasked(job, n - 1, x.records[n - 1]);
      assert MaskedPost(job, n - 1, x.records[n - 1], Outputs(job, x, n)[k]);
    }
  }

  ghost predicate MaskedPost(job: Job, i: nat, record: Json, post: Json) {
    && Content(job, record).Some?
    && var content := Content(job, record).value;
    && var masked := MaskAll(job.codec, content, job.rules);
    && (if job.assets.None? then post == masked else job.assets.value(i, masked) == Some(post))
    && forall j | 0 <= j < |job.rules| :: Covered(job.codec, content, job.rules, j, job.rules[j].Parts())
  }

  lemma PostIsMasked(job: Job, i: nat, record: Json)
    requires Lawful(job.codec) && JsonValues.Valid(record) && Prepared(job, i, record).Posts?
    requires DropsMoveNothing(job.codec, Content(job, record).value, job.rules)
    ensures MaskedPost(job, i, record, Prepared(job, i, record).record)
  {
    var content := Content(job, record).value;
    if job.extractionPath.Some? {
      var parts := Split(job.extractionPath.value, '.');
      ResolveValid(job.codec, record, parts);
      DecodeValid(job.codec, Resolve(job.codec, record, parts).value);
    }
    forall j | 0 <= j < |job.rules| ensures Covered(job.codec, content, job.rules, j, job.rules[j].Parts()) {
      NoRuleIsDefeated(job.codec, content, job.rules, j);
    }
  }

  // ----- What becomes of each record

  /** What masking meets: the record itself, or the container that stands, native or in text, at the
      extraction path. */
  predicate Shows(job: Job, record: Json, content: Json) {
    match job.extractionPath
    case None => content == record
    case Some(path) =>
      var found := Resolve(job.codec, record, Split(path, '.'));
      found.Some? && content == Decode(job.codec, found.value) && (content.Arr? || content.Obj?)
  }

  lemma ShownIsContent(job: Job, record: Json, content: Json)
    ensures Shows(job, record, content) <==> Content(job, record) == Some(content)
  {
  }

  predicate Sampled(job: Job, x: Stream, i: nat)
    requires job.Valid() && x.Valid() && i < |x.records|
  {
    job.sampler.None? || Keeps(job.sampler.value, x, i)
  }

  /** Record `i` is sampled, shows content, and `post` is its masked form, or what asset resolution
      makes of that. */
  ghost predicate Owes(job: Job, x: Stream, i: nat, post: Json)
    requires job.Valid() && x.Valid() && i < |x.records|
  {
    Sampled(job, x, i) && exists content ::
      Shows(job, x.records[i], content) && Yields(job, i, MaskAll(job.codec, content, job.rules), post)
  }

  predicate Yields(job: Job, i: nat, masked: Json, post: Json) {
    if job.assets.None? then post == masked else job.assets.value(i, masked) == Some(post)
  }

  /** Record `i` is sampled and shows content, whose assets do not resolve. */
  ghost predicate AssetsRaise(job: Job, x: Stream, i: nat)
    requires job.Valid() && x.Valid() && i < |x.records|
  {
    Sampled(job, x, i) && job.assets.Some? && exists content ::
      Shows(job, x.records[i], content) && job.assets.value(i, MaskAll(job.codec, content, job.rules)) == None
  }

  lemma ExportIs(job: Job, x: Stream, i: nat)
    requires job.Valid() && x.Valid() && i < |x.records|
    ensures forall post :: Owes(job, x, i, post) <==> Export(job, x, i) == Posts(post)
    ensures AssetsRaise(job, x, i) <==> Export(job, x, i) == AssetError
  {
    if job.sampler.Some? { SamplerSelects(job.sampler.value, x, i); }
    assert Sampled(job, x, i) <==> Export(job, x, i) != SampledOut;
    var content := Content(job, x.records[i]);
    forall w ensures Shows(job, x.records[i], w) <==> content == Some(w) { ShownIsContent(job, x.records[i], w); }
    hide MaskAll, Sampled, Shows, Content;
    if content.Some? { assert Shows(job, x.records[i], content.value); }
  }

  /** Positions in increasing order, below `n`. */
  predicate Positions(s: seq<nat>, n: nat) {
    (forall k | 0 <= k < |s| :: s[k] < n) && forall k, l | 0 <= k < l < |s| :: s[k] < s[l]
  }

  /** The posts are those of the records that owe one, one each and in order, and the asset errors are
      those of the records whose assets raise. */
  ghost predicate Accounts(job: Job, x: Stream, n: nat, posted: seq<nat>, raised: seq<nat>)
    requires job.Valid() && x.Valid() && n <= |x.records|
  {
    && Positions(posted, n) && |posted| == |Outputs(job, x, n)|
    && (forall k | 0 <= k < |posted| :: Owes(job, x, posted[k], Outputs(job, x, n)[k]))
    && (forall i: nat, post | i < n && Owes(job, x, i, post) :: i in posted)
    && Positions(raised, n) && |raised| == Pipeline(job, x, n).assetErrors
    && (forall i: nat | i < n :: AssetsRaise(job, x, i) <==> i in raised)
  }

  lemma {:induction false} EveryRecordAccounted(job: Job, x: Stream, n: nat) returns (posted: seq<nat>, raised: seq<nat>)
    requires job.Valid() && x.Valid() && n <= |x.records|
    ensures Accounts(job, x, n, posted, raised)
  {
    hide Accounts, Export, Owes, AssetsRaise;
    if n == 0 {
      posted, raised := [], [];
      NoneAccounted(job, x);
    } else {
      posted, raised := EveryRecordAccounted(job, x, n - 1);
      ExportIs(job, x, n - 1);
      AccountOne(job, x, n - 1, posted, raised);
      posted := if Export(job, x, n - 1).Posts? then posted + [n - 1] else posted;
      raised := if Export(job, x, n - 1) == AssetError then raised + [n - 1] else raised;
    }
  }

  lemma NoneAccounted(job: Job, x: Stream)
    requires job.Valid() && x.Valid()
    ensures Accounts(job, x, 0, [], [])
  {
  }

  lemma AccountOne(job: Job, x: Stream, n: nat, posted: seq<nat>, raised: seq<nat>)
    requires job.Valid() && x.Valid() && n < |x.records| && Accounts(job, x, n, posted, raised)
    requires forall post :: Owes(job, x, n, post) <==> Export(job, x, n) == Posts(post)
    requires AssetsRaise(job, x, n) <==> Export(job, x, n) == AssetError
    ensures Accounts(job, x, n + 1,
                     if Export(job, x, n).Posts? then posted + [n] else posted,
                     if Export(job, x, n) == AssetError then raised + [n] else raised)
  {
    hide Owes, AssetsRaise, Export;
  }

  /** What the cap leaves: everything without a cap or with cap 0, and else at most `max_items`. */
  lemma CapLeaves(job: Job, items: seq<Json>)
    ensures FirstItems(job, items) ==
      if job.sampler.Some? && job.sampler.value.config.maxItems.Some? && 0 < job.sampler.value.config.maxItems.value <= |items|
      then items[..job.sampler.value.config.maxItems.value] else items
  {
  }

  /** Batch `k` ends after `k + 1` batch sizes, or with the source. */
  lemma {:induction false} BatchEndIs(x: Stream, batchSize: nat, k: nat)
    ensures Offset(batchSize, k) == k * batchSize
    ensures BatchEnd(x, batchSize, k) == if (k + 1) * batchSize < |x.records| then (k + 1) * batchSize else |x.records|
  {
    if k > 0 { BatchEndIs(x, batchSize, k - 1); }
    assert (k + 1) * batchSize == k * batchSize + batchSize;
  }
}
