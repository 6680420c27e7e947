/** The stateful sampler (`src/databridge/export/sampling.py`) and the stateless selection rule
    that it amounts to on any stream. */
module Sampling {
  import opened Wrappers
  import opened JsonValues

  datatype Kind = Random | Systematic | Stratified

  /** `ratioOrSize` is a size above 1 and a ratio up to 1. */
  datatype Config = Config(kind: Kind, targetColumn: Option<string>, ratioOrSize: real, maxItems: Option<nat>)

  /** A configuration, with Python's `str` on JSON values. */
  datatype Sampler = Sampler(config: Config, str: Json -> string) {
    predicate Valid() {
      config.ratioOrSize > 0.0
    }

    predicate Absolute() {
      config.ratioOrSize > 1.0
    }

    /** `int(ratio_or_size)`. */
    function Quota(): (q: nat)
      requires Valid()
      ensures q as real <= config.ratioOrSize < (q + 1) as real
    {
      config.ratioOrSize.Floor
    }

    predicate NoTarget() {
      config.targetColumn == None || config.targetColumn == Some("")
    }

    /** The group of a record; without a target column all records are one group. */
    function Group(record: Json): string
      requires record.Obj?
    {
      if NoTarget() then "_all"
      else
        match KeyIndex(record.fields, config.targetColumn.value)
        case Some(i) => str(record.fields[i].value)
        case None => "_unknown"
    }

    /** Every how many records a systematic ratio keeps one: `max(1, round(1.0 / ratio))`. */
    function RatioStep(): nat
      requires Valid()
    {
      var n := RoundHalfEven(1.0 / config.ratioOrSize);
      if n < 1 then 1 else n
    }
  }

  /** Python's `round`: to the nearest integer, ties to the even one. */
  function RoundHalfEven(x: real): (n: int)
    ensures -0.5 <= n as real - x <= 0.5
    ensures n as real - x == 0.5 || x - n as real == 0.5 ==> n % 2 == 0
  {
    var low := x.Floor;
    var gap := x - low as real;
    if gap < 0.5 || (gap == 0.5 && low % 2 == 0) then low else low + 1
  }

  function Ceiling(x: real): (n: int)
    ensures x <= n as real < x + 1.0
  {
    -((-x).Floor)
  }

  function CountIn(m: map<string, nat>, key: string): nat {
    if key in m then m[key] else 0
  }

  datatype Counters = Counters(seen: nat, kept: nat, groupSeen: map<string, nat>, groupKept: map<string, nat>)

  const NoneSeen := Counters(0, 0, map[], map[])

  /** Whether the sampler keeps the record that makes the `seen`-th. */
  predicate Decides(s: Sampler, seen: nat, kept: nat, groupKept: nat, draw: real)
    requires s.Valid() && seen > 0
  {
    match s.config.kind
    case Random => if s.Absolute() then kept < s.Quota() else draw < s.config.ratioOrSize
    case Systematic =>
      if s.Absolute() then
        var step := Ceiling(1.0 / (s.config.ratioOrSize / seen as real));
        (seen - 1) % (if step < 1 then 1 else step) == 0 && kept < s.Quota()
      else s.config.ratioOrSize >= 1.0 || seen % s.RatioStep() == 1
    case Stratified => if s.Absolute() then groupKept < s.Quota() else draw < s.config.ratioOrSize
  }

  /** One call of `feed`: the decision and the counters after it. */
  function FeedOnce(s: Sampler, c: Counters, record: Json, draw: real): (Counters, bool)
    requires s.Valid() && record.Obj?
  {
    var key := s.Group(record);
    var keep := Decides(s, c.seen + 1, c.kept, CountIn(c.groupKept, key), draw);
    var kept := if keep then c.kept + 1 else c.kept;
    if s.config.kind != Stratified then (c.(seen := c.seen + 1, kept := kept), keep)
    else
      (Counters(c.seen + 1, kept, c.groupSeen[key := CountIn(c.groupSeen, key) + 1],
                if keep then c.groupKept[key := CountIn(c.groupKept, key) + 1] else c.groupKept), keep)
  }

  class SamplingBuffer {
    const sampler: Sampler
    var seen: nat
    var kept: nat
    var stratCounts: map<string, nat>
    var stratKept: map<string, nat>

    ghost function State(): Counters
      reads this
    {
      Counters(seen, kept, stratCounts, stratKept)
    }

    constructor (sampler: Sampler)
      ensures this.sampler == sampler && State() == NoneSeen
    {
      this.sampler := sampler;
      seen, kept := 0, 0;
      stratCounts, stratKept := map[], map[];
    }

    /** `draw` is the value of `random.random()`, used only by the ratio methods that draw. */
    method Feed(record: Json, draw: real) returns (keep: bool)
      requires sampler.Valid() && record.Obj?
      modifies this
      ensures (State(), keep) == FeedOnce(sampler, old(State()), record, draw)
    {
      var size := sampler.config.ratioOrSize;
      seen := seen + 1;
      match sampler.config.kind {
        case Random =>
          if size > 1.0 {
            keep := kept < sampler.Quota();
          } else {
            keep := draw < size;
          }
          if keep { kept := kept + 1; }
        case Systematic =>
          if size > 1.0 {
            var step := Ceiling(1.0 / (size / seen as real));
            if step < 1 { step := 1; }
            keep := (seen - 1) % step == 0 && kept < sampler.Quota();
          } else if size >= 1.0 {
            keep := true;
          } else {
            keep := seen % sampler.RatioStep() == 1;
          }
          if keep { kept := kept + 1; }
        case Stratified =>
          var key := sampler.Group(record);
          stratCounts := stratCounts[key := CountIn(stratCounts, key) + 1];
          if size > 1.0 {
            keep := CountIn(stratKept, key) < sampler.Quota();
          } else {
            keep := draw < size;
          }
          if keep {
            stratKept := stratKept[key := CountIn(stratKept, key) + 1];
            kept := kept + 1;
          }
      }
    }
  }

  // ----- A sampler over a stream

  /** Records to be fed in order; record `i` is met with the draw `draws(i)`. */
  datatype Stream = Stream(records: seq<Json>, draws: nat -> real) {
    predicate Valid() {
      forall r | r in records :: r.Obj?
    }
  }

  /** The counters after the first `n` records. */
  function After(s: Sampler, x: Stream, n: nat): Counters
    requires s.Valid() && x.Valid() && n <= |x.records|
  {
    if n == 0 then NoneSeen
    else
      assert x.records[n - 1] in x.records;
      FeedOnce(s, After(s, x, n - 1), x.records[n - 1], x.draws(n - 1)).0
  }

  /** Whether record `i` is kept when it is fed. */
  predicate Keeps(s: Sampler, x: Stream, i: nat)
    requires s.Valid() && x.Valid() && i < |x.records|
  {
    assert x.records[i] in x.records;
    FeedOnce(s, After(s, x, i), x.records[i], x.draws(i)).1
  }

  /** How many of the first `n` records are in the group `key`. */
  function GroupSize(s: Sampler, x: Stream, key: string, n: nat): nat
    requires x.Valid() && n <= |x.records|
  {
    if n == 0 then 0
    else
      assert x.records[n - 1] in x.records;
      GroupSize(s, x, key, n - 1) + if s.Group(x.records[n - 1]) == key then 1 else 0
  }

  /** The selection rule without counters. A size keeps a prefix, of the stream or of each group;
      a drawing ratio keeps by the draw; a systematic ratio keeps every `RatioStep`-th record from
      the first on, all of them at ratio 1, and none when its step is 1. */
  predicate Selected(s: Sampler, x: Stream, i: nat)
    requires s.Valid() && x.Valid() && i < |x.records|
  {
    assert x.records[i] in x.records;
    if s.config.kind == Stratified && s.Absolute() then GroupSize(s, x, s.Group(x.records[i]), i) < s.Quota()
    else if s.Absolute() then i < s.Quota()
    else if s.config.kind != Systematic then x.draws(i) < s.config.ratioOrSize
    else s.config.ratioOrSize == 1.0 || (s.RatioStep() >= 2 && i % s.RatioStep() == 0)
  }

  function CountSelected(s: Sampler, x: Stream, n: nat): nat
    requires s.Valid() && x.Valid() && n <= |x.records|
  {
    if n == 0 then 0 else CountSelected(s, x, n - 1) + if Selected(s, x, n - 1) then 1 else 0
  }

  function Min(a: int, b: int): int {
    if a < b then a else b
  }

  /** The moving step of the absolute systematic method is 1 until the size is reached. */
  lemma MovingStep(size: real, seen: nat)
    requires 0 < seen && seen as real <= size
    ensures Ceiling(1.0 / (size / seen as real)) <= 1
  {
    var ratio := size / seen as real;
    assert ratio * seen as real == size;
    assert ratio * seen as real >= 1.0 * seen as real;
    assert ratio >= 1.0;
    assert 1.0 / ratio <= 1.0;
  }

  /** The counters after any number of records, in closed form. */
  ghost predicate CountersMean(s: Sampler, x: Stream, n: nat)
    requires s.Valid() && x.Valid() && n <= |x.records|
  {
    var c := After(s, x, n);
    && c.seen == n
    && c.kept == CountSelected(s, x, n)
    && (s.Absolute() && s.config.kind != Stratified ==> c.kept == Min(n, s.Quota()))
    && (s.config.kind == Stratified ==>
        (forall key :: CountIn(c.groupSeen, key) == GroupSize(s, x, key, n)) &&
        (s.Absolute() ==> forall key :: CountIn(c.groupKept, key) == Min(GroupSize(s, x, key, n), s.Quota())))
  }

  /** The counting sampler makes exactly the stateless selection. */
  lemma {:induction false} SamplerSelects(s: Sampler, x: Stream, n: nat)
    requires s.Valid() && x.Valid() && n <= |x.records|
    ensures CountersMean(s, x, n)
    ensures n < |x.records| ==> (Keeps(s, x, n) <==> Selected(s, x, n))
  {
    if n > 0 {
      SamplerSelects(s, x, n - 1);
      MeaningStep(s, x, n - 1);
    }
    if n < |x.records| {
      KeepsIffSelected(s, x, n);
    }
  }

  lemma StepPosition(i: nat, step: nat)
    requires step >= 1
    ensures (i + 1) % step == 1 <==> step >= 2 && i % step == 0
  {
    if step >= 2 {
      var q, r := i / step, i % step;
      assert i == q * step + r;
      if r + 1 < step { ModOf(i + 1, q, r + 1, step); } else { ModOf(i + 1, q + 1, 0, step); }
    }
  }

  lemma ModOf(a: nat, q: nat, r: nat, step: nat)
    requires step >= 1 && r < step && a == q * step + r
    ensures a % step == r
  {
    SameQuotient(a / step, q, a % step, r, step);
  }

  lemma SameQuotient(p: int, q: int, b: nat, r: nat, step: nat)
    requires b < step && r < step && p * step + b == q * step + r
    ensures p == q
  {
    if p > q { Larger(p, q, step); } else if p < q { Larger(q, p, step); }
  }

  lemma Larger(p: int, q: int, step: nat)
    requires p > q
    ensures p * step >= q * step + step
  {
    var d := p - q - 1;
    assert d * step >= 0;
    assert p * step == (q + 1 + d) * step == q * step + step + d * step;
  }

  lemma KeepsIffSelected(s: Sampler, x: Stream, i: nat)
    requires s.Valid() && x.Valid() && i < |x.records|
    requires CountersMean(s, x, i)
    ensures Keeps(s, x, i) <==> Selected(s, x, i)
  {
    assert x.records[i] in x.records;
    if s.config.kind == Systematic {
      SystematicKeeps(s, x, i);
    }
  }

  lemma SystematicKeeps(s: Sampler, x: Stream, i: nat)
    requires s.Valid() && x.Valid() && i < |x.records| && s.config.kind == Systematic
    requires CountersMean(s, x, i)
    ensures Keeps(s, x, i) <==> Selected(s, x, i)
  {
    assert x.records[i] in x.records;
    if s.Absolute() {
      if i < s.Quota() { MovingStep(s.config.ratioOrSize, i + 1); }
      assert i % 1 == 0;
    } else {
      StepPosition(i, s.RatioStep());
    }
  }

  lemma MeaningStep(s: Sampler, x: Stream, i: nat)
    requires s.Valid() && x.Valid() && i < |x.records|
    requires CountersMean(s, x, i)
    ensures CountersMean(s, x, i + 1)
  {
    KeepsIffSelected(s, x, i);
    assert x.records[i] in x.records;
    var before, after := After(s, x, i), After(s, x, i + 1);
    var group := s.Group(x.records[i]);
    if s.config.kind == Stratified {
      forall key ensures CountIn(after.groupSeen, key) == GroupSize(s, x, key, i + 1) {}
      if s.Absolute() {
        forall key ensures CountIn(after.groupKept, key) == Min(GroupSize(s, x, key, i + 1), s.Quota()) {}
      }
    }
  }

  // ----- What the methods promise

  lemma {:induction false} OneGroup(s: Sampler, x: Stream, n: nat)
    requires x.Valid() && n <= |x.records|
    requires s.NoTarget()
    ensures GroupSize(s, x, "_all", n) == n
  {
    if n > 0 { OneGroup(s, x, n - 1); }
  }

  /** Every method given a size keeps exactly the first `int(size)` records of any stream, the
      stratified one when it has no target column: the moving step makes no difference. */
  lemma SizeKeepsPrefix(s: Sampler, x: Stream, i: nat)
    requires s.Valid() && s.config.ratioOrSize > 1.0 && x.Valid() && i < |x.records|
    requires s.config.kind == Stratified ==> s.config.targetColumn == None || s.config.targetColumn == Some("")
    ensures Keeps(s, x, i) <==> i < s.config.ratioOrSize.Floor
  {
    SamplerSelects(s, x, i);
    if s.config.kind == Stratified { OneGroup(s, x, i); }
  }

  /** A size keeps the first `int(size)` records of every group. */
  lemma SizeKeepsPrefixOfGroups(s: Sampler, x: Stream, i: nat)
    requires s.Valid() && s.Absolute() && x.Valid() && i < |x.records| && s.config.kind == Stratified
    ensures x.records[i].Obj?
    ensures Keeps(s, x, i) <==> GroupSize(s, x, s.Group(x.records[i]), i) < s.config.ratioOrSize.Floor
  {
    assert x.records[i] in x.records;
    SamplerSelects(s, x, i);
  }

  /** The step of a systematic ratio is 1 exactly above two thirds. */
  lemma RatioStepIsOne(s: Sampler)
    requires s.Valid() && s.config.ratioOrSize < 1.0
    ensures s.RatioStep() == 1 <==> s.config.ratioOrSize > 2.0 / 3.0
  {
    var r := s.config.ratioOrSize;
    var x := 1.0 / r;
    assert x * r == 1.0;
    assert (x - 1.5) * r == 1.0 - 1.5 * r;
    assert (x - 1.0) * r == 1.0 - r;
    assert x > 1.0;
  }

  lemma {:induction false} CountEvery(s: Sampler, x: Stream, n: nat)
    requires s.Valid() && x.Valid() && n <= |x.records|
    requires s.config.kind == Systematic && s.config.ratioOrSize < 1.0
    ensures CountSelected(s, x, n) ==
      if s.RatioStep() == 1 then 0 else (n + s.RatioStep() - 1) / s.RatioStep()
  {
    var step := s.RatioStep();
    if n == 0 {
      if step > 1 { ModOf(step - 1, 0, step - 1, step); }
    } else {
      CountEvery(s, x, n - 1);
      if step > 1 { NextMultiple(n - 1, step); }
    }
  }

  lemma NextMultiple(i: nat, step: nat)
    requires step > 1
    ensures (i + step) / step == (i + step - 1) / step + if i % step == 0 then 1 else 0
  {
    var q, r := i / step, i % step;
    assert i == q * step + r;
    assert i + step == (q + 1) * step + r;
    DivOf(i + step, q + 1, r, step);
    if r == 0 { DivOf(i + step - 1, q, step - 1, step); } else { DivOf(i + step - 1, q + 1, r - 1, step); }
  }

  lemma DivOf(a: nat, q: nat, r: nat, step: nat)
    requires step >= 1 && r < step && a == q * step + r
    ensures a / step == q
  {
    assert a == a / step * step + a % step;
    SameQuotient(a / step, q, a % step, r, step);
  }

  /** A systematic ratio below 1 keeps the records at positions 1 mod step, one in every step
      rounded up, exactly when the ratio is at most two thirds. Above, it keeps nothing at all. */
  lemma SystematicRatioCount(s: Sampler, x: Stream, n: nat)
    requires s.Valid() && x.Valid() && n <= |x.records|
    requires s.config.kind == Systematic && s.config.ratioOrSize < 1.0
    ensures After(s, x, n).kept ==
      if s.config.ratioOrSize <= 2.0 / 3.0 then (n + s.RatioStep() - 1) / s.RatioStep() else 0
    ensures forall i | 0 <= i < n ::
      Keeps(s, x, i) <==> s.config.ratioOrSize <= 2.0 / 3.0 && (i + 1) % s.RatioStep() == 1
  {
    RatioStepIsOne(s);
    SamplerSelects(s, x, n);
    CountEvery(s, x, n);
    forall i | 0 <= i < n
      ensures Keeps(s, x, i) <==> s.config.ratioOrSize <= 2.0 / 3.0 && (i + 1) % s.RatioStep() == 1
    {
      SamplerSelects(s, x, i);
      StepPosition(i, s.RatioStep());
    }
  }

  // ----- The per-group counters add up

  ghost function Total(m: map<string, nat>): nat
    decreases |m|
  {
    if m == map[] then 0
    else
      var key :| key in m;
      m[key] + Total(m - {key})
  }

  lemma {:induction false} TotalWithout(m: map<string, nat>, key: string)
    requires key in m
    ensures Total(m) == m[key] + Total(m - {key})
    decreases |m|
  {
    var first :| first in m && Total(m) == m[first] + Total(m - {first});
    if first != key {
      TotalWithout(m - {first}, key);
      TotalWithout(m - {key}, first);
      assert m - {first} - {key} == m - {key} - {first};
    }
  }

  lemma TotalCount(m: map<string, nat>, key: string)
    ensures Total(m[key := CountIn(m, key) + 1]) == Total(m) + 1
  {
    var more := m[key := CountIn(m, key) + 1];
    TotalWithout(more, key);
    assert more - {key} == m - {key};
    if key in m { TotalWithout(m, key); } else { assert m - {key} == m; }
  }

  lemma FeedTotals(s: Sampler, c: Counters, record: Json, draw: real)
    requires s.Valid() && record.Obj? && s.config.kind == Stratified
    ensures var after := FeedOnce(s, c, record, draw).0;
      && Total(after.groupSeen) - Total(c.groupSeen) == after.seen - c.seen == 1
      && Total(after.groupKept) - Total(c.groupKept) == after.kept - c.kept
  {
    hide Decides;
    TotalCount(c.groupSeen, s.Group(record));
    TotalCount(c.groupKept, s.Group(record));
  }

  lemma {:induction false} GroupCountersAddUp(s: Sampler, x: Stream, n: nat)
    requires s.Valid() && x.Valid() && n <= |x.records| && s.config.kind == Stratified
    ensures var c := After(s, x, n); Total(c.groupSeen) == c.seen == n && Total(c.groupKept) == c.kept
  {
    hide FeedOnce;
    if n > 0 {
      GroupCountersAddUp(s, x, n - 1);
      assert x.records[n - 1] in x.records;
      FeedTotals(s, After(s, x, n - 1), x.records[n - 1], x.draws(n - 1));
    }
  }

  // ----- The selection in terms of records, draws and numbers

  /** What a record is grouped by: the text of the column, or a mark for a record without it. */
  function Label(record: Json, column: string, str: Json -> string): string {
    match AtKeys(record, [column]) case Some(v) => str(v) case None => "_unknown"
  }

  /** How many of the first `n` records have the label. */
  function CountLabel(records: seq<Json>, column: string, str: Json -> string, text: string, n: nat): nat
    requires n <= |records|
  {
    if n == 0 then 0
    else CountLabel(records, column, str, text, n - 1) + if Label(records[n - 1], column, str) == text then 1 else 0
  }

  lemma LabelIsGroup(s: Sampler, record: Json)
    requires record.Obj? && s.config.targetColumn.Some? && s.config.targetColumn.value != ""
    ensures s.Group(record) == Label(record, s.config.targetColumn.value, s.str)
  {
    var column := s.config.targetColumn.value;
    var keys := [column];
    assert keys[1..] == [];
    assert AtKeys(Get(record, column, Null), keys[1..]) == Some(Get(record, column, Null));
  }

  lemma {:induction false} LabelsAreGroups(s: Sampler, x: Stream, text: string, n: nat)
    requires x.Valid() && n <= |x.records|
    requires s.config.targetColumn.Some? && s.config.targetColumn.value != ""
    ensures GroupSize(s, x, text, n) == CountLabel(x.records, s.config.targetColumn.value, s.str, text, n)
  {
    if n > 0 {
      assert x.records[n - 1] in x.records;
      LabelIsGroup(s, x.records[n - 1]);
      LabelsAreGroups(s, x, text, n - 1);
    }
  }

  /** The stratified method with a size keeps a record exactly when fewer than int(size) records before
      it have its text in the target column. */
  lemma StratifiedKeeps(s: Sampler, x: Stream, i: nat)
    requires s.Valid() && x.Valid() && i < |x.records|
    requires s.config.kind == Stratified && s.config.ratioOrSize > 1.0
    requires s.config.targetColumn.Some? && s.config.targetColumn.value != ""
    ensures var column := s.config.targetColumn.value;
      Keeps(s, x, i) <==>
      CountLabel(x.records, column, s.str, Label(x.records[i], column, s.str), i) < s.config.ratioOrSize.Floor
  {
    assert x.records[i] in x.records;
    SizeKeepsPrefixOfGroups(s, x, i);
    LabelIsGroup(s, x.records[i]);
    LabelsAreGroups(s, x, s.Group(x.records[i]), i);
  }

  /** A ratio of the drawing methods keeps exactly the records whose draw is below it, and the
      systematic ratio 1 keeps all. */
  lemma RatioKeeps(s: Sampler, x: Stream, i: nat)
    requires s.Valid() && x.Valid() && i < |x.records| && s.config.ratioOrSize <= 1.0
    requires s.config.kind == Systematic ==> s.config.ratioOrSize == 1.0
    ensures Keeps(s, x, i) <==> s.config.kind == Systematic || x.draws(i) < s.config.ratioOrSize
  {
    SamplerSelects(s, x, i);
  }

  /** A systematic ratio up to 2/3 keeps every `step`-th record from the first on, where `step` is the
      integer nearest to its inverse, the even one of two. */
  lemma SystematicKeepsEvery(s: Sampler, x: Stream, i: nat, step: nat)
    requires s.Valid() && x.Valid() && i < |x.records|
    requires s.config.kind == Systematic && s.config.ratioOrSize <= 2.0 / 3.0
    requires var inverse := 1.0 / s.config.ratioOrSize;
      && -0.5 <= step as real - inverse <= 0.5
      && (step as real - inverse == 0.5 || inverse - step as real == 0.5 ==> step % 2 == 0)
    ensures step >= 2 && (Keeps(s, x, i) <==> i % step == 0)
  {
    RatioStepIsOne(s);
    SamplerSelects(s, x, i);
    NearestIsUnique(1.0 / s.config.ratioOrSize, step);
    StepPosition(i, step);
  }

  lemma NearestIsUnique(x: real, n: int)
    requires -0.5 <= n as real - x <= 0.5
    requires n as real - x == 0.5 || x - n as real == 0.5 ==> n % 2 == 0
    ensures RoundHalfEven(x) == n
  {
    var m := RoundHalfEven(x);
    assert -1.0 <= m as real - n as real <= 1.0;
  }
}
