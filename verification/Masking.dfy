/** The masking walk that writes through a dotted path, and rule lists
    (`src/databridge/export/masking.py`). */
module Masking {
  import opened Wrappers
  import opened JsonValues
  import opened Paths

  datatype Action = Mask | Hash | Drop | Redact

  datatype Rule = Rule(fieldPath: string, action: Action) {
    function Parts(): (parts: seq<string>)
      ensures parts != []
    {
      Split(fieldPath, '.')
    }
  }

  /** The value an action leaves in place of `value`; Drop leaves none. */
  function Written(c: Codec, action: Action, value: Json): Option<Json> {
    match action
    case Mask => Some(Str(MASKED))
    case Hash => Some(Str(c.digest(value)))
    case Redact => Some(Str(REDACTED))
    case Drop => None
  }

  /** `node[slot] = w`, or `del node[slot]` when there is nothing to leave. */
  function Replace(node: Json, slot: Slot, w: Option<Json>): Json
    requires HasSlot(node, slot)
  {
    match w
    case Some(x) => SetChild(node, slot, x)
    case None => RemoveChild(node, slot)
  }

  /** `_apply_action` on a decoded container. */
  function ApplyAction(c: Codec, node: Json, slot: Slot, action: Action): Json
    requires HasSlot(node, slot)
  {
    Replace(node, slot, Written(c, action, Child(node, slot)))
  }

  /** A container that was text goes back to text. */
  function Encode(c: Codec, original: Json, node: Json): Json {
    if original.Str? then Str(c.dumps(node)) else node
  }

  /** `_apply_at_path`: the container after the action, and whether it was applied. */
  function ApplyAtPath(c: Codec, container: Json, parts: seq<string>, action: Action): (Json, bool)
    requires parts != []
    decreases parts
  {
    match DecodeAndIndex(c, container, parts[0])
    case (_, None) => (container, false)
    case (node, Some(slot)) =>
      if |parts| == 1 then (Encode(c, container, ApplyAction(c, node, slot, action)), true)
      else
        var (child, applied) := ApplyAtPath(c, Child(node, slot), parts[1..], action);
        (Encode(c, container, SetChild(node, slot, child)), applied)
  }

  // ----- One rule

  /** The write walk keeps trees valid, keeps the kind of the container it is given, and applies
      the action exactly when the read walk finds a value. */
  lemma {:induction false} WalksAgree(c: Codec, v: Json, parts: seq<string>, action: Action)
    requires Lawful(c) && Valid(v) && parts != []
    ensures var (out, applied) := ApplyAtPath(c, v, parts, action);
      && Valid(out)
      && (applied <==> Resolve(c, v, parts).Some?)
      && (out.Str? <==> v.Str?) && (out.Arr? <==> v.Arr?) && (out.Obj? <==> v.Obj?)
    decreases parts
  {
    var (node, at) := DecodeAndIndex(c, v, parts[0]);
    match at
    case None =>
    case Some(slot) =>
      var child := Child(node, slot);
      ChildValid(node, slot);
      if |parts| == 1 {
        match Written(c, action, child)
        case Some(w) => SetChildValid(node, slot, w);
        case None => RemoveChildValid(node, slot);
      } else {
        WalksAgree(c, child, parts[1..], action);
        SetChildValid(node, slot, ApplyAtPath(c, child, parts[1..], action).0);
      }
  }

  /** Nothing an action writes is read as a container by a later step. */
  lemma WrittenIsLeaf(c: Codec, action: Action, value: Json)
    requires Lawful(c) && action != Drop
    ensures !IsContainer(Decode(c, Written(c, action, value).value))
  {
    var text := Written(c, action, value).value.s;
    if action != Redact {
      assert text[0] != '[' && text[0] != '{' && !IsSpace(text[0]) by {
        if action == Hash { assert IsHex(c.digest(value)[0]); }
      }
      assert !LooksLikeContainer(text);
    }
  }

  /** What every path reads after a rule that applied: let `lp` and `lq` be the places that the
      rule's path and the reading path have before. Below the rule's place there is nothing; at it
      there is what the action wrote; above it there is the tree the rule makes of what was there;
      and anywhere else nothing has changed. */
  ghost predicate ReadsAfter(c: Codec, v: Json, p: seq<string>, action: Action, out: Json, q: seq<string>)
    requires p != [] && Location(c, v, p).Some?
  {
    var lp := Location(c, v, p).value;
    match Location(c, v, q)
    case None => Resolve(c, out, q) == None
    case Some(lq) =>
      if lq == lp then Resolve(c, out, q) == Written(c, action, Resolve(c, v, p).value)
      else if lp <= lq then Resolve(c, out, q) == None
      else if lq <= lp then
        Resolve(c, out, q) == Some(ApplyAtPath(c, Resolve(c, v, q).value, p[|q|..], action).0)
      else Resolve(c, out, q) == Resolve(c, v, q)
  }

  /** What a path reads once the value it led to has been dropped: nothing, unless that value was
      an element of a list with a successor. Then it reads the successor. */
  function Successor(c: Codec, v: Json, p: seq<string>): Option<Json>
    requires p != [] && Resolve(c, v, p).Some?
    decreases p
  {
    var (node, at) := DecodeAndIndex(c, v, p[0]);
    if |p| > 1 then Successor(c, Child(node, at.value), p[1..])
    else if at.value.AtIndex? && at.value.i + 1 < |node.items| then Some(node.items[at.value.i + 1])
    else None
  }

  /** Dropping the value at the path moves no other value into its place. */
  predicate MovesNothing(c: Codec, v: Json, p: seq<string>)
    requires p != []
  {
    Resolve(c, v, p).Some? ==> Successor(c, v, p).None?
  }

  lemma ReplaceLaws(node: Json, slot: Slot, w: Option<Json>, key: string)
    requires Valid(node) && HasSlot(node, slot)
    requires w.None? ==> slot.AtKey? || slot.i + 1 == |node.items|
    ensures var at := Locate(node, key);
      Locate(Replace(node, slot, w), key) == if at == Some(slot) && w.None? then None else at
    ensures var at := Locate(Replace(node, slot, w), key);
      at.Some? ==>
        && HasSlot(node, at.value)
        && Child(Replace(node, slot, w), at.value) ==
           if at.value == slot && w.Some? then w.value else Child(node, at.value)
  {
    var other := match node case Arr(_) => AtIndex(if IsDigits(key) then ToNat(key) else 0) case _ => AtKey(key);
    if w.Some? {
      SetChildLaws(node, slot, w.value, other);
    } else if slot.AtKey? {
      RemoveKeyLaws(node, slot.k, other);
    }
  }

  lemma ReplaceValid(node: Json, slot: Slot, w: Option<Json>)
    requires Valid(node) && HasSlot(node, slot) && (w.Some? ==> Valid(w.value))
    ensures Valid(Replace(node, slot, w)) && IsContainer(Replace(node, slot, w))
  {
    if w.Some? { SetChildValid(node, slot, w.value); } else { RemoveChildValid(node, slot); }
  }

  /** What a rule leaves in the first slot of its path. */
  function Left(c: Codec, child: Json, p: seq<string>, action: Action): Option<Json>
    requires p != []
  {
    if |p| == 1 then Written(c, action, child) else Some(ApplyAtPath(c, child, p[1..], action).0)
  }

  /** The container after a rule is, once decoded, the one before with that slot replaced. */
  lemma FirstStep(c: Codec, v: Json, p: seq<string>, action: Action)
    requires Lawful(c) && Valid(v) && p != []
    requires Locate(Decode(c, v), p[0]).Some?
    ensures var (node, at) := DecodeAndIndex(c, v, p[0]);
      Decode(c, ApplyAtPath(c, v, p, action).0) == Replace(node, at.value, Left(c, Child(node, at.value), p, action))
  {
    var (node, at) := DecodeAndIndex(c, v, p[0]);
    var child := Child(node, at.value);
    ChildValid(node, at.value);
    if |p| > 1 { WalksAgree(c, child, p[1..], action); }
    ReplaceValid(node, at.value, Left(c, child, p, action));
  }

  lemma ReadWhole(c: Codec, v: Json, p: seq<string>, action: Action)
    requires p != [] && Resolve(c, v, p).Some?
    ensures ReadsAfter(c, v, p, action, ApplyAtPath(c, v, p, action).0, [])
  {
    assert p[0..] == p;
  }

  lemma {:induction false} ReadAfterWrite(c: Codec, v: Json, p: seq<string>, action: Action, q: seq<string>)
    requires Lawful(c) && Valid(v) && p != [] && Resolve(c, v, p).Some?
    requires action == Drop ==> MovesNothing(c, v, p)
    ensures ReadsAfter(c, v, p, action, ApplyAtPath(c, v, p, action).0, q)
    decreases p
  {
    if q == [] {
      ReadWhole(c, v, p, action);
      return;
    }
    hide ReadsAfter, ApplyAtPath;
    var (node, at) := DecodeAndIndex(c, v, p[0]);
    var child := Child(node, at.value);
    FirstStep(c, v, p, action);
    ReplaceLaws(node, at.value, Left(c, child, p, action), q[0]);
    if Locate(node, q[0]) == at {
      if |p| == 1 {
        ReadAtLast(c, v, p, action, q);
      } else {
        ChildValid(node, at.value);
        ReadAfterWrite(c, child, p[1..], action, q[1..]);
        ReadBelow(c, v, p, action, q);
      }
    } else {
      ReadBeside(c, v, p, action, q);
    }
  }

  /** The reading path leaves the rule's path at the first step. */
  lemma ReadBeside(c: Codec, v: Json, p: seq<string>, action: Action, q: seq<string>)
    requires p != [] && q != [] && Location(c, v, p).Some?
    requires var node, out := Decode(c, v), Decode(c, ApplyAtPath(c, v, p, action).0);
      && Locate(node, q[0]) != Locate(node, p[0])
      && Locate(out, q[0]) == Locate(node, q[0])
      && (Locate(node, q[0]).Some? ==> Child(out, Locate(node, q[0]).value) == Child(node, Locate(node, q[0]).value))
    ensures ReadsAfter(c, v, p, action, ApplyAtPath(c, v, p, action).0, q)
  {
    var lp, lq := Location(c, v, p).value, Location(c, v, q);
    if lq.Some? {
      assert lp[0] != lq.value[0];
    }
  }

  /** The reading path enters the slot that a one-segment rule acts on. */
  lemma ReadAtLast(c: Codec, v: Json, p: seq<string>, action: Action, q: seq<string>)
    requires Lawful(c) && |p| == 1 && q != [] && Location(c, v, p).Some?
    requires var node, out := Decode(c, v), Decode(c, ApplyAtPath(c, v, p, action).0);
      && Locate(node, q[0]) == Locate(node, p[0])
      && var w := Left(c, Child(node, Locate(node, p[0]).value), p, action);
      if w.None? then Locate(out, q[0]).None?
      else Locate(out, q[0]) == Locate(node, q[0]) && Child(out, Locate(node, q[0]).value) == w.value
    ensures ReadsAfter(c, v, p, action, ApplyAtPath(c, v, p, action).0, q)
  {
    var slot := Locate(Decode(c, v), p[0]).value;
    var child := Child(Decode(c, v), slot);
    assert Location(c, child, p[1..]) == Some([]) && [slot] + [] == [slot];
    if |q| > 1 && action != Drop {
      WrittenIsLeaf(c, action, child);
    }
  }

  lemma PrefixBehind<T>(x: T, s: seq<T>, t: seq<T>)
    ensures [x] + s <= [x] + t <==> s <= t
  {
    if [x] + s <= [x] + t {
      assert s == ([x] + s)[1..] && t == ([x] + t)[1..];
    }
  }

  /** Both paths enter one slot, below which the claim is already known. */
  lemma ReadBelow(c: Codec, v: Json, p: seq<string>, action: Action, q: seq<string>)
    requires |p| > 1 && q != [] && Location(c, v, p).Some?
    requires var node, out := Decode(c, v), Decode(c, ApplyAtPath(c, v, p, action).0);
      && Locate(node, q[0]) == Locate(out, q[0]) == Locate(node, p[0])
      && var slot := Locate(node, p[0]).value;
      && Child(out, slot) == ApplyAtPath(c, Child(node, slot), p[1..], action).0
      && ReadsAfter(c, Child(node, slot), p[1..], action, Child(out, slot), q[1..])
    ensures ReadsAfter(c, v, p, action, ApplyAtPath(c, v, p, action).0, q)
  {
    var slot := Locate(Decode(c, v), p[0]).value;
    var child := Child(Decode(c, v), slot);
    var lp, lq := Location(c, child, p[1..]).value, Location(c, child, q[1..]);
    assert Location(c, v, p) == Some([slot] + lp);
    if lq.Some? {
      assert Location(c, v, q) == Some([slot] + lq.value);
      PrefixBehind(slot, lp, lq.value);
      PrefixBehind(slot, lq.value, lp);
      if lq.value <= lp {
        assert p[|q|..] == p[1..][|q[1..]|..];
      }
    }
  }

  /** Two readings that differ at most in how a container is written down; its children are
      compared by the longer paths. */
  predicate SameReading(c: Codec, x: Option<Json>, y: Option<Json>) {
    x == y ||
    (x.Some? && y.Some? && x.value.Str? == y.value.Str? &&
     var (m, n) := (Decode(c, x.value), Decode(c, y.value));
     IsContainer(m) && m.Arr? == n.Arr? && m.Obj? == n.Obj?)
  }

  /** The slots that a path passes through before it stops. */
  function Reached(c: Codec, v: Json, p: seq<string>): seq<Slot>
    decreases p
  {
    if p == [] then []
    else
      match DecodeAndIndex(c, v, p[0])
      case (node, Some(slot)) => [slot] + Reached(c, Child(node, slot), p[1..])
      case (_, None) => []
  }

  /** What a path reads after a rule whose own path does not resolve: only above the place where the
      rule stopped was anything touched, and there a string container may have been serialised
      anew. Every other path reads exactly what it read before. */
  ghost predicate ReadsOnMiss(c: Codec, v: Json, p: seq<string>, action: Action, out: Json, q: seq<string>)
    requires p != []
  {
    var lq := Location(c, v, q);
    if lq.Some? && lq.value < Reached(c, v, p) then
      && |q| < |p|
      && Resolve(c, out, q) == Some(ApplyAtPath(c, Resolve(c, v, q).value, p[|q|..], action).0)
      && SameReading(c, Resolve(c, v, q), Resolve(c, out, q))
    else Resolve(c, out, q) == Resolve(c, v, q)
  }

  lemma {:induction false} ReadAfterMiss(c: Codec, v: Json, p: seq<string>, action: Action, q: seq<string>)
    requires Lawful(c) && Valid(v) && p != [] && Resolve(c, v, p).None?
    ensures ReadsOnMiss(c, v, p, action, ApplyAtPath(c, v, p, action).0, q)
    decreases p
  {
    var (node, at) := DecodeAndIndex(c, v, p[0]);
    if at.Some? {
      var child := Child(node, at.value);
      FirstStep(c, v, p, action);
      ChildValid(node, at.value);
      if q == [] {
        MissAbove(c, v, p, action);
      } else {
        ReplaceLaws(node, at.value, Left(c, child, p, action), q[0]);
        if Locate(node, q[0]) == at {
          ReadAfterMiss(c, child, p[1..], action, q[1..]);
          MissBelow(c, v, p, action, q);
        } else if Location(c, v, q).Some? {
          assert Location(c, v, q).value[0] != at.value;
        }
      }
    }
  }

  /** So a rule that does not resolve changes no leaf, and neither makes a path resolve nor keeps one
      from it. */
  lemma MissLeavesLeaves(c: Codec, v: Json, p: seq<string>, action: Action, q: seq<string>)
    requires Lawful(c) && Valid(v) && p != [] && Resolve(c, v, p).None?
    ensures var (before, after) := (Resolve(c, v, q), Resolve(c, ApplyAtPath(c, v, p, action).0, q));
      && (before.None? <==> after.None?)
      && (before.Some? && !Decode(c, before.value).Arr? && !Decode(c, before.value).Obj? ==> after == before)
      && (before.Some? ==> after.Some? && after.value.Str? == before.value.Str?
                           && Decode(c, after.value).Arr? == Decode(c, before.value).Arr?
                           && Decode(c, after.value).Obj? == Decode(c, before.value).Obj?)
  {
    ReadAfterMiss(c, v, p, action, q);
  }

  /** The container that the rule enters. */
  lemma MissAbove(c: Codec, v: Json, p: seq<string>, action: Action)
    requires Lawful(c) && Valid(v) && p != [] && Resolve(c, v, p).None?
    requires Locate(Decode(c, v), p[0]).Some?
    ensures ReadsOnMiss(c, v, p, action, ApplyAtPath(c, v, p, action).0, [])
  {
    FirstStep(c, v, p, action);
    WalksAgree(c, v, p, action);
    assert p[0..] == p;
  }

  /** Both paths enter one slot, below which the claim is already known. */
  lemma MissBelow(c: Codec, v: Json, p: seq<string>, action: Action, q: seq<string>)
    requires |p| > 1 && q != []
    requires var node, out := Decode(c, v), Decode(c, ApplyAtPath(c, v, p, action).0);
      && Locate(node, p[0]).Some? && Locate(node, q[0]) == Locate(out, q[0]) == Locate(node, p[0])
      && var slot := Locate(node, p[0]).value;
      && Child(out, slot) == ApplyAtPath(c, Child(node, slot), p[1..], action).0
      && ReadsOnMiss(c, Child(node, slot), p[1..], action, Child(out, slot), q[1..])
    ensures ReadsOnMiss(c, v, p, action, ApplyAtPath(c, v, p, action).0, q)
  {
    var slot := Locate(Decode(c, v), p[0]).value;
    var child := Child(Decode(c, v), slot);
    var reached, lq := Reached(c, child, p[1..]), Location(c, child, q[1..]);
    assert Reached(c, v, p) == [slot] + reached;
    if lq.Some? {
      assert Location(c, v, q) == Some([slot] + lq.value);
      PrefixBehind(slot, lq.value, reached);
      if lq.value < reached { assert p[1..][|q[1..]|..] == p[|q|..]; }
    }
  }

  lemma {:induction false} ReadAfterDrop(c: Codec, v: Json, p: seq<string>)
    requires Lawful(c) && Valid(v) && p != [] && Resolve(c, v, p).Some?
    ensures Resolve(c, ApplyAtPath(c, v, p, Drop).0, p) == Successor(c, v, p)
    decreases p
  {
    var (node, at) := DecodeAndIndex(c, v, p[0]);
    var child := Child(node, at.value);
    FirstStep(c, v, p, Drop);
    ChildValid(node, at.value);
    if |p| > 1 {
      ReplaceLaws(node, at.value, Left(c, child, p, Drop), p[0]);
      ReadAfterDrop(c, child, p[1..]);
    } else if at.value.AtKey? {
      ReplaceLaws(node, at.value, None, p[0]);
    } else {
      DropElement(node, at.value.i, p[0]);
    }
  }

  /** A drop meets the reading law on every path exactly when it moves nothing. */
  lemma DropMeetsLaw(c: Codec, v: Json, p: seq<string>)
    requires Lawful(c) && Valid(v) && p != [] && Resolve(c, v, p).Some?
    ensures (forall q :: ReadsAfter(c, v, p, Drop, ApplyAtPath(c, v, p, Drop).0, q)) <==> Successor(c, v, p).None?
  {
    ReadAfterDrop(c, v, p);
    if Successor(c, v, p).None? {
      forall q ensures ReadsAfter(c, v, p, Drop, ApplyAtPath(c, v, p, Drop).0, q) { ReadAfterWrite(c, v, p, Drop, q); }
    } else {
      assert !ReadsAfter(c, v, p, Drop, ApplyAtPath(c, v, p, Drop).0, p);
    }
  }

  lemma DropElement(node: Json, i: nat, key: string)
    requires node.Arr? && Locate(node, key) == Some(AtIndex(i))
    ensures var after := RemoveChild(node, AtIndex(i));
      if i + 1 < |node.items| then Locate(after, key) == Some(AtIndex(i)) && Child(after, AtIndex(i)) == node.items[i + 1]
      else Locate(after, key) == None
  {
  }

  /** A dropped path is gone exactly when the value was a dict entry or ended its list. */
  lemma {:induction false} DropRemoves(c: Codec, v: Json, p: seq<string>)
    requires Lawful(c) && Valid(v) && p != [] && Resolve(c, v, p).Some?
    ensures
      var n := |p| - 1;
      var parent := Resolve(c, v, p[..n]);
      && parent.Some?
      && (Resolve(c, ApplyAtPath(c, v, p, Drop).0, p).None? <==>
          match Location(c, v, p).value[n]
          case AtKey(_) => true
          case AtIndex(i) => Decode(c, parent.value).Arr? && i + 1 == |Decode(c, parent.value).items|)
  {
    ReadAfterDrop(c, v, p);
    LastStep(c, v, p);
  }

  /** The last step of a path starts at the value of the path without its last segment. */
  lemma {:induction false} LastStep(c: Codec, v: Json, p: seq<string>)
    requires p != [] && Resolve(c, v, p).Some?
    ensures
      var n := |p| - 1;
      var parent := Resolve(c, v, p[..n]);
      && parent.Some?
      && var node := Decode(c, parent.value);
      && var slot := Location(c, v, p).value[n];
      && HasSlot(node, slot)
      && Successor(c, v, p) ==
         if slot.AtIndex? && slot.i + 1 < |node.items| then Some(node.items[slot.i + 1]) else None
    decreases p
  {
    var (node, at) := DecodeAndIndex(c, v, p[0]);
    var child := Child(node, at.value);
    if |p| == 1 {
      assert p[..0] == [] && Location(c, child, p[1..]) == Some([]);
    } else {
      LastStep(c, child, p[1..]);
      assert p[..|p| - 1][1..] == p[1..][..|p| - 2];
    }
  }

  /** What each action leaves at its path. */
  lemma ActionsLeave(c: Codec, v: Json, p: seq<string>)
    requires Lawful(c) && Valid(v) && p != [] && Resolve(c, v, p).Some?
    ensures Resolve(c, ApplyAtPath(c, v, p, Mask).0, p) == Some(Str("***"))
    ensures Resolve(c, ApplyAtPath(c, v, p, Redact).0, p) == Some(Str("[REDACTED]"))
    ensures Resolve(c, ApplyAtPath(c, v, p, Hash).0, p) == Some(Str(c.digest(Resolve(c, v, p).value)))
    ensures Successor(c, v, p).None? ==> Resolve(c, ApplyAtPath(c, v, p, Drop).0, p) == None
  {
    ReadAfterWrite(c, v, p, Mask, p);
    ReadAfterWrite(c, v, p, Redact, p);
    ReadAfterWrite(c, v, p, Hash, p);
    ReadAfterDrop(c, v, p);
  }

  // ----- Rule lists

  function ApplyRule(c: Codec, v: Json, rule: Rule): Json {
    ApplyAtPath(c, v, rule.Parts(), rule.action).0
  }

  /** The record after the whole list; `MaskAll(c, record, rules[..k])` is the record that
      rule `k` meets. */
  function MaskAll(c: Codec, record: Json, rules: seq<Rule>): Json {
    if rules == [] then record
    else ApplyRule(c, MaskAll(c, record, rules[..|rules| - 1]), rules[|rules| - 1])
  }

  /** Rules are applied first to last. */
  lemma {:induction false} MaskAllInOrder(c: Codec, record: Json, first: seq<Rule>, rest: seq<Rule>)
    ensures MaskAll(c, record, first + rest) == MaskAll(c, MaskAll(c, record, first), rest)
    ensures |rest| == 1 ==>
      MaskAll(c, record, first + rest)
      == ApplyAtPath(c, MaskAll(c, record, first), Split(rest[0].fieldPath, '.'), rest[0].action).0
    decreases |rest|
  {
    if rest == [] {
      assert first + rest == first;
    } else {
      var n := |rest| - 1;
      assert (first + rest)[..|first| + n] == first + rest[..n];
      MaskAllInOrder(c, record, first, rest[..n]);
    }
  }

  lemma {:induction false} MaskAllValid(c: Codec, record: Json, rules: seq<Rule>)
    requires Lawful(c) && Valid(record)
    ensures Valid(MaskAll(c, record, rules))
    ensures var out := MaskAll(c, record, rules); (record.Arr? <==> out.Arr?) && (record.Obj? <==> out.Obj?)
  {
    if rules != [] {
      var n := |rules| - 1;
      MaskAllValid(c, record, rules[..n]);
      WalksAgree(c, MaskAll(c, record, rules[..n]), rules[n].Parts(), rules[n].action);
    }
  }

  /** Every drop in the list meets a dict entry, the last element of a list, or nothing, when its turn
      comes. */
  ghost predicate DropsMoveNothing(c: Codec, record: Json, rules: seq<Rule>) {
    forall k | 0 <= k < |rules| && rules[k].action == Drop ::
      MovesNothing(c, MaskAll(c, record, rules[..k]), rules[k].Parts())
  }

  /** `w` is what rule `k` writes in its turn, at the place that `p` then addresses. */
  predicate WroteAt(c: Codec, record: Json, rules: seq<Rule>, k: nat, p: seq<string>, w: Json)
    requires k < |rules|
  {
    var before := MaskAll(c, record, rules[..k]);
    var parts := rules[k].Parts();
    && Location(c, before, p).Some?
    && Location(c, before, parts) == Location(c, before, p)
    && Written(c, rules[k].action, Resolve(c, before, parts).value) == Some(w)
  }

  /** The path reads nothing, or what some rule from the `j`-th on wrote there. */
  ghost predicate Covered(c: Codec, record: Json, rules: seq<Rule>, j: nat, p: seq<string>) {
    match Resolve(c, MaskAll(c, record, rules), p)
    case None => true
    case Some(w) => exists k | j <= k < |rules| :: WroteAt(c, record, rules, k, p, w)
  }

  /** A path whose place is a prefix of another's leads the way there. */
  lemma {:induction false} ResolveThrough(c: Codec, v: Json, q: seq<string>, p: seq<string>)
    requires Location(c, v, q).Some? && Location(c, v, p).Some?
    requires Location(c, v, q).value <= Location(c, v, p).value
    ensures Resolve(c, v, p) == Resolve(c, Resolve(c, v, q).value, p[|q|..])
    decreases q
  {
    if q == [] {
      assert p[0..] == p;
    } else {
      var (node, at) := DecodeAndIndex(c, v, q[0]);
      var lq, lp := Location(c, v, q).value, Location(c, v, p).value;
      assert lp[0] == lq[0] && lq[1..] <= lp[1..];
      ResolveThrough(c, Child(node, at.value), q[1..], p[1..]);
      assert p[|q|..] == p[1..][|q[1..]|..];
    }
  }

  /** What one more rule can do to a path that reads nothing, or a value that is no container. */
  lemma RuleOnLeaf(c: Codec, before: Json, rule: Rule, p: seq<string>)
    requires Lawful(c) && Valid(before)
    requires rule.action == Drop ==> MovesNothing(c, before, rule.Parts())
    requires Resolve(c, before, p).Some? ==> !IsContainer(Decode(c, Resolve(c, before, p).value))
    ensures var now := Resolve(c, ApplyRule(c, before, rule), p);
      && (Resolve(c, before, p) == None ==> now == None)
      && (now == None || now == Resolve(c, before, p) ||
          (Location(c, before, rule.Parts()) == Location(c, before, p) &&
           now == Written(c, rule.action, Resolve(c, before, rule.Parts()).value)))
  {
    var parts := rule.Parts();
    if Resolve(c, before, parts).None? {
      ReadAfterMiss(c, before, parts, rule.action, p);
    } else {
      ReadAfterWrite(c, before, parts, rule.action, p);
      var lp, lq := Location(c, before, parts).value, Location(c, before, p);
      if lq.Some? && lq.value <= lp && lq.value != lp {
        ResolveThrough(c, before, p, parts);
        assert false;
      }
    }
  }

  /** No rule of the list is defeated by the others, in whatever order, however their paths
      overlap, nest or alias: in the result its path reads nothing, or exactly the value that it
      or a later rule wrote at that place. */
  lemma {:induction false} NoRuleIsDefeated(c: Codec, record: Json, rules: seq<Rule>, j: nat)
    requires Lawful(c) && Valid(record) && j < |rules|
    requires DropsMoveNothing(c, record, rules)
    ensures Covered(c, record, rules, j, rules[j].Parts())
    decreases |rules|
  {
    hide Resolve, Location, ApplyAtPath, MovesNothing;
    var n := |rules| - 1;
    var before := MaskAll(c, record, rules[..n]);
    var p := rules[j].Parts();
    MaskAllValid(c, record, rules[..n]);
    if j < n {
      assert forall k | 0 <= k < n :: rules[..n][..k] == rules[..k];
      NoRuleIsDefeated(c, record, rules[..n], j);
      var prior := Resolve(c, before, p);
      if prior.Some? {
        var k :| j <= k < n && WroteAt(c, record, rules[..n], k, p, prior.value);
        assert WroteAt(c, record, rules, k, p, prior.value);
        WrittenIsLeaf(c, rules[k].action, Resolve(c, MaskAll(c, record, rules[..k]), rules[k].Parts()).value);
      }
      RuleOnLeaf(c, before, rules[n], p);
    } else if Resolve(c, before, p).None? {
      ReadAfterMiss(c, before, p, rules[n].action, p);
    } else {
      ReadAfterWrite(c, before, p, rules[n].action, p);
    }
    var now := Resolve(c, MaskAll(c, record, rules), p);
    if now.Some? && (j == n || now != Resolve(c, before, p)) {
      assert WroteAt(c, record, rules, n, p, now.value);
    }
  }

  /** In its turn, the rule finds a value at the place that `p` addresses, and `w` is what its action
      stands for. */
  ghost predicate LeftBy(c: Codec, before: Json, rule: Rule, p: seq<string>, w: Json) {
    && Location(c, before, p).Some?
    && Location(c, before, Split(rule.fieldPath, '.')) == Location(c, before, p)
    && match rule.action
       case Mask => w == Str("***")
       case Redact => w == Str("[REDACTED]")
       case Hash => w == Str(c.digest(Resolve(c, before, Split(rule.fieldPath, '.')).value))
       case Drop => false
  }

  /** The path of rule `j` reads nothing in `out`, or the text that the action of that rule, or of a
      later one at the same place, stands for. */
  ghost predicate KeepsPromise(c: Codec, record: Json, rules: seq<Rule>, j: nat, out: Json)
    requires j < |rules|
  {
    var now := Resolve(c, out, Split(rules[j].fieldPath, '.'));
    now.None? || exists k | j <= k < |rules| ::
      LeftBy(c, MaskAll(c, record, rules[..k]), rules[k], Split(rules[j].fieldPath, '.'), now.value)
  }

  lemma RuleListLeaves(c: Codec, record: Json, rules: seq<Rule>, j: nat)
    requires Lawful(c) && Valid(record) && j < |rules|
    requires DropsMoveNothing(c, record, rules)
    ensures KeepsPromise(c, record, rules, j, MaskAll(c, record, rules))
  {
    NoRuleIsDefeated(c, record, rules, j);
    var p := rules[j].Parts();
    var now := Resolve(c, MaskAll(c, record, rules), p);
    if now.Some? {
      var k :| j <= k < |rules| && WroteAt(c, record, rules, k, p, now.value);
      assert LeftBy(c, MaskAll(c, record, rules[..k]), rules[k], p, now.value);
    }
  }

  /** The last rule of a list has the last word on its path. */
  lemma LastRuleWins(c: Codec, record: Json, rules: seq<Rule>)
    requires Lawful(c) && Valid(record) && rules != []
    requires var n := |rules| - 1;
      Resolve(c, MaskAll(c, record, rules[..n]), Split(rules[n].fieldPath, '.')).Some?
    ensures var n := |rules| - 1;
      var p := Split(rules[n].fieldPath, '.');
      var now := Resolve(c, MaskAll(c, record, rules), p);
      && (rules[n].action == Mask ==> now == Some(Str("***")))
      && (rules[n].action == Redact ==> now == Some(Str("[REDACTED]")))
      && (rules[n].action == Hash ==>
          now == Some(Str(c.digest(Resolve(c, MaskAll(c, record, rules[..n]), p).value))))
  {
    var n := |rules| - 1;
    MaskAllValid(c, record, rules[..n]);
    ActionsLeave(c, MaskAll(c, record, rules[..n]), rules[n].Parts());
  }

  // ----- Paths of dict keys

  /** The path enters no list as far as it goes. */
  predicate Keyed(c: Codec, v: Json, p: seq<string>)
    decreases p
  {
    p != [] ==>
      match DecodeAndIndex(c, v, p[0])
      case (node, Some(slot)) => !node.Arr? && Keyed(c, Child(node, slot), p[1..])
      case (node, None) => !node.Arr?
  }

  lemma {:induction false} KeyedMovesNothing(c: Codec, v: Json, p: seq<string>)
    requires Keyed(c, v, p) && p != []
    ensures MovesNothing(c, v, p)
    decreases p
  {
    if |p| > 1 && Locate(Decode(c, v), p[0]).Some? {
      KeyedMovesNothing(c, Child(Decode(c, v), Locate(Decode(c, v), p[0]).value), p[1..]);
    }
  }

  /** No rule makes a path enter a list. */
  lemma {:induction false} KeyedStays(c: Codec, v: Json, p: seq<string>, q: seq<string>, action: Action)
    requires Lawful(c) && Valid(v) && q != [] && Keyed(c, v, p)
    ensures Keyed(c, ApplyAtPath(c, v, q, action).0, p)
    decreases p
  {
    var (node, at) := DecodeAndIndex(c, v, q[0]);
    if p != [] && at.Some? {
      var child := Child(node, at.value);
      FirstStep(c, v, q, action);
      ChildValid(node, at.value);
      ReplaceLaws(node, at.value, Left(c, child, q, action), p[0]);
      if Locate(node, p[0]) == at {
        if |q| > 1 {
          KeyedStays(c, child, p[1..], q[1..], action);
        } else if action != Drop {
          WrittenIsLeaf(c, action, child);
        }
      }
    }
  }

  lemma {:induction false} KeyedThroughout(c: Codec, record: Json, rules: seq<Rule>, p: seq<string>)
    requires Lawful(c) && Valid(record) && Keyed(c, record, p)
    ensures Keyed(c, MaskAll(c, record, rules), p)
  {
    if rules != [] {
      var n := |rules| - 1;
      KeyedThroughout(c, record, rules[..n], p);
      MaskAllValid(c, record, rules[..n]);
      KeyedStays(c, MaskAll(c, record, rules[..n]), p, rules[n].Parts(), rules[n].action);
    }
  }

  /** When the drop rules of a list enter no list of the record, no rule of the list is defeated:
      that they move nothing, each in its turn, follows from the record alone. */
  lemma KeyedDropsDefeatNothing(c: Codec, record: Json, rules: seq<Rule>)
    requires Lawful(c) && Valid(record)
    requires forall k | 0 <= k < |rules| && rules[k].action == Drop :: Keyed(c, record, rules[k].Parts())
    ensures DropsMoveNothing(c, record, rules)
    ensures forall j | 0 <= j < |rules| :: Covered(c, record, rules, j, rules[j].Parts())
  {
    forall k | 0 <= k < |rules| && rules[k].action == Drop
      ensures MovesNothing(c, MaskAll(c, record, rules[..k]), rules[k].Parts())
    {
      KeyedThroughout(c, record, rules[..k], rules[k].Parts());
      KeyedMovesNothing(c, MaskAll(c, record, rules[..k]), rules[k].Parts());
    }
    forall j | 0 <= j < |rules| ensures Covered(c, record, rules, j, rules[j].Parts()) {
      NoRuleIsDefeated(c, record, rules, j);
    }
  }

  // ----- Drops that move something

  /** A drop on its own is defeated exactly when it moves a successor into the place it empties. */
  lemma LoneDrop(c: Codec, record: Json, rule: Rule)
    requires Lawful(c) && Valid(record) && rule.action == Drop
    ensures Covered(c, record, [rule], 0, rule.Parts())
       <==> Resolve(c, record, rule.Parts()).None? || Successor(c, record, rule.Parts()).None?
  {
    var rules := [rule];
    assert rules[..0] == [] && MaskAll(c, record, rules[..0]) == record;
    assert MaskAll(c, record, rules) == ApplyRule(c, record, rule);
    if Resolve(c, record, rule.Parts()).None? {
      ReadAfterMiss(c, record, rule.Parts(), Drop, rule.Parts());
    } else {
      ReadAfterDrop(c, record, rule.Parts());
    }
  }

  lemma ReadElement(c: Codec, list: Json)
    requires list.Arr? && |list.items| == 2
    ensures var first := ["0"];
      && Location(c, list, first) == Some([AtIndex(0)])
      && Resolve(c, list, first) == Some(list.items[0])
      && Successor(c, list, first) == Some(list.items[1])
  {
    var first := ["0"];
    assert "0"[..0] == "" && IsDigits("0") && ToNat("0") == 0;
    assert Locate(list, "0") == Some(AtIndex(0));
    var none: seq<Slot> := [];
    assert Location(c, list.items[0], first[1..]) == Some(none) && [AtIndex(0)] + none == [AtIndex(0)];
  }

  lemma ReadElementBelow(c: Codec, key: string, list: Json)
    requires list.Arr? && |list.items| == 2
    ensures var (record, p) := (Obj([Field(key, list)]), [key, "0"]);
      && Location(c, record, p) == Some([AtKey(key), AtIndex(0)])
      && Resolve(c, record, p) == Some(list.items[0])
      && Successor(c, record, p) == Some(list.items[1])
  {
    var (record, p) := (Obj([Field(key, list)]), [key, "0"]);
    assert p[1..] == ["0"] && Locate(record, key) == Some(AtKey(key)) && Child(record, AtKey(key)) == list;
    ReadElement(c, list);
    assert [AtKey(key)] + [AtIndex(0)] == [AtKey(key), AtIndex(0)];
  }

  lemma TwoStringsValid()
    ensures Valid(Obj([Field("a", Arr([Str("x"), Str("y")]))]))
  {
  }

  /** Dropping the first of two list elements leaves the other at its path. */
  lemma DropOnListIsDefeated(c: Codec)
    requires Lawful(c)
    ensures var record := Obj([Field("a", Arr([Str("x"), Str("y")]))]);
      var rule := Rule("a.0", Drop);
      && Resolve(c, ApplyRule(c, record, rule), rule.Parts()) == Some(Str("y"))
      && !MovesNothing(c, record, rule.Parts())
      && !Covered(c, record, [rule], 0, rule.Parts())
  {
    hide Resolve, ApplyAtPath, Covered, Successor, Valid;
    var list := Arr([Str("x"), Str("y")]);
    var record := Obj([Field("a", list)]);
    var p := ["a", "0"];
    assert Rule("a.0", Drop).Parts() == p by {
      SplitJoin(p, '.');
      assert Join(p, '.') == "a.0";
    }
    TwoStringsValid();
    ReadElementBelow(c, "a", list);
    ReadAfterDrop(c, record, p);
    LoneDrop(c, record, Rule("a.0", Drop));
  }
}
