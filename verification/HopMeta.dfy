/** Hop counts carried on looped items (packages/queue/src/queue/loop/hop-meta.util.ts,
    and with-worker.ts, lines 270-315). */
module HopMeta {
  import opened Options

  /** JavaScript values as far as the stamping code can tell them apart; a number that is not
      finite is as opaque to it as any other value. */
  datatype Value =
    | Undefined
    | Number(n: real)
    | PlainObject(fields: map<string, Value>)
    | Opaque(tag: nat)

  const QKITT_QUEUE_KEY: string := "__qkittQueue"

  /** Property read on a plain object: own fields only. */
  function Get(v: Value, key: string): Value {
    if v.PlainObject? && key in v.fields then v.fields[key] else Undefined
  }

  /** `isPlainObject(v) ? v : {}` as the source of a spread. */
  function FieldsOf(v: Value): map<string, Value> {
    if v.PlainObject? then v.fields else map[]
  }

  function GetLoopHops(item: Value, name: string): Option<real> {
    var entry := Get(Get(Get(item, QKITT_QUEUE_KEY), "loop"), name);
    var hops := Get(entry, "hops");
    if hops.Number? then Some(hops.n) else None
  }

  function BuildLoopQueueMeta(original: Value, name: string, hops: real): Value {
    var prevRoot := FieldsOf(Get(original, QKITT_QUEUE_KEY));
    var prevLoop := FieldsOf(Get(PlainObject(prevRoot), "loop"));
    var prevEntry := FieldsOf(Get(PlainObject(prevLoop), name));
    PlainObject(prevRoot["loop" := PlainObject(prevLoop[name := PlainObject(prevEntry["hops" := Number(hops)])])])
  }

  function StampLoopHops(mapped: Value, original: Value, name: string, hops: real): Value {
    var root := BuildLoopQueueMeta(original, name, hops);
    if !mapped.PlainObject? then PlainObject(map["value" := mapped, QKITT_QUEUE_KEY := root])
    else PlainObject(mapped.fields[QKITT_QUEUE_KEY := root])
  }

  /** The stamp reads back, and every other field of the mapped item survives. */
  lemma StampReadsBack(mapped: Value, original: Value, name: string, hops: real)
    ensures GetLoopHops(StampLoopHops(mapped, original, name, hops), name) == Some(hops)
    ensures forall key :: key != QKITT_QUEUE_KEY && mapped.PlainObject? ==>
      Get(StampLoopHops(mapped, original, name, hops), key) == Get(mapped, key)
  {
    var stamped := StampLoopHops(mapped, original, name, hops);
    var root := BuildLoopQueueMeta(original, name, hops);
    assert Get(stamped, QKITT_QUEUE_KEY) == root;
    assert Get(Get(Get(root, "loop"), name), "hops") == Number(hops);
  }

  /** A mapped value that is no plain object is wrapped: it reads back as `value`, and the wrapper
      has no other field but the bookkeeping. */
  lemma WrappedReadsBack(mapped: Value, original: Value, name: string, hops: real)
    requires !mapped.PlainObject?
    ensures var stamped := StampLoopHops(mapped, original, name, hops);
      && Get(stamped, "value") == mapped
      && forall key :: key != "value" && key != QKITT_QUEUE_KEY ==> Get(stamped, key) == Undefined
  {
    assert |QKITT_QUEUE_KEY| == 12 && |"value"| == 5;
  }

  /** What else the bookkeeping holds comes from the original item: the root's other fields, the
      other loops' entries, and the other fields of the loop's own entry. */
  lemma StampKeepsBookkeeping(mapped: Value, original: Value, name: string, hops: real, key: string)
    ensures var was := Get(original, QKITT_QUEUE_KEY);
      var now := Get(StampLoopHops(mapped, original, name, hops), QKITT_QUEUE_KEY);
      && (key != "loop" ==> Get(now, key) == Get(was, key))
      && (key != name ==> Get(Get(now, "loop"), key) == Get(Get(was, "loop"), key))
      && (key != "hops" ==> Get(Get(Get(now, "loop"), name), key) == Get(Get(Get(was, "loop"), name), key))
  {
    var root := BuildLoopQueueMeta(original, name, hops);
    assert Get(StampLoopHops(mapped, original, name, hops), QKITT_QUEUE_KEY) == root;
  }

  /** Counts of other loops come from the original item, whatever the map did. */
  lemma StampKeepsOtherLoops(mapped: Value, original: Value, name: string, hops: real, other: string)
    requires other != name
    ensures GetLoopHops(StampLoopHops(mapped, original, name, hops), other) == GetLoopHops(original, other)
  {
    var stamped := StampLoopHops(mapped, original, name, hops);
    var root := BuildLoopQueueMeta(original, name, hops);
    assert Get(stamped, QKITT_QUEUE_KEY) == root;
    assert Get(Get(root, "loop"), other) == Get(Get(Get(original, QKITT_QUEUE_KEY), "loop"), other);
  }

  // --------------------------------------------------------------- re-entries

  /** One loop re-entry; `mapped` is whatever the user's map returned (or the item itself). */
  function Reentered(item: Value, name: string, mapped: Value): Value {
    StampLoopHops(mapped, item, name, GetLoopHops(item, name).GetOr(0.0) + 1.0)
  }

  function ReenteredAll(item: Value, name: string, mapped: seq<Value>): Value {
    if mapped == [] then item
    else Reentered(ReenteredAll(item, name, mapped[..|mapped| - 1]), name, mapped[|mapped| - 1])
  }

  /** After k re-entries the count has grown by exactly k, and no other count has moved. */
  lemma {:induction false} HopsCountReentries(item: Value, name: string, mapped: seq<Value>)
    ensures GetLoopHops(ReenteredAll(item, name, mapped), name).GetOr(0.0)
         == GetLoopHops(item, name).GetOr(0.0) + |mapped| as real
    ensures mapped != [] ==> GetLoopHops(ReenteredAll(item, name, mapped), name).Some?
    ensures forall other :: other != name ==>
      GetLoopHops(ReenteredAll(item, name, mapped), other) == GetLoopHops(item, other)
  {
    if mapped != [] {
      var init := mapped[..|mapped| - 1];
      HopsCountReentries(item, name, init);
      ReentryIs(ReenteredAll(item, name, init), name, mapped[|mapped| - 1]);
    }
  }

  /** One re-entry adds one hop and moves no other count. */
  lemma ReentryIs(item: Value, name: string, mapped: Value)
    ensures GetLoopHops(Reentered(item, name, mapped), name) == Some(GetLoopHops(item, name).GetOr(0.0) + 1.0)
    ensures forall other :: other != name ==>
      GetLoopHops(Reentered(item, name, mapped), other) == GetLoopHops(item, other)
  {
    var hops := GetLoopHops(item, name).GetOr(0.0) + 1.0;
    StampReadsBack(mapped, item, name, hops);
    forall other | other != name
      ensures GetLoopHops(Reentered(item, name, mapped), other) == GetLoopHops(item, other)
    {
      StampKeepsOtherLoops(mapped, item, name, hops, other);
    }
  }

  /** A filter that lets an item loop while its previous hop count is below `max`. */
  predicate UnderCap(item: Value, name: string, max: nat) {
    GetLoopHops(item, name).GetOr(0.0) < max as real
  }

  /** How often an item that keeps failing loops before the filter sends it down the fail path. */
  function CappedReentries(item: Value, name: string, mapped: seq<Value>, max: nat): nat
    decreases |mapped|
  {
    if mapped == [] || !UnderCap(item, name, max) then 0
    else 1 + CappedReentries(Reentered(item, name, mapped[0]), name, mapped[1..], max)
  }

  /** A cap of `max` previous hops allows exactly `max` re-entries (or as many as failures happen). */
  lemma {:induction false} CapBoundsReentries(item: Value, name: string, mapped: seq<Value>, max: nat, hops: nat)
    requires GetLoopHops(item, name).GetOr(0.0) == hops as real && hops <= max
    ensures CappedReentries(item, name, mapped, max) == if |mapped| < max - hops then |mapped| else max - hops
    decreases |mapped|
  {
    if mapped != [] && hops < max {
      var next := Reentered(item, name, mapped[0]);
      StampReadsBack(mapped[0], item, name, GetLoopHops(item, name).GetOr(0.0) + 1.0);
      CapBoundsReentries(next, name, mapped[1..], max, hops + 1);
    }
  }
}
