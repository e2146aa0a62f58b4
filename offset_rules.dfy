/** The per-partition offset rules behind the form's buttons: the initial
    (and reset-to-first) offset, reset to last, reset to the last N messages,
    and the offsets looked up by timestamp; and how writing those offsets
    into the form data changes it. */
module OffsetRules {
  import opened Strings
  import opened Js
  import opened Partitions

  /** The offset range the form's schema accepts for one partition field. */
  datatype Bounds = Bounds(min: int, max: int)

  /** The Joi bounds of a partition's offset field accept the partition's
      own first and last offsets whenever they are ordered. */
  function BoundsOf(p: Partition): (r: Bounds)
    ensures p.first <= p.last ==> Within(r, p.first) && Within(r, p.last)
  {
    Bounds(p.first, p.last)
  }

  predicate Within(b: Bounds, v: int) {
    b.min <= v <= b.max
  }

  /** The broker's offsets of a partition: non-negative and ordered. */
  predicate WellFormed(p: Partition) {
    0 <= p.first <= p.last
  }

  /** Reset to last: one before the last offset, so that at least one record
      is exported; the last offset itself when the partition's range is a
      single point; 0 when the last offset is not positive. */
  function LastOffset(p: Partition): (r: int)
    ensures WellFormed(p) ==> Within(BoundsOf(p), r)
    ensures p.first == p.last ==> r == p.last
    ensures p.first != p.last && p.last > 0 ==> r == p.last - 1
    ensures p.first != p.last && p.last <= 0 ==> r == 0
  {
    if p.first == p.last then p.last
    else if p.last > 0 then p.last - 1
    else 0
  }

  /** Reset to the last `n` messages: `last - n`, or 0 when that is not
      positive or not a number (`n` is None when the input is not numeric). */
  function CalculatedOffset(last: int, n: Option<int>): (r: int)
    ensures r >= 0
    ensures n.None? ==> r == 0
    ensures n.Some? ==> r == last - n.value || (r == 0 && last - n.value <= 0)
    ensures n.Some? && 0 <= n.value && 0 <= last ==> r <= last
  {
    match n
    case None => 0
    case Some(k) =>
      var calculated := last - k;
      if calculated == 0 || calculated < 0 then 0 else calculated
  }

  /** The offsets reset-to-first (and the initial set-up) writes. */
  function FirstOffsets(ps: seq<Partition>): (xs: seq<PartitionOffset>)
    ensures |xs| == |ps|
    ensures forall i :: 0 <= i < |ps| ==> xs[i] == PartitionOffset(ps[i].id, ps[i].first)
  {
    if ps == [] then [] else FirstOffsets(ps[..|ps| - 1]) + [PartitionOffset(ps[|ps| - 1].id, ps[|ps| - 1].first)]
  }

  /** The offsets reset-to-last writes. */
  function LastOffsets(ps: seq<Partition>): (xs: seq<PartitionOffset>)
    ensures |xs| == |ps|
    ensures forall i :: 0 <= i < |ps| ==> xs[i] == PartitionOffset(ps[i].id, LastOffset(ps[i]))
  {
    if ps == [] then [] else LastOffsets(ps[..|ps| - 1]) + [PartitionOffset(ps[|ps| - 1].id, LastOffset(ps[|ps| - 1]))]
  }

  /** The offsets reset-to-the-last-`n`-messages writes. */
  function CalculatedOffsets(ps: seq<Partition>, n: Option<int>): (xs: seq<PartitionOffset>)
    ensures |xs| == |ps|
    ensures forall i :: 0 <= i < |ps| ==> xs[i] == PartitionOffset(ps[i].id, CalculatedOffset(ps[i].last, n))
  {
    if ps == [] then []
    else CalculatedOffsets(ps[..|ps| - 1], n) + [PartitionOffset(ps[|ps| - 1].id, CalculatedOffset(ps[|ps| - 1].last, n))]
  }

  /** The form data after `formData["partition-" + x.partition] = x.offset` for
      each `x` of `xs` in turn. */
  function AssignAll(formData: Obj<Field>, xs: seq<PartitionOffset>): (r: Obj<Field>)
    ensures formData.Valid() ==> r.Valid()
  {
    if xs == [] then formData
    else
      var x := xs[|xs| - 1];
      AssignAll(formData, xs[..|xs| - 1]).Put(PartitionField(x.partition), Num(x.offset))
  }

  lemma DistinctIdsGiveDistinctPartitions(ps: seq<Partition>)
    requires DistinctIds(ps)
    ensures DistinctPartitions(FirstOffsets(ps))
    ensures DistinctPartitions(LastOffsets(ps))
    ensures forall n :: DistinctPartitions(CalculatedOffsets(ps, n))
  {
  }

  /** When no two offsets are for the same partition, each partition field
      ends up holding the offset given for it. */
  lemma {:induction false} AssignAllAt(formData: Obj<Field>, xs: seq<PartitionOffset>, j: nat)
    requires DistinctPartitions(xs)
    requires j < |xs|
    ensures PartitionField(xs[j].partition) in AssignAll(formData, xs).vals
    ensures AssignAll(formData, xs).vals[PartitionField(xs[j].partition)] == Num(xs[j].offset)
  {
    var init := xs[..|xs| - 1];
    if j < |xs| - 1 {
      AssignAllAt(formData, init, j);
      PartitionFieldInjective(xs[j].partition, xs[|xs| - 1].partition);
    }
  }

  /** A property that is not the field of any of the partitions is left as
      it was: not added, not removed, not changed. */
  lemma {:induction false} AssignAllElsewhere(formData: Obj<Field>, xs: seq<PartitionOffset>, k: string)
    requires forall i :: 0 <= i < |xs| ==> k != PartitionField(xs[i].partition)
    ensures k in AssignAll(formData, xs).vals <==> k in formData.vals
    ensures k in formData.vals ==> AssignAll(formData, xs).vals[k] == formData.vals[k]
  {
    if xs != [] {
      AssignAllElsewhere(formData, xs[..|xs| - 1], k);
    }
  }

  /** The existing properties keep their order, and every property added is a
      `partition-<id>` field. */
  lemma {:induction false} AssignAllKeys(formData: Obj<Field>, xs: seq<PartitionOffset>)
    ensures formData.keys <= AssignAll(formData, xs).keys
    ensures forall i :: |formData.keys| <= i < |AssignAll(formData, xs).keys| ==>
      exists x :: x in xs && AssignAll(formData, xs).keys[i] == PartitionField(x.partition)
  {
    if xs != [] {
      var init := xs[..|xs| - 1];
      AssignAllKeys(formData, init);
      var before := AssignAll(formData, init);
      var after := AssignAll(formData, xs);
      forall i | |formData.keys| <= i < |after.keys|
        ensures exists x :: x in xs && after.keys[i] == PartitionField(x.partition)
      {
        if i < |before.keys| {
          var x :| x in init && before.keys[i] == PartitionField(x.partition);
          assert x in xs;
        } else {
          assert after.keys[i] == PartitionField(xs[|xs| - 1].partition);
        }
      }
    }
  }

  /** No property is removed, and re-writing existing fields keeps the key
      order. */
  lemma {:induction false} AssignAllExisting(formData: Obj<Field>, xs: seq<PartitionOffset>)
    ensures forall k :: k in formData.vals ==> k in AssignAll(formData, xs).vals
    ensures (forall i :: 0 <= i < |xs| ==> PartitionField(xs[i].partition) in formData.vals) ==>
      AssignAll(formData, xs).keys == formData.keys
  {
    if xs != [] {
      AssignAllExisting(formData, xs[..|xs| - 1]);
    }
  }

  /** The offset field names of the given offsets, in order. */
  function FieldNames(xs: seq<PartitionOffset>): (r: seq<string>)
    ensures |r| == |xs|
    ensures forall i :: 0 <= i < |xs| ==> r[i] == PartitionField(xs[i].partition)
  {
    seq(|xs|, i requires 0 <= i < |xs| => PartitionField(xs[i].partition))
  }

  /** Writing partitions whose fields are all new lists their fields after
      the existing properties, in the order of the partitions. */
  lemma {:induction false} AssignAllFresh(formData: Obj<Field>, xs: seq<PartitionOffset>)
    requires DistinctPartitions(xs)
    requires forall i :: 0 <= i < |xs| ==> PartitionField(xs[i].partition) !in formData.vals
    ensures AssignAll(formData, xs).keys == formData.keys + FieldNames(xs)
  {
    if xs != [] {
      var init := xs[..|xs| - 1];
      var last := xs[|xs| - 1];
      AssignAllFresh(formData, init);
      forall i | 0 <= i < |init| ensures PartitionField(init[i].partition) != PartitionField(last.partition) {
        PartitionFieldInjective(init[i].partition, last.partition);
      }
      AssignAllElsewhere(formData, init, PartitionField(last.partition));
    }
  }

  /** After reset to last each well-formed partition's field holds an offset
      its schema accepts. */
  lemma ResetToLastWithinSchema(formData: Obj<Field>, ps: seq<Partition>, j: nat)
    requires DistinctIds(ps)
    requires j < |ps| && WellFormed(ps[j])
    ensures PartitionField(ps[j].id) in AssignAll(formData, LastOffsets(ps)).vals
    ensures var v := AssignAll(formData, LastOffsets(ps)).vals[PartitionField(ps[j].id)];
      v.Num? && Within(BoundsOf(ps[j]), v.n)
  {
    DistinctIdsGiveDistinctPartitions(ps);
    AssignAllAt(formData, LastOffsets(ps), j);
  }

  /** After reset to first each well-formed partition's field holds an offset
      its schema accepts; this is also the state the set-up leaves. */
  lemma ResetToFirstWithinSchema(formData: Obj<Field>, ps: seq<Partition>, j: nat)
    requires DistinctIds(ps)
    requires j < |ps| && WellFormed(ps[j])
    ensures PartitionField(ps[j].id) in AssignAll(formData, FirstOffsets(ps)).vals
    ensures AssignAll(formData, FirstOffsets(ps)).vals[PartitionField(ps[j].id)] == Num(ps[j].first)
    ensures Within(BoundsOf(ps[j]), ps[j].first)
  {
    DistinctIdsGiveDistinctPartitions(ps);
    AssignAllAt(formData, FirstOffsets(ps), j);
  }

  /** Reset to the last `n` messages stays within the schema exactly when
      the partition holds at least `n` messages or `n` reaches back past
      offset 0 of a partition that starts at 0. */
  lemma CalculatedWithinSchema(p: Partition, n: int)
    requires WellFormed(p) && n >= 0
    ensures Within(BoundsOf(p), CalculatedOffset(p.last, Some(n))) <==> (n <= p.last - p.first || p.first == 0)
  {
  }

  /** The schema bounds recorded for each partition during set-up. */
  function SchemaFor(schema: map<string, Bounds>, ps: seq<Partition>): (r: map<string, Bounds>)
    ensures forall k :: k in schema ==> k in r
    ensures forall k :: k in r && k !in schema ==> exists i :: 0 <= i < |ps| && k == PartitionField(ps[i].id)
    ensures forall k :: k in schema && (forall i :: 0 <= i < |ps| ==> k != PartitionField(ps[i].id)) ==> r[k] == schema[k]
  {
    if ps == [] then schema
    else SchemaFor(schema, ps[..|ps| - 1])[PartitionField(ps[|ps| - 1].id) := BoundsOf(ps[|ps| - 1])]
  }

  lemma {:induction false} SchemaForAt(schema: map<string, Bounds>, ps: seq<Partition>, j: nat)
    requires DistinctIds(ps)
    requires j < |ps|
    ensures PartitionField(ps[j].id) in SchemaFor(schema, ps)
    ensures SchemaFor(schema, ps)[PartitionField(ps[j].id)] == BoundsOf(ps[j])
  {
    if j < |ps| - 1 {
      SchemaForAt(schema, ps[..|ps| - 1], j);
      PartitionFieldInjective(ps[j].id, ps[|ps| - 1].id);
    }
  }

}
