/** Partition metadata and the names under which the form keeps a
    partition's offset (`partition-<id>`) and its check flag
    (`check-partition-<id>`). */
module Partitions {
  import opened Strings

  /** One partition of the topic as the topic-info request returns it; an
      absent first or last offset is represented as 0, which is what
      `offset || 0` makes of it. */
  datatype Partition = Partition(id: nat, first: int, last: int)

  /** An offset for one partition: an entry of the offsets-by-timestamp
      response, or the value a reset rule gives a partition. */
  datatype PartitionOffset = PartitionOffset(partition: nat, offset: int)

  function PartitionField(id: nat): string {
    "partition-" + NatToString(id)
  }

  function CheckField(id: nat): string {
    "check-" + PartitionField(id)
  }

  /** The partition id read back from a field or flag name: the text after
      its last `-`. */
  function PartitionOf(name: string): (r: string)
    ensures '-' !in r
  {
    LastSegment(name, '-')
  }

  predicate DistinctIds(ps: seq<Partition>) {
    forall i, j :: 0 <= i < j < |ps| ==> ps[i].id != ps[j].id
  }

  predicate DistinctPartitions(xs: seq<PartitionOffset>) {
    forall i, j :: 0 <= i < j < |xs| ==> xs[i].partition != xs[j].partition
  }

  lemma PartitionFieldInjective(a: nat, b: nat)
    ensures PartitionField(a) == PartitionField(b) ==> a == b
  {
    if PartitionField(a) == PartitionField(b) {
      assert NatToString(a) == PartitionField(a)[10..];
      assert NatToString(b) == PartitionField(b)[10..];
      NatToStringInjective(a, b);
    }
  }

  lemma CheckFieldInjective(a: nat, b: nat)
    ensures CheckField(a) == CheckField(b) ==> a == b
  {
    if CheckField(a) == CheckField(b) {
      assert PartitionField(a) == CheckField(a)[6..];
      assert PartitionField(b) == CheckField(b)[6..];
      PartitionFieldInjective(a, b);
    }
  }

  lemma NatToStringHasNoDash(id: nat)
    ensures '-' !in NatToString(id)
  {
  }

  /** The offset name of a partition gives its id back... */
  lemma PartitionOfPartitionField(id: nat)
    ensures PartitionOf(PartitionField(id)) == NatToString(id)
  {
    NatToStringHasNoDash(id);
    assert PartitionField(id) == "partition" + ['-'] + NatToString(id);
    LastSegmentAfterSep("partition", '-', NatToString(id));
  }

  /** ...and so does its check-flag name. */
  lemma PartitionOfCheckField(id: nat)
    ensures PartitionOf(CheckField(id)) == NatToString(id)
  {
    NatToStringHasNoDash(id);
    assert CheckField(id) == "check-partition" + ['-'] + NatToString(id);
    LastSegmentAfterSep("check-partition", '-', NatToString(id));
  }

  /** Only the offset name counts as a partition field of the form data. */
  lemma FieldKinds(id: nat)
    ensures StartsWith(PartitionField(id), "partition")
    ensures !StartsWith(CheckField(id), "partition")
  {
    var f, c := PartitionField(id), CheckField(id);
    assert f[..9] == "partition";
    assert c[0] == 'c' && "partition"[0] == 'p';
    assert |c| >= 9 ==> c[..9][0] == 'c';
  }
}
