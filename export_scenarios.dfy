/** What the export request carries after the form's handlers have run: the
    offsets parameter after set-up and after a reset, after checking or
    unchecking all partitions and after one checkbox change; and that the
    offset writes leave the export options alone. */
module ExportScenarios {
  import opened Strings
  import opened Js
  import opened Partitions
  import opened OffsetRules
  import opened OffsetsParameter
  import opened ExportOutput
  import opened TopicExportForm

  /** The `<id>-<offset>` entries of the given offsets, in order. */
  function OffsetEntries(xs: seq<PartitionOffset>): (r: seq<string>)
    ensures |r| == |xs|
    ensures forall i :: 0 <= i < |xs| ==> r[i] == NatToString(xs[i].partition) + "-" + IntToString(xs[i].offset)
  {
    seq(|xs|, i requires 0 <= i < |xs| => NatToString(xs[i].partition) + "-" + IntToString(xs[i].offset))
  }

  /** The offsets `xs` are one per partition of `ps`, in the same order. */
  predicate SamePartitions(xs: seq<PartitionOffset>, ps: seq<Partition>) {
    |xs| == |ps| && forall i :: 0 <= i < |xs| ==> xs[i].partition == ps[i].id
  }

  lemma EntryPlain(id: nat, v: int)
    ensures Plain(NatToString(id) + "-" + IntToString(v))
  {
  }

  /** When every field of `names` is selected, each contributes its entry. */
  lemma {:induction false} EntriesAllSelected(names: seq<string>, formData: Obj<Field>, cp: map<string, bool>)
    requires Listed(names, formData)
    requires forall i :: 0 <= i < |names| ==> Selected(names[i], cp)
    ensures |Entries(names, formData, cp)| == |names|
    ensures forall i :: 0 <= i < |names| ==>
      Entries(names, formData, cp)[i] == EntryText(names[i], formData)
  {
    if names != [] {
      EntriesAllSelected(names[1..], formData, cp);
      var e := Entries(names, formData, cp);
      assert e == [EntryText(names[0], formData)] + Entries(names[1..], formData, cp);
      forall i | 1 <= i < |names|
        ensures e[i] == EntryText(names[i], formData)
      {
        assert names[1..][i - 1] == names[i];
      }
    }
  }

  /** Right after set-up the flags are the partitions' check names, in order. */
  lemma SetupFlagNames(ps: seq<Partition>)
    requires DistinctIds(ps)
    ensures var ch := MarkChecked(EmptyObj(), ps);
      ch.Valid() && |ch.keys| == |ps| && forall i :: 0 <= i < |ps| ==> ch.keys[i] == CheckField(ps[i].id)
  {
    MarkCheckedFresh(EmptyObj(), ps);
    assert EmptyObj<bool>().keys + FlagNames(ps) == FlagNames(ps);
  }

  lemma FlagIdsDiffer(ps: seq<Partition>, j: nat, k: nat)
    requires DistinctIds(ps) && j < k < |ps|
    ensures PartitionOf(CheckField(ps[k].id)) != PartitionOf(CheckField(ps[j].id))
  {
    PartitionOfCheckField(ps[k].id);
    PartitionOfCheckField(ps[j].id);
    if NatToString(ps[k].id) == NatToString(ps[j].id) {
      NatToStringInjective(ps[k].id, ps[j].id);
    }
  }

  /** The id-to-flag table after set-up records `true` for every partition. */
  lemma SetupFlagsAllTrue(ps: seq<Partition>, j: nat)
    requires DistinctIds(ps) && j < |ps|
    ensures MarkChecked(EmptyObj(), ps).Valid()
    ensures var ch := MarkChecked(EmptyObj(), ps);
      var cp := CheckedByPartition(map[], ch.keys, ch);
      NatToString(ps[j].id) in cp && cp[NatToString(ps[j].id)]
  {
    var ch := MarkChecked(EmptyObj(), ps);
    SetupFlagNames(ps);
    forall k | j < k < |ch.keys|
      ensures PartitionOf(ch.keys[k]) != PartitionOf(ch.keys[j])
    {
      FlagIdsDiffer(ps, j, k);
    }
    PartitionOfCheckField(ps[j].id);
    MarkCheckedAt(EmptyObj(), ps, j);
    CheckedByPartitionAt(map[], ch.keys, ch, j);
  }

  /** Set-up selects the offset field of each of its partitions. */
  lemma SetupSelects(ps: seq<Partition>, id: nat, j: nat)
    requires DistinctIds(ps) && j < |ps| && ps[j].id == id
    ensures MarkChecked(EmptyObj(), ps).Valid()
    ensures var ch := MarkChecked(EmptyObj(), ps);
      Selected(PartitionField(id), CheckedByPartition(map[], ch.keys, ch))
  {
    SetupFlagsAllTrue(ps, j);
    FieldKinds(id);
    PartitionOfPartitionField(id);
  }

  /** The entries of such a form are those of its partition fields. */
  lemma EntriesOfLayout(formData: Obj<Field>, others: seq<string>, xs: seq<PartitionOffset>, cp: map<string, bool>)
    requires formData.Valid()
    requires formData.keys == others + FieldNames(xs)
    requires forall i :: 0 <= i < |others| ==> !StartsWith(others[i], "partition")
    requires forall i :: 0 <= i < |xs| ==> Selected(PartitionField(xs[i].partition), cp)
    requires forall i :: 0 <= i < |xs| ==>
      PartitionField(xs[i].partition) in formData.vals && formData.vals[PartitionField(xs[i].partition)] == Num(xs[i].offset)
    ensures Listed(formData.keys, formData)
    ensures Entries(formData.keys, formData, cp) == OffsetEntries(xs)
  {
    var fields := FieldNames(xs);
    ListedParts(formData, others, fields);
    EntriesAppend(others, fields, formData, cp);
    EntriesIgnoreOtherFields(others, formData, cp);
    assert Entries(formData.keys, formData, cp) == Entries(fields, formData, cp);
    EntriesOfFieldNames(formData, xs, cp);
  }

  /** The entries of the partition fields, all selected and holding numbers. */
  lemma EntriesOfFieldNames(formData: Obj<Field>, xs: seq<PartitionOffset>, cp: map<string, bool>)
    requires Listed(FieldNames(xs), formData)
    requires forall i :: 0 <= i < |xs| ==> Selected(PartitionField(xs[i].partition), cp)
    requires forall i :: 0 <= i < |xs| ==>
      PartitionField(xs[i].partition) in formData.vals && formData.vals[PartitionField(xs[i].partition)] == Num(xs[i].offset)
    ensures Entries(FieldNames(xs), formData, cp) == OffsetEntries(xs)
  {
    var fields := FieldNames(xs);
    EntriesAllSelected(fields, formData, cp);
    var entries := Entries(fields, formData, cp);
    forall i | 0 <= i < |xs| ensures entries[i] == OffsetEntries(xs)[i] {
      FieldEntry(formData, xs[i]);
    }
  }

  /** The entry of a partition field holding a number. */
  lemma FieldEntry(formData: Obj<Field>, x: PartitionOffset)
    requires PartitionField(x.partition) in formData.vals && formData.vals[PartitionField(x.partition)] == Num(x.offset)
    ensures EntryText(PartitionField(x.partition), formData) == NatToString(x.partition) + "-" + IntToString(x.offset)
  {
    PartitionOfPartitionField(x.partition);
  }

  lemma ListedParts<V>(o: Obj<V>, a: seq<string>, b: seq<string>)
    requires o.Valid() && o.keys == a + b
    ensures Listed(o.keys, o) && Listed(a, o) && Listed(b, o)
  {
    assert forall i :: 0 <= i < |a| ==> a[i] == o.keys[i];
    assert forall i :: 0 <= i < |b| ==> b[i] == o.keys[|a| + i];
  }

  /** The offsets parameter of a form whose fields are some non-partition
      fields followed by one field per partition, all checked by set-up: the
      `<id>-<offset>` entries of the partitions, in order, joined with `_`. */
  lemma ParamOfLayout(formData: Obj<Field>, others: seq<string>, xs: seq<PartitionOffset>, ps: seq<Partition>)
    requires formData.Valid() && DistinctIds(ps) && SamePartitions(xs, ps)
    requires formData.keys == others + FieldNames(xs)
    requires forall i :: 0 <= i < |others| ==> !StartsWith(others[i], "partition")
    requires forall i :: 0 <= i < |xs| ==>
      PartitionField(xs[i].partition) in formData.vals && formData.vals[PartitionField(xs[i].partition)] == Num(xs[i].offset)
    ensures MarkChecked(EmptyObj(), ps).Valid()
    ensures OffsetsParam(formData, MarkChecked(EmptyObj(), ps)) == Join(OffsetEntries(xs), "_")
  {
    var ch := MarkChecked(EmptyObj(), ps);
    var cp := CheckedByPartition(map[], ch.keys, ch);
    SetupSelectsAll(xs, ps);
    EntriesOfLayout(formData, others, xs, cp);
    OffsetEntriesPlain(xs);
    SerialisePlain(OffsetEntries(xs));
  }

  /** Set-up checks the partition of every offset of a list that names the
      partitions in order. */
  lemma SetupSelectsAll(xs: seq<PartitionOffset>, ps: seq<Partition>)
    requires DistinctIds(ps) && SamePartitions(xs, ps)
    ensures MarkChecked(EmptyObj(), ps).Valid()
    ensures forall i :: 0 <= i < |xs| ==> Selected(PartitionField(xs[i].partition),
      CheckedByPartition(map[], MarkChecked(EmptyObj(), ps).keys, MarkChecked(EmptyObj(), ps)))
  {
    SetupFlagNames(ps);
    forall i | 0 <= i < |xs|
      ensures Selected(PartitionField(xs[i].partition),
        CheckedByPartition(map[], MarkChecked(EmptyObj(), ps).keys, MarkChecked(EmptyObj(), ps)))
    {
      SetupSelects(ps, xs[i].partition, i);
    }
  }

  /** Offset entries never hold a comma or a bracket. */
  lemma OffsetEntriesPlain(xs: seq<PartitionOffset>)
    ensures forall i :: 0 <= i < |OffsetEntries(xs)| ==> Plain(OffsetEntries(xs)[i])
  {
    forall i | 0 <= i < |xs| ensures Plain(OffsetEntries(xs)[i]) {
      EntryPlain(xs[i].partition, xs[i].offset);
    }
  }

  /** The form data right after set-up lists the initial fields and then one
      offset field per partition. */
  lemma SetupLayout(ps: seq<Partition>)
    requires DistinctIds(ps)
    ensures AssignAll(InitialFormData(), FirstOffsets(ps)).keys == InitialFormData().keys + FieldNames(FirstOffsets(ps))
  {
    var xs := FirstOffsets(ps);
    DistinctIdsGiveDistinctPartitions(ps);
    forall i | 0 <= i < |xs| ensures PartitionField(xs[i].partition) !in InitialFormData().vals {
      FieldKinds(xs[i].partition);
      NoInitialPartitionField(PartitionField(xs[i].partition));
    }
    AssignAllFresh(InitialFormData(), xs);
  }

  lemma NoInitialPartitionField(k: string)
    requires StartsWith(k, "partition")
    ensures k !in InitialFormData().vals
  {
    InitialFieldsNotPartitions();
  }

  /** Right after set-up the export covers every partition from its first
      offset. */
  lemma SetupExportsAll(ps: seq<Partition>)
    requires DistinctIds(ps)
    ensures AssignAll(InitialFormData(), FirstOffsets(ps)).Valid() && MarkChecked(EmptyObj(), ps).Valid()
    ensures OffsetsParam(AssignAll(InitialFormData(), FirstOffsets(ps)), MarkChecked(EmptyObj(), ps))
         == Join(OffsetEntries(FirstOffsets(ps)), "_")
  {
    var xs := FirstOffsets(ps);
    var fd := AssignAll(InitialFormData(), xs);
    SetupLayout(ps);
    DistinctIdsGiveDistinctPartitions(ps);
    forall i | 0 <= i < |xs|
      ensures PartitionField(xs[i].partition) in fd.vals && fd.vals[PartitionField(xs[i].partition)] == Num(xs[i].offset)
    {
      AssignAllAt(InitialFormData(), xs, i);
    }
    InitialFieldsNotPartitions();
    ParamOfLayout(fd, InitialFormData().keys, xs, ps);
  }

  /** After set-up and then a reset (to first, to last, to the last N
      messages, or by timestamp with one entry per partition in the same
      order), the export covers every partition from the offset the reset
      gave it. */
  lemma ResetExportsAll(ps: seq<Partition>, xs: seq<PartitionOffset>)
    requires DistinctIds(ps) && SamePartitions(xs, ps)
    ensures AssignAll(AssignAll(InitialFormData(), FirstOffsets(ps)), xs).Valid() && MarkChecked(EmptyObj(), ps).Valid()
    ensures OffsetsParam(AssignAll(AssignAll(InitialFormData(), FirstOffsets(ps)), xs), MarkChecked(EmptyObj(), ps))
         == Join(OffsetEntries(xs), "_")
  {
    var fd := AssignAll(AssignAll(InitialFormData(), FirstOffsets(ps)), xs);
    ResetLayout(ps, xs);
    assert DistinctPartitions(xs);
    forall i | 0 <= i < |xs|
      ensures PartitionField(xs[i].partition) in fd.vals && fd.vals[PartitionField(xs[i].partition)] == Num(xs[i].offset)
    {
      AssignAllAt(AssignAll(InitialFormData(), FirstOffsets(ps)), xs, i);
    }
    InitialFieldsNotPartitions();
    ParamOfLayout(fd, InitialFormData().keys, xs, ps);
  }

  /** A reset after set-up rewrites the partition fields in place. */
  lemma ResetLayout(ps: seq<Partition>, xs: seq<PartitionOffset>)
    requires DistinctIds(ps) && SamePartitions(xs, ps)
    ensures AssignAll(AssignAll(InitialFormData(), FirstOffsets(ps)), xs).keys == InitialFormData().keys + FieldNames(xs)
  {
    var first := FirstOffsets(ps);
    var fd0 := AssignAll(InitialFormData(), first);
    SetupLayout(ps);
    assert FieldNames(xs) == FieldNames(first);
    forall i | 0 <= i < |xs| ensures PartitionField(xs[i].partition) in fd0.vals {
      AssignAllAt(InitialFormData(), first, i);
    }
    AssignAllExisting(fd0, xs);
  }

  /** Unchecking all partitions leaves nothing to export. */
  lemma UncheckAllExportsNothing(formData: Obj<Field>, checked: Obj<bool>)
    requires formData.Valid() && checked.Valid()
    ensures OffsetsParam(formData, SetAllFlags(checked, false)) == ""
  {
    NothingCheckedGivesEmpty(formData, SetAllFlags(checked, false));
  }

  /** Checking all partitions selects every partition field that has a flag
      for its id. */
  lemma CheckAllSelects(checked: Obj<bool>, name: string, j: nat)
    requires checked.Valid() && j < |checked.keys|
    requires StartsWith(name, "partition") && PartitionOf(checked.keys[j]) == PartitionOf(name)
    ensures Selected(name, CheckedByPartition(map[], SetAllFlags(checked, true).keys, SetAllFlags(checked, true)))
  {
    var all := SetAllFlags(checked, true);
    var names := all.keys;
    var last :| j <= last < |names| && PartitionOf(names[last]) == PartitionOf(name)
      && (forall k :: last < k < |names| ==> PartitionOf(names[k]) != PartitionOf(name)) by {
      LastWithId(names, PartitionOf(name), j);
    }
    CheckedByPartitionAt(map[], names, all, last);
  }

  /** Among the names from `j` on whose id is `p`, there is a last one. */
  lemma {:induction false} LastWithId(names: seq<string>, p: string, j: nat)
    requires j < |names| && PartitionOf(names[j]) == p
    ensures exists last :: (j <= last < |names| && PartitionOf(names[last]) == p &&
      forall k :: last < k < |names| ==> PartitionOf(names[k]) != p)
    decreases |names| - j
  {
    if exists k :: j < k < |names| && PartitionOf(names[k]) == p {
      var k :| j < k < |names| && PartitionOf(names[k]) == p;
      LastWithId(names, p, k);
    } else {
      assert forall k :: j < k < |names| ==> PartitionOf(names[k]) != p;
    }
  }

  /** A checkbox change decides whether its partition is exported, as long as
      no other flag carries the same id. */
  lemma CheckboxDecides(checked: Obj<bool>, id: nat, b: bool)
    requires checked.Valid()
    requires forall i :: 0 <= i < |checked.keys| && PartitionOf(checked.keys[i]) == NatToString(id) ==> checked.keys[i] == CheckField(id)
    ensures var ch := checked.Put(CheckField(id), b);
      Selected(PartitionField(id), CheckedByPartition(map[], ch.keys, ch)) <==> b
  {
    var ch := checked.Put(CheckField(id), b);
    var names := ch.keys;
    var j :| 0 <= j < |names| && names[j] == CheckField(id);
    PartitionOfCheckField(id);
    forall k | j < k < |names| ensures PartitionOf(names[k]) != PartitionOf(names[j]) {
    }
    CheckedByPartitionAt(map[], names, ch, j);
    FieldKinds(id);
    PartitionOfPartitionField(id);
  }

  /** Writing offsets never changes how the records are formatted. */
  lemma OffsetWritesKeepOptions(formData: Obj<Field>, xs: seq<PartitionOffset>)
    ensures OptionsOf(AssignAll(formData, xs)) == OptionsOf(formData)
  {
    forall i | 0 <= i < |xs|
      ensures "exportMethod" != PartitionField(xs[i].partition)
      ensures "kvSep" != PartitionField(xs[i].partition)
      ensures "exportNulls" != PartitionField(xs[i].partition)
    {
      FieldKinds(xs[i].partition);
      NotStartsWith("exportMethod", "partition");
      NotStartsWith("kvSep", "partition");
      NotStartsWith("exportNulls", "partition");
    }
    AssignAllElsewhere(formData, xs, "exportMethod");
    AssignAllElsewhere(formData, xs, "kvSep");
    AssignAllElsewhere(formData, xs, "exportNulls");
  }
}
