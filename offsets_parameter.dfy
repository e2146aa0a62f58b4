/** The `offsets` parameter of the export request (createPartitionOffsetsList):
    `<id>-<offset>` for every checked partition, in form-data key order,
    joined with `_`. */
module OffsetsParameter {
  import opened Strings
  import opened Js
  import opened Partitions

  /** Every name of `names` is a property of `o`. */
  predicate Listed<V>(names: seq<string>, o: Obj<V>) {
    forall i :: 0 <= i < |names| ==> names[i] in o.vals
  }

  /** The partition-id-to-flag table the first loop builds from the check
      flags, starting from `acc`: a later flag for the same id wins. */
  function CheckedByPartition(acc: map<string, bool>, names: seq<string>, checked: Obj<bool>): (r: map<string, bool>)
    requires Listed(names, checked)
    ensures forall p :: p in acc ==> p in r
    ensures names != [] ==> PartitionOf(names[|names| - 1]) in r && r[PartitionOf(names[|names| - 1])] == checked.vals[names[|names| - 1]]
    decreases |names|
  {
    if names == [] then acc
    else CheckedByPartition(acc[PartitionOf(names[0]) := checked.vals[names[0]]], names[1..], checked)
  }

  /** A form field is exported when its name starts with `partition` and the
      flag recorded for its id is `true`. */
  predicate Selected(name: string, checkedPartition: map<string, bool>) {
    StartsWith(name, "partition") && PartitionOf(name) in checkedPartition && checkedPartition[PartitionOf(name)]
  }

  /** `partition + "-" + formData[name]` */
  function EntryText(name: string, formData: Obj<Field>): string
    requires name in formData.vals
  {
    PartitionOf(name) + "-" + FieldText(formData.vals[name])
  }

  /** `<id>-<value>` for each selected field among `names`, in their order. */
  function Entries(names: seq<string>, formData: Obj<Field>, checkedPartition: map<string, bool>): (r: seq<string>)
    requires Listed(names, formData)
    ensures |r| <= |names|
  {
    if names == [] then []
    else
      (if Selected(names[0], checkedPartition) then [EntryText(names[0], formData)] else [])
      + Entries(names[1..], formData, checkedPartition)
  }

  /** The list's `toString()`, with every `,` replaced by `_` and the first
      `[` and `]` removed. */
  function Serialise(entries: seq<string>): string {
    RemoveFirst(RemoveFirst(ReplaceChar(Join(entries, ","), ',', '_'), '['), ']')
  }

  function OffsetsParam(formData: Obj<Field>, checked: Obj<bool>): string
    requires formData.Valid() && checked.Valid()
  {
    Serialise(Entries(formData.keys, formData, CheckedByPartition(map[], checked.keys, checked)))
  }

  /** The partition-serialising function of the form: builds the id-to-flag
      table, collects the selected entries, and serialises them. */
  method CreatePartitionOffsetsList(formData: Obj<Field>, checked: Obj<bool>) returns (offsets: string)
    requires formData.Valid() && checked.Valid()
    ensures offsets == OffsetsParam(formData, checked)
  {
    var checkedPartition := CollectCheckedPartitions(checked);
    var partitionOffsetsList := CollectPartitionOffsets(formData, checkedPartition);
    offsets := Serialise(partitionOffsetsList);
  }

  /** The first loop: `checkedPartition[id] = checked[name]` for each flag
      name in key order. */
  method CollectCheckedPartitions(checked: Obj<bool>) returns (checkedPartition: map<string, bool>)
    requires checked.Valid()
    ensures checkedPartition == CheckedByPartition(map[], checked.keys, checked)
  {
    checkedPartition := map[];
    var i := 0;
    while i < |checked.keys|
      invariant 0 <= i <= |checked.keys|
      invariant CheckedByPartition(checkedPartition, checked.keys[i..], checked)
             == CheckedByPartition(map[], checked.keys, checked)
    {
      var checkedName := checked.keys[i];
      var partition := LastSegment(checkedName, '-');
      CheckedByPartitionStep(checkedPartition, checked.keys, checked, i);
      checkedPartition := checkedPartition[partition := checked.vals[checkedName]];
      i := i + 1;
    }
    assert checked.keys[i..] == [];
  }

  /** The second loop: push `<id>-<value>` for each `partition*` field whose
      id is flagged `true`, in key order. */
  method CollectPartitionOffsets(formData: Obj<Field>, checkedPartition: map<string, bool>) returns (partitionOffsetsList: seq<string>)
    requires formData.Valid()
    ensures Listed(formData.keys, formData)
    ensures partitionOffsetsList == Entries(formData.keys, formData, checkedPartition)
  {
    partitionOffsetsList := [];
    var i := 0;
    ListedSuffix(formData.keys, formData, 0);
    while i < |formData.keys|
      invariant 0 <= i <= |formData.keys|
      invariant Listed(formData.keys[i..], formData)
      invariant partitionOffsetsList + Entries(formData.keys[i..], formData, checkedPartition)
             == Entries(formData.keys, formData, checkedPartition)
    {
      var name := formData.keys[i];
      EntriesStep(partitionOffsetsList, formData.keys, formData, checkedPartition, i);
      if StartsWith(name, "partition") {
        var partition := LastSegment(name, '-');
        assert partition == PartitionOf(name);
        if partition in checkedPartition && checkedPartition[partition] {
          assert partition + "-" + FieldText(formData.vals[name]) == EntryText(name, formData);
          partitionOffsetsList := partitionOffsetsList + [partition + "-" + FieldText(formData.vals[name])];
        }
      }
      i := i + 1;
    }
    assert formData.keys[i..] == [];
  }

  lemma CheckedByPartitionStep(acc: map<string, bool>, names: seq<string>, checked: Obj<bool>, i: nat)
    requires Listed(names, checked)
    requires i < |names|
    ensures Listed(names[i..], checked) && Listed(names[i + 1..], checked)
    ensures CheckedByPartition(acc, names[i..], checked)
         == CheckedByPartition(acc[PartitionOf(names[i]) := checked.vals[names[i]]], names[i + 1..], checked)
  {
  }

  lemma ListedSuffix<V>(names: seq<string>, o: Obj<V>, i: nat)
    requires o.Valid() && names == o.keys && i <= |names|
    ensures Listed(names, o) && Listed(names[i..], o)
  {
  }

  /** One turn of the second loop of CreatePartitionOffsetsList. */
  lemma EntriesStep(list: seq<string>, names: seq<string>, formData: Obj<Field>, cp: map<string, bool>, i: nat)
    requires i < |names|
    requires Listed(names[i..], formData)
    ensures Listed(names[i + 1..], formData)
    ensures list + Entries(names[i..], formData, cp)
         == (if Selected(names[i], cp) then list + [EntryText(names[i], formData)] else list)
            + Entries(names[i + 1..], formData, cp)
  {
  }

  /** Text that passes through the serialisation unchanged. */
  predicate Plain(s: string) {
    ',' !in s && '[' !in s && ']' !in s
  }

  /** When no entry contains `,`, `[` or `]`, the parameter is exactly the
      entries joined with `_`. */
  lemma SerialisePlain(entries: seq<string>)
    requires forall i :: 0 <= i < |entries| ==> Plain(entries[i])
    ensures Serialise(entries) == Join(entries, "_")
  {
    ReplaceCharJoin(entries, ',', '_');
    JoinAvoids(entries, "_", '[');
    JoinAvoids(entries, "_", ']');
  }

  lemma {:induction false} EntriesAppend(a: seq<string>, b: seq<string>, formData: Obj<Field>, cp: map<string, bool>)
    requires Listed(a, formData) && Listed(b, formData)
    ensures Entries(a + b, formData, cp) == Entries(a, formData, cp) + Entries(b, formData, cp)
  {
    var ab := a + b;
    assert Listed(ab, formData);
    if a != [] {
      assert ab[0] == a[0] && ab[1..] == a[1..] + b;
      assert Listed(a[1..], formData);
      EntriesAppend(a[1..], b, formData, cp);
      var head := if Selected(a[0], cp) then [EntryText(a[0], formData)] else [];
      assert Entries(ab, formData, cp) == head + Entries(a[1..] + b, formData, cp);
      assert Entries(a, formData, cp) == head + Entries(a[1..], formData, cp);
      assert head + (Entries(a[1..], formData, cp) + Entries(b, formData, cp))
          == (head + Entries(a[1..], formData, cp)) + Entries(b, formData, cp);
    } else {
      assert ab == b;
    }
  }

  /** Fields whose names do not start with `partition` never contribute. */
  lemma {:induction false} EntriesIgnoreOtherFields(names: seq<string>, formData: Obj<Field>, cp: map<string, bool>)
    requires Listed(names, formData)
    requires forall i :: 0 <= i < |names| ==> !StartsWith(names[i], "partition")
    ensures Entries(names, formData, cp) == []
  {
    if names != [] {
      EntriesIgnoreOtherFields(names[1..], formData, cp);
    }
  }

  /** Entries depend only on the values of the partition fields: changing a
      non-partition field leaves them as they were. */
  lemma {:induction false} EntriesOnlyReadPartitionFields(names: seq<string>, formData: Obj<Field>, k: string, v: Field, cp: map<string, bool>)
    requires Listed(names, formData)
    requires !StartsWith(k, "partition")
    ensures Entries(names, formData.Put(k, v), cp) == Entries(names, formData, cp)
  {
    if names != [] {
      EntriesOnlyReadPartitionFields(names[1..], formData, k, v, cp);
    }
  }

  /** Setting a form field that is not a partition field (`lastMessagesNr`,
      `exportMethod`, `kvSep`, `exportNulls`, ...) leaves the parameter
      unchanged, whether or not the field existed. */
  lemma NonPartitionFieldsExcluded(formData: Obj<Field>, checked: Obj<bool>, k: string, v: Field)
    requires formData.Valid() && checked.Valid()
    requires !StartsWith(k, "partition")
    ensures OffsetsParam(formData.Put(k, v), checked) == OffsetsParam(formData, checked)
  {
    EntriesAfterOtherFieldPut(formData, k, v, CheckedByPartition(map[], checked.keys, checked));
  }

  lemma EntriesAfterOtherFieldPut(formData: Obj<Field>, k: string, v: Field, cp: map<string, bool>)
    requires formData.Valid()
    requires !StartsWith(k, "partition")
    ensures formData.Put(k, v).Valid()
    ensures Entries(formData.Put(k, v).keys, formData.Put(k, v), cp) == Entries(formData.keys, formData, cp)
  {
    var fd := formData.Put(k, v);
    ListedSuffix(formData.keys, formData, 0);
    ListedSuffix(fd.keys, fd, 0);
    assert Listed(formData.keys, fd);
    EntriesOnlyReadPartitionFields(formData.keys, formData, k, v, cp);
    if k !in formData.vals {
      NewOtherFieldAddsNothing(formData.keys, fd, k, cp);
    }
  }

  lemma NewOtherFieldAddsNothing(names: seq<string>, fd: Obj<Field>, k: string, cp: map<string, bool>)
    requires Listed(names, fd) && k in fd.vals
    requires !StartsWith(k, "partition")
    ensures Listed(names + [k], fd)
    ensures Entries(names + [k], fd, cp) == Entries(names, fd, cp)
  {
    assert Listed(names + [k], fd);
    EntriesAppend(names, [k], fd, cp);
    EntriesIgnoreOtherFields([k], fd, cp);
  }

  /** The entries are exactly those of the selected fields. */
  lemma {:induction false} EntriesExactly(names: seq<string>, formData: Obj<Field>, cp: map<string, bool>)
    requires Listed(names, formData)
    ensures forall e :: e in Entries(names, formData, cp) <==>
      exists i :: 0 <= i < |names| && Selected(names[i], cp) && e == EntryText(names[i], formData)
  {
    if names != [] {
      EntriesExactly(names[1..], formData, cp);
      forall e | e in Entries(names, formData, cp)
        ensures exists i :: 0 <= i < |names| && Selected(names[i], cp) && e == EntryText(names[i], formData)
      {
        if e !in Entries(names[1..], formData, cp) {
          assert Selected(names[0], cp) && e == EntryText(names[0], formData);
        } else {
          var i :| 0 <= i < |names[1..]| && Selected(names[1..][i], cp) && e == EntryText(names[1..][i], formData);
          assert names[1..][i] == names[i + 1];
        }
      }
      forall e | exists i :: 0 <= i < |names| && Selected(names[i], cp) && e == EntryText(names[i], formData)
        ensures e in Entries(names, formData, cp)
      {
        var i :| 0 <= i < |names| && Selected(names[i], cp) && e == EntryText(names[i], formData);
        if i > 0 {
          assert names[1..][i - 1] == names[i];
        }
      }
    }
  }

  /** No selected field gives no entries... */
  lemma {:induction false} EntriesNoneSelected(names: seq<string>, formData: Obj<Field>, cp: map<string, bool>)
    requires Listed(names, formData)
    requires forall i :: 0 <= i < |names| ==> !Selected(names[i], cp)
    ensures Entries(names, formData, cp) == []
  {
    if names != [] {
      EntriesNoneSelected(names[1..], formData, cp);
    }
  }

  /** ...and the empty parameter. */
  lemma NothingCheckedGivesEmpty(formData: Obj<Field>, checked: Obj<bool>)
    requires formData.Valid() && checked.Valid()
    requires forall k :: k in checked.vals ==> !checked.vals[k]
    ensures OffsetsParam(formData, checked) == ""
  {
    var cp := CheckedByPartition(map[], checked.keys, checked);
    CheckedByPartitionFalse(map[], checked.keys, checked);
    assert forall p :: p in cp ==> !cp[p];
    EntriesNoneSelected(formData.keys, formData, cp);
  }

  lemma {:induction false} CheckedByPartitionFalse(acc: map<string, bool>, names: seq<string>, checked: Obj<bool>)
    requires Listed(names, checked)
    requires forall i :: 0 <= i < |names| ==> !checked.vals[names[i]]
    requires forall p :: p in acc ==> !acc[p]
    ensures forall p :: p in CheckedByPartition(acc, names, checked) ==> !CheckedByPartition(acc, names, checked)[p]
    decreases |names|
  {
    if names != [] {
      var acc' := acc[PartitionOf(names[0]) := checked.vals[names[0]]];
      assert !checked.vals[names[0]];
      CheckedByPartitionFalse(acc', names[1..], checked);
      assert CheckedByPartition(acc, names, checked) == CheckedByPartition(acc', names[1..], checked);
    }
  }

  /** The flag recorded for an id is that of the last flag name with that
      id... */
  lemma {:induction false} CheckedByPartitionAt(acc: map<string, bool>, names: seq<string>, checked: Obj<bool>, j: nat)
    requires Listed(names, checked)
    requires j < |names|
    requires forall i :: j < i < |names| ==> PartitionOf(names[i]) != PartitionOf(names[j])
    ensures PartitionOf(names[j]) in CheckedByPartition(acc, names, checked)
    ensures CheckedByPartition(acc, names, checked)[PartitionOf(names[j])] == checked.vals[names[j]]
    decreases |names|
  {
    var acc' := acc[PartitionOf(names[0]) := checked.vals[names[0]]];
    if j == 0 {
      CheckedByPartitionMiss(acc', names[1..], checked, PartitionOf(names[0]));
    } else {
      CheckedByPartitionAt(acc', names[1..], checked, j - 1);
    }
  }

  /** ...and an id no flag name carries is not recorded. */
  lemma {:induction false} CheckedByPartitionMiss(acc: map<string, bool>, names: seq<string>, checked: Obj<bool>, p: string)
    requires Listed(names, checked)
    requires forall i :: 0 <= i < |names| ==> PartitionOf(names[i]) != p
    ensures p in CheckedByPartition(acc, names, checked) <==> p in acc
    ensures p in acc ==> CheckedByPartition(acc, names, checked)[p] == acc[p]
    decreases |names|
  {
    if names != [] {
      CheckedByPartitionMiss(acc[PartitionOf(names[0]) := checked.vals[names[0]]], names[1..], checked, p);
    }
  }
}
