/** The export form's state and the handlers that change it: set-up from the
    topic's partitions, the check flags, the offset resets, and the
    accumulation of the exported text. */
module TopicExportForm {
  import opened Strings
  import opened Js
  import opened Partitions
  import opened OffsetRules
  import opened ExportOutput

  /** The form data before any partition is known. */
  function InitialFormData(): (r: Obj<Field>)
    ensures r.Valid()
    ensures r.keys == ["lastMessagesNr", "exportMethod", "kvSep", "exportNulls"]
  {
    Obj(["lastMessagesNr", "exportMethod", "kvSep", "exportNulls"],
        map["lastMessagesNr" := Text(""), "exportMethod" := Text("fullRecord"),
            "kvSep" := Text(":"), "exportNulls" := Flag(false)])
  }

  /** The form starts in full-record mode with `:` as the key-value
      separator, skipping nulls, and no last-messages count. */
  lemma InitialOptions()
    ensures OptionsOf(InitialFormData()) == Options(FullRecord, ":", false)
    ensures InitialFormData().Get("lastMessagesNr") == Some(Text(""))
  {
  }

  /** None of the initial fields is a partition field. */
  lemma InitialFieldsNotPartitions()
    ensures forall i :: 0 <= i < |InitialFormData().keys| ==> !StartsWith(InitialFormData().keys[i], "partition")
  {
    NotStartsWith("lastMessagesNr", "partition");
    NotStartsWith("exportMethod", "partition");
    NotStartsWith("kvSep", "partition");
    NotStartsWith("exportNulls", "partition");
  }

  /** The check flags after `checked["check-partition-<id>"] = true` for each
      partition in turn. */
  function MarkChecked(checked: Obj<bool>, ps: seq<Partition>): (r: Obj<bool>)
    ensures checked.Valid() ==> r.Valid()
  {
    if ps == [] then checked
    else MarkChecked(checked, ps[..|ps| - 1]).Put(CheckField(ps[|ps| - 1].id), true)
  }

  /** The check-flag names of the partitions, in order. */
  function FlagNames(ps: seq<Partition>): (r: seq<string>)
    ensures |r| == |ps|
    ensures forall i :: 0 <= i < |ps| ==> r[i] == CheckField(ps[i].id)
  {
    seq(|ps|, i requires 0 <= i < |ps| => CheckField(ps[i].id))
  }

  /** Every partition's flag is set, whatever the flags were before. */
  lemma {:induction false} MarkCheckedAt(checked: Obj<bool>, ps: seq<Partition>, j: nat)
    requires j < |ps|
    ensures CheckField(ps[j].id) in MarkChecked(checked, ps).vals
    ensures MarkChecked(checked, ps).vals[CheckField(ps[j].id)]
  {
    if j < |ps| - 1 {
      MarkCheckedAt(checked, ps[..|ps| - 1], j);
    }
  }

  /** A flag of no partition in `ps` is left as it was. */
  lemma {:induction false} MarkCheckedElsewhere(checked: Obj<bool>, ps: seq<Partition>, k: string)
    requires forall i :: 0 <= i < |ps| ==> k != CheckField(ps[i].id)
    ensures k in MarkChecked(checked, ps).vals <==> k in checked.vals
    ensures k in checked.vals ==> MarkChecked(checked, ps).vals[k] == checked.vals[k]
  {
    if ps != [] {
      MarkCheckedElsewhere(checked, ps[..|ps| - 1], k);
    }
  }

  /** New flags are listed after the existing ones, in partition order. */
  lemma {:induction false} MarkCheckedFresh(checked: Obj<bool>, ps: seq<Partition>)
    requires DistinctIds(ps)
    requires forall i :: 0 <= i < |ps| ==> CheckField(ps[i].id) !in checked.vals
    ensures MarkChecked(checked, ps).keys == checked.keys + FlagNames(ps)
  {
    if ps != [] {
      var init := ps[..|ps| - 1];
      var last := ps[|ps| - 1];
      assert forall i :: 0 <= i < |init| ==> init[i] == ps[i];
      MarkCheckedFresh(checked, init);
      LastFlagIsNew(init, last);
      MarkCheckedElsewhere(checked, init, CheckField(last.id));
      var before := MarkChecked(checked, init);
      assert CheckField(last.id) !in before.vals;
      assert MarkChecked(checked, ps) == before.Put(CheckField(last.id), true);
      assert MarkChecked(checked, ps).keys == before.keys + [CheckField(last.id)];
      FlagNamesStep(ps);
    }
  }

  lemma FlagNamesStep(ps: seq<Partition>)
    requires ps != []
    ensures FlagNames(ps) == FlagNames(ps[..|ps| - 1]) + [CheckField(ps[|ps| - 1].id)]
  {
  }

  /** A partition whose id is new has a new flag name. */
  lemma LastFlagIsNew(init: seq<Partition>, last: Partition)
    requires forall i :: 0 <= i < |init| ==> init[i].id != last.id
    ensures forall i :: 0 <= i < |init| ==> CheckField(init[i].id) != CheckField(last.id)
  {
    forall i | 0 <= i < |init| ensures CheckField(init[i].id) != CheckField(last.id) {
      CheckFieldInjective(init[i].id, last.id);
    }
  }

  /** Every flag set to `v`; the flags and their order stay as they are. */
  function SetAllFlags(checked: Obj<bool>, v: bool): (r: Obj<bool>)
    ensures r.keys == checked.keys
    ensures forall k :: k in r.vals <==> k in checked.vals
    ensures forall k :: k in r.vals ==> r.vals[k] == v
    ensures checked.Valid() ==> r.Valid()
  {
    Obj(checked.keys, map k | k in checked.vals :: v)
  }

  class TopicExport {
    var topicId: string
    /** The partitions of the topic-info response; None until set-up. */
    var selectedTopic: Option<seq<Partition>>
    var checked: Obj<bool>
    var formData: Obj<Field>
    /** The offset bounds the validation schema holds for each partition field. */
    var schema: map<string, Bounds>
    /** The export text; the empty string stands for the initial `undefined`,
        which is falsy like it. */
    var formattedOutput: string

    ghost predicate Valid()
      reads this
    {
      checked.Valid() && formData.Valid()
    }

    constructor (topicId: string)
      ensures Valid()
      ensures this.topicId == topicId && selectedTopic.None?
      ensures checked == EmptyObj() && formData == InitialFormData()
      ensures schema == map[] && formattedOutput == ""
    {
      this.topicId := topicId;
      selectedTopic := None;
      checked := EmptyObj();
      formData := InitialFormData();
      schema := map[];
      formattedOutput := "";
    }

    /** For each partition: its offset bounds into the schema, its first
        offset into the form data, and its check flag set. */
    method SetupInitialData(partitions: seq<Partition>)
      requires Valid()
      modifies this`formData, this`checked, this`schema, this`selectedTopic
      ensures Valid()
      ensures formData == AssignAll(old(formData), FirstOffsets(partitions))
      ensures checked == MarkChecked(old(checked), partitions)
      ensures schema == SchemaFor(old(schema), partitions)
      ensures selectedTopic == Some(partitions)
    {
      formData, checked, schema := SetupPartitions(formData, checked, schema, partitions);
      selectedTopic := Some(partitions);
    }

    /** A checkbox change: the flag it names takes the box's state. */
    method CheckedTopicOffset(name: string, value: bool)
      requires Valid()
      modifies this`checked
      ensures Valid()
      ensures checked == old(checked).Put(name, value)
    {
      checked := checked.Put(name, value);
    }

    /** Check or uncheck all partitions. */
    method UnCheckAll(value: bool)
      requires Valid()
      modifies this`checked
      ensures Valid()
      ensures checked == SetAllFlags(old(checked), value)
    {
      checked := SetFlags(checked, value);
    }

    /** Reset to first; throws (true) when no topic has been loaded. */
    method ResetToFirstOffsets() returns (thrown: bool)
      requires Valid()
      modifies this`formData
      ensures Valid()
      ensures thrown <==> selectedTopic.None?
      ensures thrown ==> formData == old(formData)
      ensures !thrown ==> formData == AssignAll(old(formData), FirstOffsets(selectedTopic.value))
    {
      if selectedTopic.None? {
        return true;
      }
      formData := WriteFirstOffsets(formData, selectedTopic.value);
      thrown := false;
    }

    /** Reset to last; throws (true) when no topic has been loaded. */
    method ResetToLastOffsets() returns (thrown: bool)
      requires Valid()
      modifies this`formData
      ensures Valid()
      ensures thrown <==> selectedTopic.None?
      ensures thrown ==> formData == old(formData)
      ensures !thrown ==> formData == AssignAll(old(formData), LastOffsets(selectedTopic.value))
    {
      if selectedTopic.None? {
        return true;
      }
      formData := WriteLastOffsets(formData, selectedTopic.value);
      thrown := false;
    }

    /** Reset to the last `value` messages, and remember `value`; throws
        (true) when no topic has been loaded. */
    method ResetToCalculatedOffsets(value: string) returns (thrown: bool)
      requires Valid()
      modifies this`formData
      ensures Valid()
      ensures thrown <==> selectedTopic.None?
      ensures thrown ==> formData == old(formData)
      ensures !thrown ==> formData == AssignAll(old(formData), CalculatedOffsets(selectedTopic.value, NumberOf(value)))
                                      .Put("lastMessagesNr", Text(value))
    {
      if selectedTopic.None? {
        return true;
      }
      var fd := WriteCalculatedOffsets(formData, selectedTopic.value, NumberOf(value));
      formData := fd.Put("lastMessagesNr", Text(value));
      thrown := false;
    }

    /** The offsets looked up by timestamp, written into the form data. */
    method HandleOffsetsByTimestamp(offsets: seq<PartitionOffset>)
      requires Valid()
      modifies this`formData
      ensures Valid()
      ensures formData == AssignAll(old(formData), offsets)
    {
      formData := WriteOffsets(formData, offsets);
    }

    /** A batch of records appended to the export text; true when formatting
        a record threw, which ends the batch. */
    method HandleMessages(records: seq<Record>) returns (thrown: bool)
      requires Valid()
      modifies this`formattedOutput
      ensures Valid()
      ensures Progress(formattedOutput, thrown) == Handle(old(formattedOutput), OptionsOf(formData), records)
    {
      var o := OptionsOf(formData);
      var buffer := formattedOutput;
      var i := 0;
      while i < |records|
        invariant 0 <= i <= |records|
        invariant Handle(formattedOutput, o, records) == Handle(buffer, o, records[i..])
      {
        var record := records[i];
        var before := buffer;
        assert records[i..][1..] == records[i + 1..];
        if !Skipped(o, record) {
          var out := FormatOutput(o, record);
          if out.TypeError? {
            formattedOutput := buffer;
            return true;
          }
          if buffer != "" {
            buffer := buffer + "\n" + (if out.Str? then out.text else "undefined");
          } else {
            buffer := if out.Str? then out.text else "";
          }
        }
        assert Step(before, o, record) == Progress(buffer, false);
        i := i + 1;
      }
      formattedOutput := buffer;
      thrown := false;
    }
  }

  /** The loop of unCheckAll over the flags. */
  method SetFlags(checked: Obj<bool>, value: bool) returns (ch: Obj<bool>)
    requires checked.Valid()
    ensures ch == SetAllFlags(checked, value)
  {
    ch := checked;
    var i := 0;
    while i < |ch.keys|
      invariant 0 <= i <= |ch.keys|
      invariant ch.Valid()
      invariant ch.keys == checked.keys
      invariant forall k :: k in ch.vals <==> k in checked.vals
      invariant forall j :: 0 <= j < i ==> ch.vals[ch.keys[j]] == value
    {
      ch := ch.Put(ch.keys[i], value);
      i := i + 1;
    }
    forall k | k in ch.vals
      ensures ch.vals[k] == value
    {
      var j :| 0 <= j < |ch.keys| && ch.keys[j] == k;
    }
    assert ch.vals == SetAllFlags(checked, value).vals;
  }

  /** The set-up loop: for each partition its offset bounds into the schema,
      its first offset into the form data and its check flag set to true. */
  method SetupPartitions(formData: Obj<Field>, checked: Obj<bool>, schema: map<string, Bounds>, partitions: seq<Partition>)
    returns (fd: Obj<Field>, ch: Obj<bool>, sc: map<string, Bounds>)
    ensures fd == AssignAll(formData, FirstOffsets(partitions))
    ensures ch == MarkChecked(checked, partitions)
    ensures sc == SchemaFor(schema, partitions)
  {
    fd, ch, sc := formData, checked, schema;
    var i := 0;
    while i < |partitions|
      invariant 0 <= i <= |partitions|
      invariant fd == AssignAll(formData, FirstOffsets(partitions[..i]))
      invariant ch == MarkChecked(checked, partitions[..i])
      invariant sc == SchemaFor(schema, partitions[..i])
    {
      var partition := partitions[i];
      var name := PartitionField(partition.id);
      sc := sc[name := BoundsOf(partition)];
      fd := fd.Put(name, Num(partition.first));
      ch := ch.Put(CheckField(partition.id), true);
      AssignFirstStep(formData, partitions, i);
      MarkCheckedStep(checked, partitions, i);
      SchemaForStep(schema, partitions, i);
      i := i + 1;
    }
    assert partitions[..i] == partitions;
  }

  /** The loop of reset-to-first (and of the set-up) over the partitions. */
  method WriteFirstOffsets(formData: Obj<Field>, partitions: seq<Partition>) returns (fd: Obj<Field>)
    ensures fd == AssignAll(formData, FirstOffsets(partitions))
  {
    fd := formData;
    var i := 0;
    while i < |partitions|
      invariant 0 <= i <= |partitions|
      invariant fd == AssignAll(formData, FirstOffsets(partitions[..i]))
    {
      var partition := partitions[i];
      fd := fd.Put(PartitionField(partition.id), Num(partition.first));
      AssignFirstStep(formData, partitions, i);
      i := i + 1;
    }
    assert partitions[..i] == partitions;
  }

  /** The loop of reset-to-last over the partitions. */
  method WriteLastOffsets(formData: Obj<Field>, partitions: seq<Partition>) returns (fd: Obj<Field>)
    ensures fd == AssignAll(formData, LastOffsets(partitions))
  {
    fd := formData;
    var i := 0;
    while i < |partitions|
      invariant 0 <= i <= |partitions|
      invariant fd == AssignAll(formData, LastOffsets(partitions[..i]))
    {
      var partition := partitions[i];
      var offset := LastOffset(partition);
      fd := fd.Put(PartitionField(partition.id), Num(offset));
      AssignLastStep(formData, partitions, i);
      i := i + 1;
    }
    assert partitions[..i] == partitions;
  }

  /** The loop of reset-to-the-last-`n`-messages over the partitions. */
  method WriteCalculatedOffsets(formData: Obj<Field>, partitions: seq<Partition>, n: Option<int>) returns (fd: Obj<Field>)
    ensures fd == AssignAll(formData, CalculatedOffsets(partitions, n))
  {
    fd := formData;
    var i := 0;
    while i < |partitions|
      invariant 0 <= i <= |partitions|
      invariant fd == AssignAll(formData, CalculatedOffsets(partitions[..i], n))
    {
      var partition := partitions[i];
      var offset := CalculatedOffset(partition.last, n);
      fd := fd.Put(PartitionField(partition.id), Num(offset));
      AssignCalculatedStep(formData, partitions, n, i);
      i := i + 1;
    }
    assert partitions[..i] == partitions;
  }

  /** The loop of handleOffsetsByTimestamp over the response entries. */
  method WriteOffsets(formData: Obj<Field>, offsets: seq<PartitionOffset>) returns (fd: Obj<Field>)
    ensures fd == AssignAll(formData, offsets)
  {
    fd := formData;
    var i := 0;
    while i < |offsets|
      invariant 0 <= i <= |offsets|
      invariant fd == AssignAll(formData, offsets[..i])
    {
      fd := fd.Put(PartitionField(offsets[i].partition), Num(offsets[i].offset));
      assert offsets[..i + 1][..i] == offsets[..i];
      i := i + 1;
    }
    assert offsets[..i] == offsets;
  }


  lemma AssignFirstStep(formData: Obj<Field>, ps: seq<Partition>, i: nat)
    requires i < |ps|
    ensures AssignAll(formData, FirstOffsets(ps[..i + 1]))
         == AssignAll(formData, FirstOffsets(ps[..i])).Put(PartitionField(ps[i].id), Num(ps[i].first))
  {
    assert ps[..i + 1][..i] == ps[..i];
    var xs := FirstOffsets(ps[..i + 1]);
    assert xs[..|xs| - 1] == FirstOffsets(ps[..i]);
  }

  lemma AssignLastStep(formData: Obj<Field>, ps: seq<Partition>, i: nat)
    requires i < |ps|
    ensures AssignAll(formData, LastOffsets(ps[..i + 1]))
         == AssignAll(formData, LastOffsets(ps[..i])).Put(PartitionField(ps[i].id), Num(LastOffset(ps[i])))
  {
    assert ps[..i + 1][..i] == ps[..i];
    var xs := LastOffsets(ps[..i + 1]);
    assert xs[..|xs| - 1] == LastOffsets(ps[..i]);
  }

  lemma AssignCalculatedStep(formData: Obj<Field>, ps: seq<Partition>, n: Option<int>, i: nat)
    requires i < |ps|
    ensures AssignAll(formData, CalculatedOffsets(ps[..i + 1], n))
         == AssignAll(formData, CalculatedOffsets(ps[..i], n)).Put(PartitionField(ps[i].id), Num(CalculatedOffset(ps[i].last, n)))
  {
    assert ps[..i + 1][..i] == ps[..i];
    var xs := CalculatedOffsets(ps[..i + 1], n);
    assert xs[..|xs| - 1] == CalculatedOffsets(ps[..i], n);
  }

  lemma MarkCheckedStep(checked: Obj<bool>, ps: seq<Partition>, i: nat)
    requires i < |ps|
    ensures MarkChecked(checked, ps[..i + 1]) == MarkChecked(checked, ps[..i]).Put(CheckField(ps[i].id), true)
  {
    assert ps[..i + 1][..i] == ps[..i];
  }

  lemma SchemaForStep(schema: map<string, Bounds>, ps: seq<Partition>, i: nat)
    requires i < |ps|
    ensures SchemaFor(schema, ps[..i + 1]) == SchemaFor(schema, ps[..i])[PartitionField(ps[i].id) := BoundsOf(ps[i])]
  {
    assert ps[..i + 1][..i] == ps[..i];
  }
}
