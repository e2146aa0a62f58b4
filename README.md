# TopicExport model

A Dafny model of the state bookkeeping behind AKHQ's topic export form
(`TopicExport.jsx`). The form shows one offset input and one check box per
partition of a Kafka topic. It builds from them the `offsets` parameter of the
export request (`<id>-<offset>` for every checked partition, joined with
`_`). It collects the records streamed back into one text buffer, rendered
as full JSON records, `key<sep>value` lines or value lines. Finally it offers
the buffer as a download named after the topic.

The model is organised by concern:

- `Strings`: prefix tests, `split(sep).pop()` as `LastSegment`,
  `replaceAll`/`replace` of one character, joining, and decimal rendering and
  parsing of integers.
- `Js`: the JavaScript values the form stores.
  - `Obj<V>` is a plain object used as a dictionary: an insertion-ordered key
    list plus a map. `Put` is `o[k] = v`.
  - Form fields are `Num`, `Text` or `Flag`.
  - It also gives the string conversion `+` applies, truthiness, and
    `Number(input.value)` as `NumberOf`.
- `Partitions`: a partition's id and first/last offsets, and the field
  names `partition-<id>` (offset input) and `check-partition-<id>` (check
  box).
- `OffsetRules`: the per-partition offset rules of set-up and the three
  resets, and `AssignAll`, the `forEach` that writes them into the form
  data. Also the Joi bounds each partition input gets.
- `OffsetsParameter`: `createPartitionOffsetsList`, as a specification
  function `OffsetsParam` and as a method with the source's two loops proved
  against it.
- `ExportOutput`: `formatOutput`, the null filter and the buffer
  accumulation of `handleMessages` (`Handle`), and the download file name.
- `TopicExportForm`: the component itself, as a class `TopicExport`.
  - Its fields are the state the source mutates: `formData`, `checked`,
    `selectedTopic`, the Joi `schema` and `formattedOutput`.
  - It has one method per handler in the core.
  - The loops that write the dictionaries are module-level methods over
    values, proved against the specification functions of `OffsetRules`
    (offsets and bounds) and of `TopicExportForm` (`MarkChecked`,
    `SetAllFlags` for the check-box flags).
- `ExportScenarios`: end-to-end consequences. Right after set-up the offsets
  parameter lists every partition in order. It does so again after one reset
  that follows set-up directly, with the flags as set-up left them, when the
  reset writes one offset per partition in partition order (as the three
  resets do; a timestamp response needs that shape). After "uncheck all" it
  is empty. A check box alone decides whether its partition is exported.

## Model

| member | source | states |
|---|---|---|
| Strings.LastSegment | client/src/containers/Topic/TopicExport/TopicExport.jsx:112-113 | the last segment of `split('-')` contains no separator |
| Strings.LastSegmentIsSuffix | client/src/containers/Topic/TopicExport/TopicExport.jsx:112-113 | the segment `pop()` returns is a suffix of the name, preceded by the separator unless it is the whole name |
| Strings.LastSegmentAfterSep | client/src/containers/Topic/TopicExport/TopicExport.jsx:118-119 | a name ending in `-t`, with no `-` in `t`, yields exactly `t` |
| Strings.StartsWith | client/src/containers/Topic/TopicExport/TopicExport.jsx:117 | `s.startsWith(prefix)`: the first characters of `s` are `prefix` |
| Strings.ReplaceChar | client/src/containers/Topic/TopicExport/TopicExport.jsx:129 | `replaceAll` of one character replaces every occurrence and keeps every other character in place |
| Strings.FirstIndex | client/src/containers/Topic/TopicExport/TopicExport.jsx:130-131 | the position of the first occurrence of a character that occurs |
| Strings.RemoveFirst | client/src/containers/Topic/TopicExport/TopicExport.jsx:130-131 | `replace` of a one-character string removes the first occurrence (`FirstIndex`) and keeps everything before and after it, and changes nothing when the character is absent |
| Strings.Join | client/src/containers/Topic/TopicExport/TopicExport.jsx:128 | `Array.prototype.toString` of the entry list is their join with `,` |
| Strings.ReplaceCharJoin | client/src/containers/Topic/TopicExport/TopicExport.jsx:128-129 | replacing the separator of a join whose parts lack it is the same as joining with the new separator |
| Strings.JoinAvoids | client/src/containers/Topic/TopicExport/TopicExport.jsx:128 | a character absent from the parts and the separator is absent from the join |
| Strings.NatToString | client/src/containers/Topic/TopicExport/TopicExport.jsx:71 | the decimal text of a partition id in its field name: non-empty, decimal digits only, at least two digits from 10 on |
| Strings.NatToStringInjective | client/src/containers/Topic/TopicExport/TopicExport.jsx:71 | distinct partition ids have distinct decimal texts |
| Strings.IntToString | client/src/containers/Topic/TopicExport/TopicExport.jsx:123 | the text `+` gives an integer offset: non-empty, each character a decimal digit or `-` |
| Strings.IntToStringSign | client/src/containers/Topic/TopicExport/TopicExport.jsx:123 | in an integer offset's text a `-` can only come first, and it does exactly when the offset is negative |
| Strings.DigitsValueOfNatToString | client/src/containers/Topic/TopicExport/TopicExport.jsx:314 | the decimal text of a number reads back as that number |
| Js.Obj.Put | client/src/containers/Topic/TopicExport/TopicExport.jsx:80 | `o[k] = v` sets `k`, leaves every other property alone, keeps an existing key's place and lists a new key last, and keeps the object well formed |
| Js.Obj.Get | client/src/containers/Topic/TopicExport/TopicExport.jsx:185-202 | `o[k]` is the property's value exactly when it is present |
| Js.FieldText | client/src/containers/Topic/TopicExport/TopicExport.jsx:123 | the string conversion `+` applies to a form field; it is the text `undefined` only for that very string |
| Js.PropertyText | client/src/containers/Topic/TopicExport/TopicExport.jsx:202 | the string conversion of a property read, as for `formData.kvSep`: the text `undefined` exactly when the property is missing or holds that very string |
| Js.EmptyObj | client/src/containers/Topic/TopicExport/TopicExport.jsx:28 | the `{}` the state starts from: well formed and without keys |
| Js.Truthy | client/src/containers/Topic/TopicExport/TopicExport.jsx:185-188 | JavaScript truthiness of a property read: absent, 0, `""` and `false` are falsy |
| Js.NumberOf | client/src/containers/Topic/TopicExport/TopicExport.jsx:314 | `Number` of the empty input is 0; of a text that is neither decimal digits nor `-` followed by at least one digit it is NaN |
| Js.NumberOfIntToString | client/src/containers/Topic/TopicExport/TopicExport.jsx:314 | `Number` of an integer's text is that integer |
| Partitions.PartitionField | client/src/containers/Topic/TopicExport/TopicExport.jsx:71 | the offset field name `partition-<id>` |
| Partitions.CheckField | client/src/containers/Topic/TopicExport/TopicExport.jsx:72 | the check flag name `check-partition-<id>` |
| Partitions.PartitionOf | client/src/containers/Topic/TopicExport/TopicExport.jsx:112-119 | `split('-').pop()` of a name: the text after its last `-`, which holds no `-` |
| Partitions.PartitionFieldInjective | client/src/containers/Topic/TopicExport/TopicExport.jsx:71 | different partitions get different `partition-<id>` fields |
| Partitions.CheckFieldInjective | client/src/containers/Topic/TopicExport/TopicExport.jsx:72 | different partitions get different `check-partition-<id>` flags |
| Partitions.PartitionOfPartitionField | client/src/containers/Topic/TopicExport/TopicExport.jsx:118-119 | the id read back from an offset field is the partition's id |
| Partitions.PartitionOfCheckField | client/src/containers/Topic/TopicExport/TopicExport.jsx:112-113 | the id read back from a check flag is the partition's id |
| Partitions.FieldKinds | client/src/containers/Topic/TopicExport/TopicExport.jsx:117 | offset fields start with `partition` and check flags do not |
| OffsetRules.LastOffset | client/src/containers/Topic/TopicExport/TopicExport.jsx:296-303 | reset to last: `last` when first equals last, `last - 1` when last is positive, 0 otherwise; within the partition's bounds for well-formed offsets |
| OffsetRules.CalculatedOffset | client/src/containers/Topic/TopicExport/TopicExport.jsx:314-315 | `last - n` when positive, else 0; never negative; 0 when `n` is NaN; at most `last` for `n >= 0` |
| OffsetRules.FirstOffsets | client/src/containers/Topic/TopicExport/TopicExport.jsx:283-286 | one `firstOffset` per partition, in order |
| OffsetRules.LastOffsets | client/src/containers/Topic/TopicExport/TopicExport.jsx:294-304 | one reset-to-last offset per partition, in order |
| OffsetRules.CalculatedOffsets | client/src/containers/Topic/TopicExport/TopicExport.jsx:312-316 | one calculated offset per partition, in order |
| OffsetRules.AssignAll | client/src/containers/Topic/TopicExport/TopicExport.jsx:352-355 | writing offsets into the form data keeps it well formed |
| OffsetRules.DistinctIdsGiveDistinctPartitions | client/src/containers/Topic/TopicExport/TopicExport.jsx:283-315 | the reset offset lists name each partition once |
| OffsetRules.AssignAllAt | client/src/containers/Topic/TopicExport/TopicExport.jsx:352-355 | every listed partition's field holds its listed offset |
| OffsetRules.AssignAllElsewhere | client/src/containers/Topic/TopicExport/TopicExport.jsx:352-355 | a field that is not a listed partition's field is neither added, removed nor changed |
| OffsetRules.AssignAllKeys | client/src/containers/Topic/TopicExport/TopicExport.jsx:294-304 | offset writes only append keys, and every appended key is a `partition-<id>` field |
| OffsetRules.AssignAllExisting | client/src/containers/Topic/TopicExport/TopicExport.jsx:283-286 | no field is removed, and the key order is unchanged when every written field already exists |
| OffsetRules.AssignAllFresh | client/src/containers/Topic/TopicExport/TopicExport.jsx:70-80 | new partitions' fields are appended in partition order |
| OffsetRules.ResetToLastWithinSchema | client/src/containers/Topic/TopicExport/TopicExport.jsx:294-304 | after reset to last, each offset is a number within its partition's Joi bounds |
| OffsetRules.ResetToFirstWithinSchema | client/src/containers/Topic/TopicExport/TopicExport.jsx:283-286 | after reset to first, each partition's field holds its first offset, which its Joi bounds accept for well-formed offsets |
| OffsetRules.CalculatedWithinSchema | client/src/containers/Topic/TopicExport/TopicExport.jsx:314-315 | a calculated offset is within the Joi bounds exactly when `n <= last - first` or the first offset is 0 |
| OffsetRules.BoundsOf | client/src/containers/Topic/TopicExport/TopicExport.jsx:74-77 | the `min`/`max` of a partition's Joi offset field: they accept the partition's own first and last offsets whenever these are ordered |
| OffsetRules.Within | client/src/containers/Topic/TopicExport/TopicExport.jsx:74-77 | the definition of what a `Joi.number().min(a).max(b)` field accepts: an integer from `a` to `b` inclusive |
| OffsetRules.SchemaFor | client/src/containers/Topic/TopicExport/TopicExport.jsx:74-78 | adding the partition bounds keeps every earlier key, adds only partition fields, and leaves the bounds of every key no partition names unchanged |
| OffsetRules.SchemaForAt | client/src/containers/Topic/TopicExport/TopicExport.jsx:74-78 | each partition's field is bounded by `[first, last]` |
| OffsetsParameter.CheckedByPartition | client/src/containers/Topic/TopicExport/TopicExport.jsx:111-115 | the id-to-flag table of the first loop keeps every starting id and records the last name's flag for its id |
| OffsetsParameter.Selected | client/src/containers/Topic/TopicExport/TopicExport.jsx:117-121 | a field is exported when it starts with `partition` and the table flags its id `true` |
| OffsetsParameter.EntryText | client/src/containers/Topic/TopicExport/TopicExport.jsx:123 | `partition + "-" + formData[name]` |
| OffsetsParameter.Entries | client/src/containers/Topic/TopicExport/TopicExport.jsx:117-126 | the pushed entries are at most one per field, in key order |
| OffsetsParameter.Serialise | client/src/containers/Topic/TopicExport/TopicExport.jsx:128-131 | `toString()`, then every `,` replaced by `_` and the first `[` and `]` removed |
| OffsetsParameter.OffsetsParam | client/src/containers/Topic/TopicExport/TopicExport.jsx:105-131 | the offsets parameter: the serialised entries of the selected fields |
| OffsetsParameter.CreatePartitionOffsetsList | client/src/containers/Topic/TopicExport/TopicExport.jsx:105-132 | the two loops compute the offsets parameter `OffsetsParam` |
| OffsetsParameter.CollectCheckedPartitions | client/src/containers/Topic/TopicExport/TopicExport.jsx:111-115 | the first loop builds the id-to-flag table, where a later flag for the same id wins |
| OffsetsParameter.CollectPartitionOffsets | client/src/containers/Topic/TopicExport/TopicExport.jsx:117-126 | the second loop lists `id-offset` for the `partition…` fields whose id is flagged `true`, in key order |
| OffsetsParameter.CheckedByPartitionStep | client/src/containers/Topic/TopicExport/TopicExport.jsx:114 | one turn of the first loop sets the id's entry to the flag |
| OffsetsParameter.EntriesStep | client/src/containers/Topic/TopicExport/TopicExport.jsx:121-125 | one turn of the second loop pushes the entry exactly when the field is selected |
| OffsetsParameter.SerialisePlain | client/src/containers/Topic/TopicExport/TopicExport.jsx:128-131 | when no entry holds `,`, `[` or `]`, the parameter is the entries joined with `_` |
| OffsetsParameter.EntriesAppend | client/src/containers/Topic/TopicExport/TopicExport.jsx:117-126 | the entries of consecutive key runs concatenate |
| OffsetsParameter.EntriesIgnoreOtherFields | client/src/containers/Topic/TopicExport/TopicExport.jsx:117 | fields not starting with `partition` contribute nothing |
| OffsetsParameter.EntriesOnlyReadPartitionFields | client/src/containers/Topic/TopicExport/TopicExport.jsx:117-123 | changing a non-partition field leaves the entries unchanged |
| OffsetsParameter.NonPartitionFieldsExcluded | client/src/containers/Topic/TopicExport/TopicExport.jsx:117-119 | setting a non-partition field, as `lastMessagesNr` is set, never changes the offsets parameter |
| OffsetsParameter.EntriesAfterOtherFieldPut | client/src/containers/Topic/TopicExport/TopicExport.jsx:117 | the same, over the form data's own key order, including a newly listed key |
| OffsetsParameter.NewOtherFieldAddsNothing | client/src/containers/Topic/TopicExport/TopicExport.jsx:117 | a non-partition key appended to the key order adds no entry |
| OffsetsParameter.EntriesExactly | client/src/containers/Topic/TopicExport/TopicExport.jsx:117-126 | a text is an entry if and only if it is `id-offset` of a selected field |
| OffsetsParameter.EntriesNoneSelected | client/src/containers/Topic/TopicExport/TopicExport.jsx:121 | no selected field gives no entries |
| OffsetsParameter.NothingCheckedGivesEmpty | client/src/containers/Topic/TopicExport/TopicExport.jsx:105-131 | with every flag false, the offsets parameter is the empty string |
| OffsetsParameter.CheckedByPartitionFalse | client/src/containers/Topic/TopicExport/TopicExport.jsx:111-115 | all-false flags give an all-false table |
| OffsetsParameter.CheckedByPartitionAt | client/src/containers/Topic/TopicExport/TopicExport.jsx:111-115 | the table holds the flag of the last check name with a given id |
| OffsetsParameter.CheckedByPartitionMiss | client/src/containers/Topic/TopicExport/TopicExport.jsx:111-115 | an id no check name carries keeps its starting entry |
| ExportOutput.StripLineBreaks | client/src/containers/Topic/TopicExport/TopicExport.jsx:202-204 | `replace(/[\r\n]+/gm, "")` leaves no CR or LF, and a text without them unchanged |
| ExportOutput.StripLineBreaksKeeps | client/src/containers/Topic/TopicExport/TopicExport.jsx:202-204 | every character other than CR and LF is kept as often as it occurs |
| ExportOutput.StripLineBreaksConcat | client/src/containers/Topic/TopicExport/TopicExport.jsx:202-204 | removing line breaks commutes with concatenation |
| ExportOutput.KeyLabel | client/src/containers/Topic/TopicExport/TopicExport.jsx:202 | the key part is the key, or `null` when it is falsy, and never empty |
| ExportOutput.FormatOutput | client/src/containers/Topic/TopicExport/TopicExport.jsx:196-206 | full record is the JSON text; value-only has no line breaks (`ValueOnlyLayout` states it exactly); key-value and value-only throw exactly on a null value; an unknown method gives `undefined` |
| ExportOutput.KeyValueLayout | client/src/containers/Topic/TopicExport/TopicExport.jsx:202 | key-value is the key label and separator followed by exactly the value with its line breaks removed, so no CR/LF and every other character kept |
| ExportOutput.ValueOnlyLayout | client/src/containers/Topic/TopicExport/TopicExport.jsx:204 | value-only is exactly the value with its line breaks removed: no CR or LF, every other character kept with its count |
| ExportOutput.MethodOf | client/src/containers/Topic/TopicExport/TopicExport.jsx:198-205 | the `switch` on `exportMethod`: the three known names, anything else unrecognised |
| ExportOutput.OptionsOf | client/src/containers/Topic/TopicExport/TopicExport.jsx:197-202 | the export method, separator text and null option read from the form data |
| ExportOutput.Skipped | client/src/containers/Topic/TopicExport/TopicExport.jsx:185-187 | a record is dropped when nulls are not exported and its value is null or `"null"` |
| ExportOutput.Append | client/src/containers/Topic/TopicExport/TopicExport.jsx:188-192 | the old buffer is kept as a prefix; an empty buffer is replaced by the text |
| ExportOutput.Step | client/src/containers/Topic/TopicExport/TopicExport.jsx:185-192 | one record never shortens the buffer, throws exactly when `Throws` holds, and leaves a dropped record's buffer as it was |
| ExportOutput.Handle | client/src/containers/Topic/TopicExport/TopicExport.jsx:184-193 | the records in order through `Step`, stopping at the first throw |
| ExportOutput.HandleKeepsEarlier | client/src/containers/Topic/TopicExport/TopicExport.jsx:184-193 | the buffer before a batch is a prefix of the buffer after it |
| ExportOutput.Kept | client/src/containers/Topic/TopicExport/TopicExport.jsx:185-187 | the records kept by the null filter are exactly the batch's records the filter lets through: each kept record is from the batch and passes, and each record that passes is kept |
| ExportOutput.KeptConcat | client/src/containers/Topic/TopicExport/TopicExport.jsx:184-190 | the filter keeps arrival order: what it keeps from two batches in turn is what it keeps from the first followed by what it keeps from the second |
| ExportOutput.HandleSkipsNulls | client/src/containers/Topic/TopicExport/TopicExport.jsx:185-187 | handling a batch is handling only its records that pass the null filter |
| ExportOutput.ExportNullsKeepsAll | client/src/containers/Topic/TopicExport/TopicExport.jsx:185 | with `exportNulls` set, no record is filtered |
| ExportOutput.HandleThrowsIff | client/src/containers/Topic/TopicExport/TopicExport.jsx:184-204 | handling throws if and only if some unfiltered record has a null value under key-value or value-only |
| ExportOutput.Texts | client/src/containers/Topic/TopicExport/TopicExport.jsx:189-191 | one rendered text per record, in order |
| ExportOutput.DropLeadingEmpty | client/src/containers/Topic/TopicExport/TopicExport.jsx:188 | a suffix of the texts after only empty ones, that starts with a non-empty text or is empty |
| ExportOutput.AppendAllIsJoin | client/src/containers/Topic/TopicExport/TopicExport.jsx:188-192 | appending texts with the truthiness test is joining with newlines, with leading empty texts dropped |
| ExportOutput.HandleAppendsTexts | client/src/containers/Topic/TopicExport/TopicExport.jsx:184-193 | when nothing throws, the buffer receives the kept records' texts in order |
| ExportOutput.HandleIsJoin | client/src/containers/Topic/TopicExport/TopicExport.jsx:184-193 | when nothing throws, the buffer after a batch is the old buffer and the kept texts joined with newlines, leading empty texts dropped |
| ExportOutput.ExportFileName | client/src/containers/Topic/TopicExport/TopicExport.jsx:163 | the topic with every `.` replaced by `_`, followed by `_export.txt` |
| ExportOutput.ExportDownload | client/src/containers/Topic/TopicExport/TopicExport.jsx:158-171 | a download is offered exactly when the buffer is truthy, with the buffer as content and the export file name |
| TopicExportForm.InitialFormData | client/src/containers/Topic/TopicExport/TopicExport.jsx:29-34 | the four option fields, in declaration order |
| TopicExportForm.InitialOptions | client/src/containers/Topic/TopicExport/TopicExport.jsx:29-34 | full record, separator `:`, nulls not exported, `lastMessagesNr` empty |
| TopicExportForm.InitialFieldsNotPartitions | client/src/containers/Topic/TopicExport/TopicExport.jsx:29-34 | no option field starts with `partition` |
| TopicExportForm.MarkChecked | client/src/containers/Topic/TopicExport/TopicExport.jsx:81 | setting the partitions' flags keeps the flag object well formed |
| TopicExportForm.MarkCheckedAt | client/src/containers/Topic/TopicExport/TopicExport.jsx:81 | every partition is checked after set-up |
| TopicExportForm.MarkCheckedElsewhere | client/src/containers/Topic/TopicExport/TopicExport.jsx:81 | other flags are neither added, removed nor changed |
| TopicExportForm.MarkCheckedFresh | client/src/containers/Topic/TopicExport/TopicExport.jsx:70-81 | new flags are appended in partition order |
| TopicExportForm.SetAllFlags | client/src/containers/Topic/TopicExport/TopicExport.jsx:273-275 | every existing flag gets the value; no key is added, removed or reordered |
| TopicExportForm.TopicExport.constructor | client/src/containers/Topic/TopicExport/TopicExport.jsx:24-38 | the initial state: no topic, no flags, the initial form data, no schema entries, an unset buffer |
| TopicExportForm.TopicExport.SetupInitialData | client/src/containers/Topic/TopicExport/TopicExport.jsx:70-89 | each partition gets its first offset, a `true` flag and its bounds, and the topic is selected |
| TopicExportForm.TopicExport.CheckedTopicOffset | client/src/containers/Topic/TopicExport/TopicExport.jsx:208-213 | only the named flag changes |
| TopicExportForm.TopicExport.UnCheckAll | client/src/containers/Topic/TopicExport/TopicExport.jsx:270-278 | the flags become `SetAllFlags` of the old ones |
| TopicExportForm.TopicExport.ResetToFirstOffsets | client/src/containers/Topic/TopicExport/TopicExport.jsx:280-289 | throws with no change when no topic is selected; otherwise writes every partition's first offset |
| TopicExportForm.TopicExport.ResetToLastOffsets | client/src/containers/Topic/TopicExport/TopicExport.jsx:291-307 | throws with no change when no topic is selected; otherwise writes every partition's reset-to-last offset |
| TopicExportForm.TopicExport.ResetToCalculatedOffsets | client/src/containers/Topic/TopicExport/TopicExport.jsx:309-320 | throws with no change when no topic is selected; otherwise writes every partition's calculated offset for `Number(value)`, then sets `lastMessagesNr` to the input text |
| TopicExportForm.TopicExport.HandleOffsetsByTimestamp | client/src/containers/Topic/TopicExport/TopicExport.jsx:350-357 | each listed partition's field gets its offset, in list order |
| TopicExportForm.TopicExport.HandleMessages | client/src/containers/Topic/TopicExport/TopicExport.jsx:182-194 | the loop over the batch leaves the buffer, and reports a throw, as `Handle` over the current options; the form stays well formed |
| TopicExportForm.SetFlags | client/src/containers/Topic/TopicExport/TopicExport.jsx:273-275 | the loop over the flag keys computes `SetAllFlags` |
| TopicExportForm.SetupPartitions | client/src/containers/Topic/TopicExport/TopicExport.jsx:70-82 | the set-up loop computes the first offsets, the flags and the bounds together |
| TopicExportForm.WriteFirstOffsets | client/src/containers/Topic/TopicExport/TopicExport.jsx:283-286 | the loop computes `AssignAll` of the first offsets |
| TopicExportForm.WriteLastOffsets | client/src/containers/Topic/TopicExport/TopicExport.jsx:294-304 | the loop computes `AssignAll` of the reset-to-last offsets |
| TopicExportForm.WriteCalculatedOffsets | client/src/containers/Topic/TopicExport/TopicExport.jsx:312-316 | the loop computes `AssignAll` of the calculated offsets |
| TopicExportForm.WriteOffsets | client/src/containers/Topic/TopicExport/TopicExport.jsx:352-355 | the loop computes `AssignAll` of the listed offsets |
| TopicExportForm.AssignFirstStep | client/src/containers/Topic/TopicExport/TopicExport.jsx:284-285 | one turn writes one partition's first offset |
| TopicExportForm.AssignLastStep | client/src/containers/Topic/TopicExport/TopicExport.jsx:295-303 | one turn writes one partition's reset-to-last offset |
| TopicExportForm.AssignCalculatedStep | client/src/containers/Topic/TopicExport/TopicExport.jsx:313-315 | one turn writes one partition's calculated offset |
| TopicExportForm.MarkCheckedStep | client/src/containers/Topic/TopicExport/TopicExport.jsx:81 | one turn sets one partition's flag |
| TopicExportForm.SchemaForStep | client/src/containers/Topic/TopicExport/TopicExport.jsx:74-78 | one turn adds one partition's bounds |
| ExportScenarios.EntryPlain | client/src/containers/Topic/TopicExport/TopicExport.jsx:123-131 | an `id-offset` entry holds no `,`, `[` or `]` |
| ExportScenarios.EntriesAllSelected | client/src/containers/Topic/TopicExport/TopicExport.jsx:117-126 | when every field is selected, there is one entry per field, in order |
| ExportScenarios.SetupFlagNames | client/src/containers/Topic/TopicExport/TopicExport.jsx:70-82 | after set-up the flags are the partitions' check names, in partition order |
| ExportScenarios.FlagIdsDiffer | client/src/containers/Topic/TopicExport/TopicExport.jsx:112-113 | flags of different partitions read back different ids |
| ExportScenarios.SetupFlagsAllTrue | client/src/containers/Topic/TopicExport/TopicExport.jsx:81-115 | after set-up the id table flags every partition `true` |
| ExportScenarios.SetupSelects | client/src/containers/Topic/TopicExport/TopicExport.jsx:81-121 | after set-up every partition's offset field is selected |
| ExportScenarios.EntriesOfLayout | client/src/containers/Topic/TopicExport/TopicExport.jsx:117-126 | option fields followed by selected partition fields give one `id-offset` per partition, in order |
| ExportScenarios.EntriesOfFieldNames | client/src/containers/Topic/TopicExport/TopicExport.jsx:117-126 | selected numeric partition fields give their `id-offset` texts, in order |
| ExportScenarios.FieldEntry | client/src/containers/Topic/TopicExport/TopicExport.jsx:119-123 | the entry of a numeric partition field is its id, `-` and the offset |
| ExportScenarios.ParamOfLayout | client/src/containers/Topic/TopicExport/TopicExport.jsx:105-131 | with every partition checked by set-up, the parameter is the `id-offset` texts joined with `_` |
| ExportScenarios.SetupLayout | client/src/containers/Topic/TopicExport/TopicExport.jsx:29-80 | after set-up the form keys are the option fields followed by the partition fields, in order |
| ExportScenarios.NoInitialPartitionField | client/src/containers/Topic/TopicExport/TopicExport.jsx:29-34 | no initial field is a partition field |
| ExportScenarios.SetupExportsAll | client/src/containers/Topic/TopicExport/TopicExport.jsx:105-131 | right after set-up the parameter lists every partition's first offset, in order, joined with `_` |
| ExportScenarios.ResetLayout | client/src/containers/Topic/TopicExport/TopicExport.jsx:283-316 | a reset of every partition keeps the key order of set-up |
| ExportScenarios.ResetExportsAll | client/src/containers/Topic/TopicExport/TopicExport.jsx:105-131 | after set-up and a reset of every partition, the parameter lists the reset offsets, in order |
| ExportScenarios.UncheckAllExportsNothing | client/src/containers/Topic/TopicExport/TopicExport.jsx:270-278 | after unchecking all, the parameter is empty |
| ExportScenarios.CheckAllSelects | client/src/containers/Topic/TopicExport/TopicExport.jsx:270-278 | after checking all, every partition field with a flag is selected |
| ExportScenarios.LastWithId | client/src/containers/Topic/TopicExport/TopicExport.jsx:111-115 | among names with a given id there is a last one |
| ExportScenarios.CheckboxDecides | client/src/containers/Topic/TopicExport/TopicExport.jsx:208-213 | after ticking or unticking a partition's box, it is selected if and only if the box is ticked |
| ExportScenarios.OffsetWritesKeepOptions | client/src/containers/Topic/TopicExport/TopicExport.jsx:352-355 | offset writes never change the export options |

## Left out

- JSX rendering (`render`, `renderTopicPartition`, `renderPartitionInputs`, `renderOptionButtons`) is user interface only.
- The EventSource stream (`startEventSource`, `stopEventSource` and their listeners) is network plumbing. A `searchBody` batch is modelled as a call of `HandleMessages` with its records; the end of the stream is modelled as `ExportDownload`.
- The metadata fetch of `setupInitialData` (`getApi`), `getTopics`, `toast`, `Blob`, `createObjectURL`, the anchor click and `history.push` are I/O or DOM calls. `SetupInitialData` takes the fetched partitions as a parameter.
- `getTopicOffset` (lines 322-348) formats a date with moment and a foreign date formatter, and is not modelled. Only its effect, `handleOffsetsByTimestamp`, is.
- `JSON.stringify` of a record is foreign. A record carries its JSON text as the field `json`, and the full-record format returns it.
- The Joi schema is kept only as the `[min, max]` bounds of each partition input. The validation library and its error messages are not modelled.
- Offsets are normalised to unbounded integers. The source computes on JavaScript numbers (doubles), which are exact only below 2^53; offsets beyond that are not modelled. The string `'0'` that the source stores when an offset is 0 or absent is stored as the number 0: both convert to the same text, and the Joi number schema accepts both. Absent first and last offsets are 0.
- Js.NumberOf reads as numbers only the empty text, decimal digits, and `-` followed by at least one digit; `+5`, fractions, exponents, `0x` prefixes and surrounding blanks read as NaN in the model, where `Number` would accept them. A `type='number'` input (line 435) delivers neither `+` signs nor blanks, and delivers `""` for what it cannot parse.
- JavaScript lists integer-like object keys before the others. No key of the component's objects is integer-like, so `Obj` keeps plain insertion order.
- The `loading`/`percent` state, `clusterId`, `errors` and the `timestamp` input are display state, and are not modelled.
- A `TypeError` thrown by a reset without a selected topic, or by formatting a null value, is modelled as a `thrown` result with the state left as the handler had it at that point. The exception itself is not propagated.
- SetupInitialData uses the form data as it is when the fetched partitions arrive. The source reads `formData` before its `await` (lines 66-68) and writes that object back at line 84, while the option handlers (lines 480-484, 502-506, 519-522) replace `formData` with a new object; so an option changed while the fetch is pending is lost in the source and kept in the model. The option handlers themselves are not modelled.
