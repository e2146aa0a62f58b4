/** Formatting of exported records (formatOutput), their accumulation into
    the export text (handleMessages), and the downloaded file at the end of
    the export. */
module ExportOutput {
  import opened Strings
  import opened Js

  /** A record of a `searchBody` batch: key and value may be null; `json`
      is the record's `JSON.stringify` text, which is not modelled further. */
  datatype Record = Record(key: Option<string>, value: Option<string>, json: string)

  /** The cases of the `exportMethod` switch, and a value none of them matches. */
  datatype Method = FullRecord | KeyValue | ValueOnly | Unrecognised

  /** The form fields formatting reads. */
  datatype Options = Options(exportMethod: Method, kvSep: string, exportNulls: bool)

  function MethodOf(p: Option<Field>): Method {
    match p
    case Some(Text(s)) =>
      if s == "fullRecord" then FullRecord
      else if s == "keyValue" then KeyValue
      else if s == "valueOnly" then ValueOnly
      else Unrecognised
    case _ => Unrecognised
  }

  function OptionsOf(formData: Obj<Field>): Options {
    Options(MethodOf(formData.Get("exportMethod")), PropertyText(formData.Get("kvSep")), Truthy(formData.Get("exportNulls")))
  }

  predicate NoLineBreaks(s: string) {
    forall i :: 0 <= i < |s| ==> s[i] != '\r' && s[i] != '\n'
  }

  /** `s.replace(/[\r\n]+/gm, "")`: removing every run of CR and LF
      characters removes every CR and LF character and keeps the rest. */
  function StripLineBreaks(s: string): (r: string)
    ensures NoLineBreaks(r)
    ensures NoLineBreaks(s) ==> r == s
  {
    if s == [] then []
    else (if s[0] == '\r' || s[0] == '\n' then [] else [s[0]]) + StripLineBreaks(s[1..])
  }

  /** Every other character is kept, as often as it occurs. */
  lemma {:induction false} StripLineBreaksKeeps(s: string)
    ensures forall c :: c != '\r' && c != '\n' ==> multiset(StripLineBreaks(s))[c] == multiset(s)[c]
  {
    if s != [] {
      StripLineBreaksKeeps(s[1..]);
      assert s == [s[0]] + s[1..];
    }
  }

  lemma {:induction false} StripLineBreaksConcat(a: string, b: string)
    ensures StripLineBreaks(a + b) == StripLineBreaks(a) + StripLineBreaks(b)
  {
    if a == [] {
      assert a + b == b;
    } else {
      assert (a + b)[0] == a[0] && (a + b)[1..] == a[1..] + b;
      StripLineBreaksConcat(a[1..], b);
      var h := if a[0] == '\r' || a[0] == '\n' then [] else [a[0]];
      assert StripLineBreaks(a + b) == h + StripLineBreaks(a[1..] + b);
      assert StripLineBreaks(a) == h + StripLineBreaks(a[1..]);
    }
  }

  /** `message.key ? message.key : "null"` */
  function KeyLabel(key: Option<string>): (r: string)
    ensures r != ""
  {
    if key.Some? && key.value != "" then key.value else "null"
  }

  /** What formatOutput produces: a text, `undefined` when no case of the
      switch matches, or a TypeError when `.replace` is called on a null value. */
  datatype Rendered = Str(text: string) | Undefined | TypeError

  function FormatOutput(o: Options, r: Record): (out: Rendered)
    ensures out.TypeError? <==> (o.exportMethod == KeyValue || o.exportMethod == ValueOnly) && r.value.None?
    ensures out.Undefined? <==> o.exportMethod == Unrecognised
    ensures o.exportMethod == FullRecord ==> out == Str(r.json)
    ensures o.exportMethod == ValueOnly && r.value.Some? ==> out.Str? && NoLineBreaks(out.text)
  {
    match o.exportMethod
    case FullRecord => Str(r.json)
    case KeyValue =>
      if r.value.None? then TypeError
      else Str(KeyLabel(r.key) + o.kvSep + StripLineBreaks(r.value.value))
    case ValueOnly =>
      if r.value.None? then TypeError
      else Str(StripLineBreaks(r.value.value))
    case Unrecognised => Undefined
  }

  /** In key-value mode the text is the key (or `null`), the separator, and
      then a part without line breaks holding the value's other characters. */
  lemma KeyValueLayout(o: Options, r: Record)
    requires o.exportMethod == KeyValue && r.value.Some?
    ensures FormatOutput(o, r).Str?
    ensures var t := FormatOutput(o, r).text; var head := KeyLabel(r.key) + o.kvSep;
      && head <= t
      && t[|head|..] == StripLineBreaks(r.value.value)
      && NoLineBreaks(t[|head|..])
      && forall c :: c != '\r' && c != '\n' ==> multiset(t[|head|..])[c] == multiset(r.value.value)[c]
  {
    var t := FormatOutput(o, r).text;
    var head := KeyLabel(r.key) + o.kvSep;
    assert t[|head|..] == StripLineBreaks(r.value.value);
    StripLineBreaksKeeps(r.value.value);
  }

  /** In value-only mode the text is exactly the value with its line breaks
      removed: no CR or LF, every other character kept. */
  lemma ValueOnlyLayout(o: Options, r: Record)
    requires o.exportMethod == ValueOnly && r.value.Some?
    ensures FormatOutput(o, r) == Str(StripLineBreaks(r.value.value))
    ensures NoLineBreaks(FormatOutput(o, r).text)
    ensures forall c :: c != '\r' && c != '\n' ==> multiset(FormatOutput(o, r).text)[c] == multiset(r.value.value)[c]
  {
    StripLineBreaksKeeps(r.value.value);
  }

  /** The `!exportNulls && (value == null || value == "null")` guard. */
  predicate Skipped(o: Options, r: Record) {
    !o.exportNulls && (r.value.None? || r.value == Some("null"))
  }

  /** The new content of the buffer after appending `t`: after a newline when
      the buffer is truthy, in place of it otherwise. */
  function Append(buffer: string, t: string): (r: string)
    ensures buffer <= r
    ensures buffer == "" ==> r == t
  {
    if buffer != "" then buffer + "\n" + t else t
  }

  /** The buffer after a record, and whether formatting it threw. */
  datatype Progress = Progress(buffer: string, thrown: bool)

  /** One turn of handleMessages' forEach. */
  function Step(buffer: string, o: Options, r: Record): (p: Progress)
    ensures buffer <= p.buffer
    ensures p.thrown <==> Throws(o, r)
    ensures Skipped(o, r) ==> p == Progress(buffer, false)
  {
    if Skipped(o, r) then Progress(buffer, false)
    else match FormatOutput(o, r)
      case Str(t) => Progress(Append(buffer, t), false)
      case Undefined => Progress(if buffer != "" then buffer + "\nundefined" else "", false)
      case TypeError => Progress(buffer, true)
  }

  /** handleMessages: the records in order, stopping at the first one whose
      formatting throws. */
  function Handle(buffer: string, o: Options, records: seq<Record>): Progress
    decreases |records|
  {
    if records == [] then Progress(buffer, false)
    else
      var p := Step(buffer, o, records[0]);
      if p.thrown then p else Handle(p.buffer, o, records[1..])
  }

  /** Earlier content is never removed or rewritten: the old buffer is a
      prefix of the new one. */
  lemma {:induction false} HandleKeepsEarlier(buffer: string, o: Options, records: seq<Record>)
    ensures buffer <= Handle(buffer, o, records).buffer
    decreases |records|
  {
    if records != [] {
      var p := Step(buffer, o, records[0]);
      assert buffer <= p.buffer;
      if !p.thrown {
        HandleKeepsEarlier(p.buffer, o, records[1..]);
      }
    }
  }

  /** The records that pass the null guard, in order. */
  function Kept(o: Options, records: seq<Record>): (r: seq<Record>)
    ensures |r| <= |records|
    ensures forall i :: 0 <= i < |r| ==> !Skipped(o, r[i])
    ensures forall x :: x in r ==> x in records
    ensures forall x :: x in records && !Skipped(o, x) ==> x in r
  {
    if records == [] then []
    else (if Skipped(o, records[0]) then [] else [records[0]]) + Kept(o, records[1..])
  }

  /** The guard keeps arrival order: the records kept from two batches in
      turn are those kept from the first followed by those kept from the
      second. */
  lemma {:induction false} KeptConcat(o: Options, a: seq<Record>, b: seq<Record>)
    ensures Kept(o, a + b) == Kept(o, a) + Kept(o, b)
    decreases |a|
  {
    if a != [] {
      var head := if Skipped(o, a[0]) then [] else [a[0]];
      assert (a + b)[0] == a[0] && (a + b)[1..] == a[1..] + b;
      assert Kept(o, a + b) == head + Kept(o, a[1..] + b);
      KeptConcat(o, a[1..], b);
      assert Kept(o, a) == head + Kept(o, a[1..]);
    } else {
      assert a + b == b;
    }
  }

  /** Records caught by the null guard leave no trace: processing a batch is
      processing the records that pass the guard. */
  lemma {:induction false} HandleSkipsNulls(buffer: string, o: Options, records: seq<Record>)
    ensures Handle(buffer, o, records) == Handle(buffer, o, Kept(o, records))
    decreases |records|
  {
    if records != [] {
      var r := records[0];
      if Skipped(o, r) {
        HandleSkipsNulls(buffer, o, records[1..]);
        assert Kept(o, records) == Kept(o, records[1..]);
      } else {
        HandleSkipsNulls(Step(buffer, o, r).buffer, o, records[1..]);
        assert Kept(o, records) == [r] + Kept(o, records[1..]);
        assert Kept(o, records)[1..] == Kept(o, records[1..]);
      }
    }
  }

  /** With `exportNulls` set, no record is skipped. */
  lemma {:induction false} ExportNullsKeepsAll(o: Options, records: seq<Record>)
    requires o.exportNulls
    ensures Kept(o, records) == records
  {
    if records != [] {
      ExportNullsKeepsAll(o, records[1..]);
    }
  }

  /** A record whose formatting throws: one that passes the guard and has a
      null value in key-value or value-only mode. */
  predicate Throws(o: Options, r: Record) {
    !Skipped(o, r) && FormatOutput(o, r).TypeError?
  }

  lemma {:induction false} HandleThrowsIff(buffer: string, o: Options, records: seq<Record>)
    ensures Handle(buffer, o, records).thrown <==> exists i :: 0 <= i < |records| && Throws(o, records[i])
    decreases |records|
  {
    if records != [] {
      var p := Step(buffer, o, records[0]);
      if !p.thrown {
        HandleThrowsIff(p.buffer, o, records[1..]);
        if exists i :: 0 <= i < |records| && Throws(o, records[i]) {
          var i :| 0 <= i < |records| && Throws(o, records[i]);
          assert i > 0 && Throws(o, records[1..][i - 1]);
        }
        if exists i :: 0 <= i < |records[1..]| && Throws(o, records[1..][i]) {
          var i :| 0 <= i < |records[1..]| && Throws(o, records[1..][i]);
          assert Throws(o, records[i + 1]);
        }
      } else {
        assert Throws(o, records[0]);
      }
    }
  }

  /** The text a record contributes when its formatting yields a string. */
  function TextOf(o: Options, r: Record): string {
    match FormatOutput(o, r)
    case Str(t) => t
    case _ => ""
  }

  function Texts(o: Options, records: seq<Record>): (ts: seq<string>)
    ensures |ts| == |records|
    ensures forall i :: 0 <= i < |records| ==> ts[i] == TextOf(o, records[i])
  {
    if records == [] then [] else [TextOf(o, records[0])] + Texts(o, records[1..])
  }

  /** Appending the texts one after the other. */
  function AppendAll(buffer: string, ts: seq<string>): string
    decreases |ts|
  {
    if ts == [] then buffer else AppendAll(Append(buffer, ts[0]), ts[1..])
  }

  /** The texts from the first non-empty one on: empty texts in front are
      absorbed by an empty buffer. */
  function DropLeadingEmpty(ts: seq<string>): (r: seq<string>)
    ensures r != [] ==> r[0] != ""
    ensures |r| <= |ts| && r == ts[|ts| - |r|..]
    ensures forall i :: 0 <= i < |ts| - |r| ==> ts[i] == ""
  {
    if ts == [] then [] else if ts[0] == "" then DropLeadingEmpty(ts[1..]) else ts
  }

  /** Appending text after text gives the texts joined with newlines, with the
      initial buffer first and leading empty texts dropped. */
  lemma {:induction false} AppendAllIsJoin(buffer: string, ts: seq<string>)
    ensures AppendAll(buffer, ts) == Join(DropLeadingEmpty([buffer] + ts), "\n")
    decreases |ts|
  {
    if ts == [] {
      assert DropLeadingEmpty([buffer]) == (if buffer == "" then [] else [buffer]);
    } else {
      var t := ts[0];
      AppendAllIsJoin(Append(buffer, t), ts[1..]);
      if buffer == "" {
        assert ([buffer] + ts)[1..] == [t] + ts[1..];
        assert DropLeadingEmpty([buffer] + ts) == DropLeadingEmpty([t] + ts[1..]);
      } else {
        var joined := buffer + "\n" + t;
        assert Append(buffer, t) == joined;
        assert DropLeadingEmpty([buffer] + ts) == [buffer] + ts;
        assert DropLeadingEmpty([joined] + ts[1..]) == [joined] + ts[1..];
        assert ([buffer] + ts)[1..] == ts;
        assert ([joined] + ts[1..])[1..] == ts[1..];
        assert ts == [t] + ts[1..];
        if ts[1..] != [] {
          assert ts[1..] == [ts[1]] + ts[2..];
          calc {
            Join([buffer] + ts, "\n");
            buffer + "\n" + Join(ts, "\n");
            buffer + "\n" + (t + "\n" + Join(ts[1..], "\n"));
            joined + "\n" + Join(ts[1..], "\n");
            Join([joined] + ts[1..], "\n");
          }
        }
      }
    }
  }

  /** When no record throws and the method is one of the three, a batch
      appends the texts of the records that pass the guard. */
  lemma {:induction false} HandleAppendsTexts(buffer: string, o: Options, records: seq<Record>)
    requires o.exportMethod != Unrecognised
    requires forall i :: 0 <= i < |records| ==> !Throws(o, records[i])
    ensures Handle(buffer, o, records) == Progress(AppendAll(buffer, Texts(o, Kept(o, records))), false)
    decreases |records|
  {
    if records != [] {
      var r := records[0];
      var p := Step(buffer, o, r);
      assert !Throws(o, records[0]);
      HandleAppendsTexts(p.buffer, o, records[1..]);
      if Skipped(o, r) {
        assert Kept(o, records) == Kept(o, records[1..]);
      } else {
        assert FormatOutput(o, r).Str?;
        assert p == Progress(Append(buffer, TextOf(o, r)), false);
        var rest := Texts(o, Kept(o, records[1..]));
        assert Kept(o, records) == [r] + Kept(o, records[1..]);
        assert Texts(o, Kept(o, records)) == [TextOf(o, r)] + rest;
        assert ([TextOf(o, r)] + rest)[1..] == rest;
      }
    }
  }

  /** The export text after a batch: the previous text and the texts of the
      kept records joined with newlines, leading empty texts dropped. */
  lemma HandleIsJoin(buffer: string, o: Options, records: seq<Record>)
    requires o.exportMethod != Unrecognised
    requires forall i :: 0 <= i < |records| ==> !Throws(o, records[i])
    ensures Handle(buffer, o, records)
         == Progress(Join(DropLeadingEmpty([buffer] + Texts(o, Kept(o, records))), "\n"), false)
  {
    HandleAppendsTexts(buffer, o, records);
    AppendAllIsJoin(buffer, Texts(o, Kept(o, records)));
  }

  /** `topicId.replaceAll(".", "_") + "_export.txt"` */
  function ExportFileName(topicId: string): (name: string)
    ensures |name| == |topicId| + 11
    ensures name[|topicId|..] == "_export.txt"
    ensures forall i :: 0 <= i < |topicId| ==> name[i] == (if topicId[i] == '.' then '_' else topicId[i])
    ensures '.' !in name[..|topicId|]
  {
    var stem := ReplaceChar(topicId, '.', '_');
    assert (stem + "_export.txt")[..|topicId|] == stem;
    stem + "_export.txt"
  }

  datatype Download = Download(fileName: string, content: string)

  /** At the end of the stream a file is offered exactly when the export text
      is truthy; it holds that text under the topic's export file name. */
  function ExportDownload(topicId: string, output: string): (d: Option<Download>)
    ensures d.Some? <==> output != ""
    ensures d.Some? ==> d.value.content == output && d.value.fileName == ExportFileName(topicId)
  {
    if output != "" then Some(Download(ExportFileName(topicId), output)) else None
  }
}
