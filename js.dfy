/** The JavaScript values the export form keeps in its state: optional values,
    the fields of the form data, and plain objects used as dictionaries. */
module Js {
  import opened Strings

  datatype Option<T> = None | Some(value: T)

  /** A value stored in the form data: offsets are integers, the option
      fields hold strings or booleans. */
  datatype Field = Num(n: int) | Text(s: string) | Flag(b: bool)

  /** String conversion of a field, as `+` on strings performs it. */
  function FieldText(f: Field): (r: string)
    ensures r == "undefined" <==> f == Text("undefined")
  {
    match f
    case Num(n) => var t := IntToString(n); assert t[0] != 'u'; t
    case Text(s) => s
    case Flag(b) => if b then "true" else "false"
  }

  /** String conversion of a property read: a missing property is `undefined`. */
  function PropertyText(p: Option<Field>): (r: string)
    ensures r == "undefined" <==> p.None? || p == Some(Text("undefined"))
  {
    match p
    case None => "undefined"
    case Some(f) => FieldText(f)
  }

  /** JavaScript truthiness of a property read. */
  predicate Truthy(p: Option<Field>) {
    match p
    case None => false
    case Some(Num(n)) => n != 0
    case Some(Text(s)) => s != ""
    case Some(Flag(b)) => b
  }

  /** A plain object used as a dictionary: `keys` is the order in which
      `Object.keys` lists the properties (insertion order), `vals` their values. */
  datatype Obj<V> = Obj(keys: seq<string>, vals: map<string, V>) {

    /** Every property is listed once, and exactly the listed ones have values. */
    ghost predicate Valid() {
      && (forall i, j :: 0 <= i < j < |keys| ==> keys[i] != keys[j])
      && (forall i :: 0 <= i < |keys| ==> keys[i] in vals)
      && (forall k :: k in vals ==> k in keys)
    }

    /** `o[k]` */
    function Get(k: string): (r: Option<V>)
      ensures r.Some? <==> k in vals
      ensures r.Some? ==> r.value == vals[k]
    {
      if k in vals then Some(vals[k]) else None
    }

    /** `o[k] = v`: an existing property keeps its place in the key order, a
        new one is listed last; no other property changes. */
    function Put(k: string, v: V): (r: Obj<V>)
      ensures k in r.vals && r.vals[k] == v
      ensures forall k' :: k' != k ==> (k' in r.vals <==> k' in vals)
      ensures forall k' :: k' != k && k' in vals ==> r.vals[k'] == vals[k']
      ensures k in vals ==> r.keys == keys
      ensures k !in vals ==> r.keys == keys + [k]
      ensures Valid() ==> r.Valid()
    {
      Obj(if k in vals then keys else keys + [k], vals[k := v])
    }
  }

  function EmptyObj<V>(): (r: Obj<V>)
    ensures r.Valid() && r.keys == []
  {
    Obj([], map[])
  }

  /** `Number(s)` for the text of a number input: the empty string is 0, a
      string of decimal digits, or `-` followed by at least one digit, is its
      value, anything else is NaN (None). */
  function NumberOf(s: string): (r: Option<int>)
    ensures s == "" ==> r == Some(0)
    ensures s != "" && !AllDigits(s) && (s[0] != '-' || s[1..] == "" || !AllDigits(s[1..])) ==> r.None?
  {
    if s == "" then Some(0)
    else if AllDigits(s) then Some(DigitsValue(s) as int)
    else if s[0] == '-' && s[1..] != "" && AllDigits(s[1..]) then Some(0 - DigitsValue(s[1..]) as int)
    else None
  }

  /** The text of an integer reads back as that integer. */
  lemma NumberOfIntToString(i: int)
    ensures NumberOf(IntToString(i)) == Some(i)
  {
    var n: nat := if i < 0 then -i else i;
    var t := NatToString(n);
    DigitsValueOfNatToString(n);
    if i < 0 {
      NumberOfNegative(t);
      assert IntToString(i) == "-" + t;
    } else {
      NumberOfDigits(t);
      assert IntToString(i) == t;
    }
  }

  /** A nonempty string of digits reads as the value of the digits. */
  lemma NumberOfDigits(t: string)
    requires t != "" && AllDigits(t)
    ensures NumberOf(t) == Some(DigitsValue(t) as int)
  {
  }

  /** `-` followed by digits reads as the negated value of the digits. */
  lemma NumberOfNegative(t: string)
    requires t != "" && AllDigits(t)
    ensures NumberOf("-" + t) == Some(0 - DigitsValue(t) as int)
  {
    // Both steps are needed on some solver seeds.
    var s := "-" + t;
    assert s[1..] == t;
    assert !AllDigits(s) by { assert s[0] == '-'; }
  }
}
