/**
 The custom text field grammar: properties with a hexadecimal identifier and length header,
 grouped into fields by the `000000` separator. The parser and the printer are proved inverse
 to each other, and a targeted edit is proved to change nothing but the value it names.
 */
module CustomFields {
  import opened Basics
  import Utf8

  const SEPARATOR: Bytes := [0x30, 0x30, 0x30, 0x30, 0x30, 0x30]
  const MAX_DECODED_TEXT_BYTES: nat := 16_777_216
  const NAME_ID: nat := 1
  const VALUE_ID: nat := 2
  const SENSITIVITY_ID: nat := 3
  const ZERO: Bytes := [0x30]
  const ONE: Bytes := [0x31]

  /** One property owner keeps its complete encoding, header included. */
  datatype PropertyOwner = Property(id: nat, encoded: Bytes) {
    function Value(): Bytes
      requires |encoded| >= 6
    {
      encoded[6..]
    }
  }

  /** An owner is never built over an encoding too short to hold its header. */
  type Property = p: PropertyOwner | |p.encoded| >= 6 witness Property(0, SEPARATOR)

  datatype CustomField = CustomField(properties: seq<Property>, name: Bytes, sensitive: bool, separatorAfter: bool)

  // ---------------------------------------------------------------- hexadecimal headers

  function HexValue(b: Byte): Option<nat> {
    if 0x30 <= b <= 0x39 then Some(b - 0x30)
    else if 0x61 <= b <= 0x66 then Some(b - 0x61 + 10)
    else None
  }

  function HexDigit(n: nat): Byte
    requires n < 16
  {
    if n < 10 then 0x30 + n else 0x61 + n - 10
  }

  function ParseHex(s: Bytes): Option<nat> {
    if s == [] then Some(0)
    else
      var high :- ParseHex(s[..|s| - 1]);
      var low :- HexValue(s[|s| - 1]);
      Some(high * 16 + low)
  }

  function Pow16(width: nat): nat {
    if width == 0 then 1 else 16 * Pow16(width - 1)
  }

  function PrintHex(n: nat, width: nat): (s: Bytes)
    ensures |s| == width
  {
    if width == 0 then [] else PrintHex(n / 16, width - 1) + [HexDigit(n % 16)]
  }

  lemma {:induction false} ParsePrintHex(n: nat, width: nat)
    requires n < Pow16(width)
    ensures ParseHex(PrintHex(n, width)) == Some(n)
  {
    if width > 0 {
      ParsePrintHex(n / 16, width - 1);
      var s := PrintHex(n, width);
      assert s[..|s| - 1] == PrintHex(n / 16, width - 1);
    }
  }

  lemma {:induction false} PrintParseHex(s: Bytes)
    requires ParseHex(s).Some?
    ensures ParseHex(s).value < Pow16(|s|)
    ensures PrintHex(ParseHex(s).value, |s|) == s
  {
    if s != [] {
      PrintParseHex(s[..|s| - 1]);
      assert s == s[..|s| - 1] + [s[|s| - 1]];
    }
  }

  method ReadLowerHex(characters: Bytes) returns (value: Option<nat>)
    ensures value == ParseHex(characters)
  {
    var total := 0;
    var i := 0;
    while i < |characters|
      invariant 0 <= i <= |characters|
      invariant ParseHex(characters[..i]) == Some(total)
    {
      var digit := HexValue(characters[i]);
      assert characters[..i + 1][..i] == characters[..i];
      if digit.None? {
        FailedPrefix(characters, i + 1);
        return None;
      }
      total := total * 16 + digit.value;
      i := i + 1;
    }
    assert characters[..i] == characters;
    return Some(total);
  }

  lemma {:induction false} FailedPrefix(s: Bytes, n: nat)
    requires n <= |s| && ParseHex(s[..n]).None?
    ensures ParseHex(s).None?
    decreases |s|
  {
    if n == |s| {
      assert s[..n] == s;
    } else {
      assert s[..|s| - 1][..n] == s[..n];
      FailedPrefix(s[..|s| - 1], n);
    }
  }

  lemma HexBounds()
    ensures Pow16(2) == 0x100 && Pow16(4) == 0x1_0000
  {
    assert Pow16(1) == 16;
    assert Pow16(2) == 256;
    assert Pow16(3) == 4096;
  }

  // ---------------------------------------------------------------- the declared grammar

  function EncodeProperty(id: nat, value: Bytes): (s: Bytes)
    ensures |s| == 6 + |value|
  {
    PrintHex(id, 2) + PrintHex(|value|, 4) + value
  }

  lemma EncodePropertyParts(id: nat, value: Bytes)
    ensures var s := EncodeProperty(id, value);
            s[..2] == PrintHex(id, 2) && s[2..6] == PrintHex(|value|, 4) && s[6..] == value
  {
  }

  predicate WellFormedProperty(p: Property) {
    && 1 <= p.id <= 0xFF
    && |p.Value()| <= 0xFFFF
    && p.encoded == EncodeProperty(p.id, p.Value())
    && Utf8.AcceptedText(p.Value())
  }

  predicate DistinctIds(properties: seq<Property>) {
    forall i, j :: 0 <= i < j < |properties| ==> properties[i].id != properties[j].id
  }

  function Find(properties: seq<Property>, id: nat): (found: Option<Property>)
    ensures found.Some? ==> found.value in properties && found.value.id == id
    ensures found.None? ==> forall p :: p in properties ==> p.id != id
  {
    if properties == [] then None
    else if properties[0].id == id then Some(properties[0])
    else Find(properties[1..], id)
  }

  predicate WellFormedField(f: CustomField) {
    && (forall p :: p in f.properties ==> WellFormedProperty(p))
    && DistinctIds(f.properties)
    && var name := Find(f.properties, NAME_ID);
    && name.Some? && name.value.Value() != [] && f.name == name.value.Value()
    && Find(f.properties, VALUE_ID).Some?
    && match Find(f.properties, SENSITIVITY_ID) {
         case None => !f.sensitive
         case Some(p) => (p.Value() == ZERO && !f.sensitive) || (p.Value() == ONE && f.sensitive)
       }
  }

  /** What it means for a field list to be printable and parsable: the reference grammar. */
  predicate WellFormedList(fields: seq<CustomField>) {
    && fields != []
    && (forall f :: f in fields ==> WellFormedField(f))
    && (forall i :: 0 <= i < |fields| - 1 ==> fields[i].separatorAfter)
    && (forall i, j :: 0 <= i < j < |fields| ==> fields[i].name != fields[j].name)
  }

  // ---------------------------------------------------------------- printing

  function EncodeProperties(properties: seq<Property>): Bytes {
    if properties == [] then [] else properties[0].encoded + EncodeProperties(properties[1..])
  }

  function EncodeField(f: CustomField): Bytes {
    EncodeProperties(f.properties) + (if f.separatorAfter then SEPARATOR else [])
  }

  function EncodeList(fields: seq<CustomField>): Bytes {
    if fields == [] then [] else EncodeField(fields[0]) + EncodeList(fields[1..])
  }

  /** The printer refuses adjacent fields that no separator keeps apart. */
  function Encode(fields: seq<CustomField>): Option<Bytes> {
    if forall i :: 0 <= i < |fields| - 1 ==> fields[i].separatorAfter then Some(EncodeList(fields)) else None
  }

  lemma {:induction false} EncodePropertiesSnoc(properties: seq<Property>, last: Property)
    ensures EncodeProperties(properties + [last]) == EncodeProperties(properties) + last.encoded
  {
    if properties == [] {
      assert properties + [last] == [last];
    } else {
      assert (properties + [last])[1..] == properties[1..] + [last];
      EncodePropertiesSnoc(properties[1..], last);
    }
  }

  lemma {:induction false} EncodeListSnoc(fields: seq<CustomField>, last: CustomField)
    ensures EncodeList(fields + [last]) == EncodeList(fields) + EncodeField(last)
  {
    if fields == [] {
      assert fields + [last] == [last];
    } else {
      assert (fields + [last])[1..] == fields[1..] + [last];
      EncodeListSnoc(fields[1..], last);
    }
  }

  method AppendProperties(output: Bytes, properties: seq<Property>) returns (extended: Bytes)
    ensures extended == output + EncodeProperties(properties)
  {
    extended := output;
    var k := 0;
    while k < |properties|
      invariant 0 <= k <= |properties|
      invariant extended == output + EncodeProperties(properties[..k])
    {
      EncodePropertiesSnoc(properties[..k], properties[k]);
      assert properties[..k + 1] == properties[..k] + [properties[k]];
      extended := extended + properties[k].encoded;
      k := k + 1;
    }
    assert properties[..k] == properties;
  }

  method EncodeFields(fields: seq<CustomField>) returns (output: Option<Bytes>)
    ensures output == Encode(fields)
  {
    var bytes: Bytes := [];
    var index := 0;
    while index < |fields|
      invariant 0 <= index <= |fields|
      invariant bytes == EncodeList(fields[..index])
      invariant forall i :: 0 <= i < index && i < |fields| - 1 ==> fields[i].separatorAfter
    {
      var field := fields[index];
      if index < |fields| - 1 && !field.separatorAfter {
        return None;
      }
      bytes := AppendProperties(bytes, field.properties);
      if field.separatorAfter {
        bytes := bytes + SEPARATOR;
      }
      EncodeListSnoc(fields[..index], field);
      assert fields[..index + 1] == fields[..index] + [field];
      index := index + 1;
    }
    assert fields[..index] == fields;
    return Some(bytes);
  }

  // ---------------------------------------------------------------- parsing

  predicate IsSeparator(s: Bytes) {
    |s| >= 6 && s[..6] == SEPARATOR
  }

  /** Complete one field from its gathered properties, or refuse it. */
  function FinishField(properties: seq<Property>, names: set<Bytes>, separatorAfter: bool): Option<CustomField>
  {
    var name :- Find(properties, NAME_ID);
    var _ :- Find(properties, VALUE_ID);
    if name.Value() == [] || name.Value() in names then None
    else
      match Find(properties, SENSITIVITY_ID)
      case None => Some(CustomField(properties, name.Value(), false, separatorAfter))
      case Some(p) =>
        if p.Value() != ZERO && p.Value() != ONE then None
        else Some(CustomField(properties, name.Value(), p.Value() == ONE, separatorAfter))
  }

  /** Read one property header and value from the head of the input. */
  function ParseProperty(s: Bytes): (p: Option<Property>)
    ensures p.Some? ==> |p.value.encoded| <= |s| && p.value.encoded == s[..|p.value.encoded|]
  {
    if |s| < 6 then None
    else
      var id :- ParseHex(s[..2]);
      var length :- ParseHex(s[2..6]);
      if id == 0 || length > |s| - 6 || !Utf8.AcceptedText(s[6..6 + length]) then None
      else Some(Property(id, s[..6 + length]))
  }

  predicate UsedId(properties: seq<Property>, id: nat) {
    exists i :: 0 <= i < |properties| && properties[i].id == id
  }

  function ParseFrom(s: Bytes, properties: seq<Property>, names: set<Bytes>): Option<seq<CustomField>>
    decreases |s|
  {
    if s == [] then
      if properties == [] then Some([])
      else
        var last :- FinishField(properties, names, false);
        Some([last])
    else if IsSeparator(s) then
      if properties == [] then None
      else
        var field :- FinishField(properties, names, true);
        var rest :- ParseFrom(s[6..], [], names + {field.name});
        Some([field] + rest)
    else
      var p :- ParseProperty(s);
      if UsedId(properties, p.id) then None
      else ParseFrom(s[|p.encoded|..], properties + [p], names)
  }

  function Parse(s: Bytes, maxBytes: nat): Option<seq<CustomField>> {
    if s == [] || |s| > maxBytes then None
    else
      var fields :- ParseFrom(s, [], {});
      if fields == [] then None else Some(fields)
  }

  method ReadProperty(s: Bytes) returns (result: Option<Property>)
    ensures result == ParseProperty(s)
  {
    if |s| < 6 {
      return None;
    }
    var id := ReadLowerHex(s[..2]);
    var length := ReadLowerHex(s[2..6]);
    if id.None? || length.None? || id.value == 0 || length.value > |s| - 6 {
      return None;
    }
    if !Utf8.AcceptedText(s[6..6 + length.value]) {
      return None;
    }
    return Some(Property(id.value, s[..6 + length.value]));
  }

  /** The loop of the parser: one pass over an advancing offset with the open property list. */
  method ParseCustomFields(source: Bytes, maxBytes: nat) returns (result: Option<seq<CustomField>>)
    ensures result == Parse(source, maxBytes)
  {
    hide FinishField, ParseProperty;
    if source == [] || |source| > maxBytes {
      return None;
    }
    var fields: seq<CustomField> := [];
    var properties: seq<Property> := [];
    var names: set<Bytes> := {};
    var identifiers: set<nat> := {};
    var offset := 0;
    ghost var whole := ParseFrom(source, [], {});
    assert source[offset..] == source;
    PrependNothing(whole);
    while offset < |source|
      invariant 0 <= offset <= |source|
      invariant forall id :: id in identifiers <==> UsedId(properties, id)
      invariant whole == Prepend(fields, ParseFrom(source[offset..], properties, names))
      decreases |source| - offset
    {
      var rest := source[offset..];
      if IsSeparator(rest) {
        if properties == [] {
          return None;
        }
        var finished := FinishField(properties, names, true);
        if finished.None? {
          return None;
        }
        SeparatorStep(fields, rest, properties, names, finished.value);
        assert source[offset + 6..] == rest[6..];
        fields := fields + [finished.value];
        properties := [];
        names := names + {finished.value.name};
        identifiers := {};
        offset := offset + 6;
      } else {
        var read := ReadProperty(rest);
        if read.None? {
          return None;
        }
        var property := read.value;
        if property.id in identifiers {
          return None;
        }
        assert source[offset + |property.encoded|..] == rest[|property.encoded|..];
        UsedIdSnoc(properties, property);
        assert ParseFrom(rest, properties, names)
                 == ParseFrom(rest[|property.encoded|..], properties + [property], names);
        properties := properties + [property];
        identifiers := identifiers + {property.id};
        offset := offset + |property.encoded|;
      }
    }
    assert source[offset..] == [];
    assert fields + [] == fields;
    if properties != [] {
      var finished := FinishField(properties, names, false);
      if finished.None? {
        return None;
      }
      fields := fields + [finished.value];
    }
    if fields == [] {
      return None;
    }
    return Some(fields);
  }

  lemma UsedIdSnoc(properties: seq<Property>, last: Property)
    ensures forall id :: UsedId(properties + [last], id) <==> UsedId(properties, id) || id == last.id
  {
    forall id
      ensures UsedId(properties + [last], id) <==> UsedId(properties, id) || id == last.id
    {
      if UsedId(properties, id) {
        var i :| 0 <= i < |properties| && properties[i].id == id;
        assert (properties + [last])[i].id == id;
      }
      if id == last.id {
        assert (properties + [last])[|properties|].id == id;
      }
    }
  }

  lemma SeparatorStep(
    fields: seq<CustomField>, s: Bytes, properties: seq<Property>, names: set<Bytes>, field: CustomField)
    requires IsSeparator(s) && properties != [] && FinishField(properties, names, true) == Some(field)
    ensures Prepend(fields, ParseFrom(s, properties, names))
         == Prepend(fields + [field], ParseFrom(s[6..], [], names + {field.name}))
  {
    PrependSnoc(fields, field, ParseFrom(s[6..], [], names + {field.name}));
  }

  ghost function Prepend(fields: seq<CustomField>, rest: Option<seq<CustomField>>): Option<seq<CustomField>> {
    match rest
    case None => None
    case Some(tail) => Some(fields + tail)
  }

  lemma PrependSnoc(fields: seq<CustomField>, field: CustomField, rest: Option<seq<CustomField>>)
    ensures Prepend(fields + [field], rest) == Prepend(fields, Prepend([field], rest))
  {
    if rest.Some? {
      assert fields + [field] + rest.value == fields + ([field] + rest.value);
    }
  }

  lemma PrependNothing(rest: Option<seq<CustomField>>)
    ensures Prepend([], rest) == rest
  {
    if rest.Some? {
      assert [] + rest.value == rest.value;
    }
  }

  // ---------------------------------------------------------------- the parser is exact

  lemma ParsePropertySound(s: Bytes)
    requires ParseProperty(s).Some?
    ensures WellFormedProperty(ParseProperty(s).value)
  {
    HexBounds();
    PrintParseHex(s[..2]);
    PrintParseHex(s[2..6]);
    var p := ParseProperty(s).value;
    var length := ParseHex(s[2..6]).value;
    assert p.Value() == s[6..6 + length];
    assert p.encoded == s[..2] + s[2..6] + s[6..6 + length];
  }

  lemma FinishFieldSound(properties: seq<Property>, names: set<Bytes>, separatorAfter: bool)
    requires forall p :: p in properties ==> WellFormedProperty(p)
    requires DistinctIds(properties)
    requires FinishField(properties, names, separatorAfter).Some?
    ensures var f := FinishField(properties, names, separatorAfter).value;
            WellFormedField(f) && f.properties == properties && f.name !in names && f.separatorAfter == separatorAfter
  {
    hide WellFormedProperty, DistinctIds;
  }

  lemma FinishFieldComplete(f: CustomField, names: set<Bytes>)
    requires WellFormedField(f) && f.name !in names
    ensures FinishField(f.properties, names, f.separatorAfter) == Some(f)
  {
  }

  /** The list obligations of `WellFormedList`, relative to names already taken; the empty list meets them. */
  ghost predicate WellFormedTail(fields: seq<CustomField>, names: set<Bytes>) {
    AllWellFormed(fields) && Separated(fields, names)
  }

  ghost predicate AllWellFormed(fields: seq<CustomField>) {
    forall f :: f in fields ==> WellFormedField(f)
  }

  ghost predicate Separated(fields: seq<CustomField>, names: set<Bytes>) {
    && (forall i :: 0 <= i < |fields| ==> fields[i].name !in names)
    && (forall i :: 0 <= i < |fields| - 1 ==> fields[i].separatorAfter)
    && (forall i, j :: 0 <= i < j < |fields| ==> fields[i].name != fields[j].name)
  }

  lemma SeparatedCons(field: CustomField, rest: seq<CustomField>, names: set<Bytes>)
    requires field.name !in names && field.separatorAfter
    requires Separated(rest, names + {field.name})
    ensures Separated([field] + rest, names)
  {
    var all := [field] + rest;
    forall i, j | 0 <= i < j < |all|
      ensures all[i].name != all[j].name
    {
      assert all[j] == rest[j - 1];
    }
  }

  /** What one successful parse guarantees, given the properties already gathered and the names taken. */
  ghost predicate Sound(s: Bytes, properties: seq<Property>, names: set<Bytes>, fields: seq<CustomField>) {
    && WellFormedTail(fields, names)
    && EncodeList(fields) == EncodeProperties(properties) + s
    && (fields == [] ==> s == [] && properties == [])
  }

  lemma SoundSeparator(
    s: Bytes, properties: seq<Property>, names: set<Bytes>, field: CustomField, rest: seq<CustomField>)
    requires forall p :: p in properties ==> WellFormedProperty(p)
    requires DistinctIds(properties)
    requires IsSeparator(s) && FinishField(properties, names, true) == Some(field)
    requires Sound(s[6..], [], names + {field.name}, rest)
    ensures Sound(s, properties, names, [field] + rest)
  {
    hide WellFormedField, WellFormedProperty, FinishField, DistinctIds;
    FinishFieldSound(properties, names, true);
    SeparatedCons(field, rest, names);
    assert ([field] + rest)[1..] == rest;
    assert EncodeProperties([]) + s[6..] == s[6..];
    assert s == SEPARATOR + s[6..];
  }

  lemma SoundEnd(properties: seq<Property>, names: set<Bytes>)
    requires forall p :: p in properties ==> WellFormedProperty(p)
    requires DistinctIds(properties)
    requires ParseFrom([], properties, names).Some?
    ensures Sound([], properties, names, ParseFrom([], properties, names).value)
  {
    if properties != [] {
      FinishFieldSound(properties, names, false);
      var last := FinishField(properties, names, false).value;
      assert EncodeList([last]) == EncodeField(last);
    }
  }

  lemma SoundProperty(s: Bytes, properties: seq<Property>, names: set<Bytes>, p: Property, fields: seq<CustomField>)
    requires ParseProperty(s) == Some(p)
    requires Sound(s[|p.encoded|..], properties + [p], names, fields)
    ensures Sound(s, properties, names, fields)
  {
    EncodePropertiesSnoc(properties, p);
    assert s == p.encoded + s[|p.encoded|..];
  }

  lemma {:induction false} ParseFromSound(s: Bytes, properties: seq<Property>, names: set<Bytes>)
    requires forall p :: p in properties ==> WellFormedProperty(p)
    requires DistinctIds(properties)
    requires ParseFrom(s, properties, names).Some?
    ensures Sound(s, properties, names, ParseFrom(s, properties, names).value)
    decreases |s|
  {
    if s == [] {
      SoundEnd(properties, names);
    } else if IsSeparator(s) {
      var field := FinishField(properties, names, true).value;
      ParseFromSound(s[6..], [], names + {field.name});
      SoundSeparator(s, properties, names, field, ParseFrom(s[6..], [], names + {field.name}).value);
    } else {
      ParsePropertySound(s);
      var p := ParseProperty(s).value;
      ParseFromSound(s[|p.encoded|..], properties + [p], names);
      SoundProperty(s, properties, names, p, ParseFrom(s, properties, names).value);
    }
  }

  /** Every accepted input is the printed form of the well-formed list it parses to, byte for byte. */
  lemma ParseThenEncode(s: Bytes, maxBytes: nat)
    requires Parse(s, maxBytes).Some?
    ensures WellFormedList(Parse(s, maxBytes).value)
    ensures Encode(Parse(s, maxBytes).value) == Some(s)
  {
    ParseFromSound(s, [], {});
    var fields := Parse(s, maxBytes).value;
    assert Sound(s, [], {}, fields);
    assert EncodeProperties([]) + s == s;
  }

  /** A property encoding can never begin with the separator token. */
  lemma HeaderIsNotSeparator(p: Property, rest: Bytes)
    requires WellFormedProperty(p)
    ensures !IsSeparator(p.encoded + rest)
  {
    HexBounds();
    ParsePrintHex(p.id, 2);
    EncodePropertyParts(p.id, p.Value());
    var s := p.encoded + rest;
    ZeroHex();
    assert s[..2] == p.encoded[..2] != [0x30, 0x30];
    assert s[..6][..2] == s[..2];
    assert SEPARATOR[..2] == [0x30, 0x30];
  }

  lemma ZeroHex()
    ensures ParseHex([0x30, 0x30]) == Some(0)
  {
    assert [0x30, 0x30][..1] == [0x30];
    assert [0x30][..0] == [];
  }

  /** The separator token can never be read as a property header. */
  lemma SeparatorIsNotHeader(s: Bytes)
    requires IsSeparator(s)
    ensures ParseProperty(s).None?
  {
    assert s[..2] == s[..6][..2] == [0x30, 0x30];
    ZeroHex();
  }

  lemma ParsePropertyComplete(p: Property, rest: Bytes)
    requires WellFormedProperty(p)
    ensures ParseProperty(p.encoded + rest) == Some(p)
  {
    HexBounds();
    hide ParseHex, PrintHex, EncodeProperty;
    var s := p.encoded + rest;
    ParsePrintHex(p.id, 2);
    ParsePrintHex(|p.Value()|, 4);
    EncodePropertyParts(p.id, p.Value());
    assert s[..2] == p.encoded[..2];
    assert s[2..6] == p.encoded[2..6];
    assert s[6..6 + |p.Value()|] == p.Value();
    assert s[..|p.encoded|] == p.encoded;
  }

  lemma {:induction false} ParseProperties(done: seq<Property>, todo: seq<Property>, tail: Bytes, names: set<Bytes>)
    requires forall p :: p in done + todo ==> WellFormedProperty(p)
    requires DistinctIds(done + todo)
    ensures ParseFrom(EncodeProperties(todo) + tail, done, names) == ParseFrom(tail, done + todo, names)
    decreases |todo|
  {
    assert forall p :: p in done ==> p in done + todo;
    if todo == [] {
      assert done + todo == done;
      assert EncodeProperties(todo) + tail == tail;
    } else {
      var p := todo[0];
      assert (done + todo)[|done|] == p;
      var rest := EncodeProperties(todo[1..]) + tail;
      var s := EncodeProperties(todo) + tail;
      assert s == p.encoded + rest;
      HeaderIsNotSeparator(p, rest);
      ParsePropertyComplete(p, rest);
      assert !UsedId(done, p.id) by {
        forall i | 0 <= i < |done|
          ensures done[i].id != p.id
        {
          assert (done + todo)[i] == done[i];
        }
      }
      assert s[|p.encoded|..] == rest;
      assert done + [p] + todo[1..] == done + todo;
      ParseProperties(done + [p], todo[1..], tail, names);
    }
  }

  lemma ParseOneField(f: CustomField, after: Bytes, names: set<Bytes>)
    requires WellFormedField(f) && f.name !in names
    requires !f.separatorAfter ==> after == []
    ensures ParseFrom(EncodeField(f) + after, [], names)
         == if f.separatorAfter then Prepend([f], ParseFrom(after, [], names + {f.name})) else Some([f])
  {
    hide WellFormedProperty, DistinctIds, EncodeProperties;
    FinishFieldComplete(f, names);
    hide FinishField;
    assert [] + f.properties == f.properties != [];
    var tail := (if f.separatorAfter then SEPARATOR else []) + after;
    assert EncodeField(f) + after == EncodeProperties(f.properties) + tail;
    ParseProperties([], f.properties, tail, names);
    if f.separatorAfter {
      assert tail[..6] == SEPARATOR && tail[6..] == after;
    }
  }

  lemma {:induction false} ParseEncodedTail(fields: seq<CustomField>, names: set<Bytes>)
    requires WellFormedTail(fields, names)
    ensures ParseFrom(EncodeList(fields), [], names) == Some(fields)
    decreases |fields|
  {
    if fields != [] {
      var f := fields[0];
      assert f in fields;
      if f.separatorAfter {
        SeparatedTail(fields, names);
        ParseEncodedTail(fields[1..], names + {f.name});
        assert [f] + fields[1..] == fields;
      } else {
        assert fields == [f];
      }
      ParseOneField(f, EncodeList(fields[1..]), names);
    }
  }

  lemma SeparatedTail(fields: seq<CustomField>, names: set<Bytes>)
    requires fields != [] && Separated(fields, names)
    ensures Separated(fields[1..], names + {fields[0].name})
  {
    forall i | 0 <= i < |fields[1..]|
      ensures fields[1..][i].name !in names + {fields[0].name}
    {
      assert fields[0].name != fields[i + 1].name;
    }
  }

  /** Every well-formed list within the length bound is read back exactly. */
  lemma EncodeThenParse(fields: seq<CustomField>, maxBytes: nat)
    requires WellFormedList(fields)
    requires |EncodeList(fields)| <= maxBytes
    ensures Encode(fields) == Some(EncodeList(fields))
    ensures Parse(EncodeList(fields), maxBytes) == Some(fields)
  {
    ParseEncodedTail(fields, {});
    assert fields[0] in fields;
    assert Find(fields[0].properties, NAME_ID).value in fields[0].properties;
    assert EncodeField(fields[0]) != [];
  }

  // ---------------------------------------------------------------- targeted edits

  function NewProperty(id: nat, value: Bytes): Property {
    Property(id, EncodeProperty(id, value))
  }

  function Flag(sensitive: bool): Bytes {
    if sensitive then ONE else ZERO
  }

  /** Rebuild the value owner, and the flag owner when one is asked for; retain every other owner. */
  function ReplaceProperties(
    properties: seq<Property>, value: Property, flag: Option<Property>, hadFlag: bool): seq<Property> {
    if properties == [] then []
    else
      var p := properties[0];
      var rest := ReplaceProperties(properties[1..], value, flag, hadFlag);
      if p.id == VALUE_ID then
        if flag.Some? && !hadFlag then [value, flag.value] + rest else [value] + rest
      else if p.id == SENSITIVITY_ID && flag.Some? then [flag.value] + rest
      else [p] + rest
  }

  function NewFlag(sensitive: Option<bool>): Option<Property> {
    if sensitive.Some? then Some(NewProperty(SENSITIVITY_ID, Flag(sensitive.value))) else None
  }

  function ReplaceOneField(f: CustomField, value: Bytes, sensitive: Option<bool>): CustomField {
    CustomField(
      ReplaceProperties(f.properties, NewProperty(VALUE_ID, value), NewFlag(sensitive),
                        Find(f.properties, SENSITIVITY_ID).Some?),
      f.name,
      if sensitive.Some? then sensitive.value else f.sensitive,
      f.separatorAfter)
  }

  /** The edit as a whole: exactly one field carries the name, and only that field is rebuilt. */
  ghost function ReplaceNamed(
    fields: seq<CustomField>, name: Bytes, value: Bytes, sensitive: Option<bool>): Option<seq<CustomField>> {
    if name != [] && |value| <= 0xFFFF && Utf8.AcceptedText(value) && exists k :: OnlyNamed(fields, name, k) then
      Some(seq(|fields|, i requires 0 <= i < |fields| => ReplaceIfNamed(fields[i], name, value, sensitive)))
    else None
  }

  function ReplaceIfNamed(f: CustomField, name: Bytes, value: Bytes, sensitive: Option<bool>): CustomField {
    if f.name == name then ReplaceOneField(f, value, sensitive) else f
  }

  /** The one loop of the editor: copy every field, replace the named one, refuse a second match. */
  method ReplaceCustomValue(fields: seq<CustomField>, name: Bytes, value: Bytes, sensitive: Option<bool>)
    returns (result: Option<seq<CustomField>>)
    ensures result == ReplaceNamed(fields, name, value, sensitive)
  {
    hide ReplaceOneField, Utf8.AcceptedText;
    if name == [] || |value| > 0xFFFF || !Utf8.AcceptedText(value) {
      return None;
    }
    var output: seq<CustomField> := [];
    var found := false;
    ghost var at := 0;
    var i := 0;
    while i < |fields|
      invariant 0 <= i <= |fields| && |output| == i
      invariant !found ==> forall j :: 0 <= j < i ==> fields[j].name != name
      invariant found ==> 0 <= at < i && fields[at].name == name
      invariant found ==> forall j :: 0 <= j < i && j != at ==> fields[j].name != name
      invariant forall j :: 0 <= j < i ==> output[j] == ReplaceIfNamed(fields[j], name, value, sensitive)
    {
      if fields[i].name != name {
        output := output + [fields[i]];
      } else if found {
        assert forall k :: OnlyNamed(fields, name, k) ==> k == at && k == i;
        return None;
      } else {
        found, at := true, i;
        output := output + [ReplaceOneField(fields[i], value, sensitive)];
      }
      i := i + 1;
    }
    if !found {
      return None;
    }
    assert OnlyNamed(fields, name, at);
    assert output == ReplaceNamed(fields, name, value, sensitive).value;
    return Some(output);
  }

  ghost predicate OnlyNamed(fields: seq<CustomField>, name: Bytes, k: nat) {
    && k < |fields| && fields[k].name == name
    && forall j :: 0 <= j < |fields| && j != k ==> fields[j].name != name
  }

  function ReplaceInPlace(p: Property, value: Property, flag: Option<Property>): Property {
    if p.id == VALUE_ID then value
    else if p.id == SENSITIVITY_ID && flag.Some? then flag.value
    else p
  }

  /** Where the replacement keeps the property count: every position keeps its identifier. */
  lemma {:induction false} ReplacePositions(
    properties: seq<Property>, value: Property, flag: Option<Property>, hadFlag: bool)
    requires flag.None? || hadFlag
    ensures var out := ReplaceProperties(properties, value, flag, hadFlag);
            && |out| == |properties|
            && forall i :: 0 <= i < |out| ==> out[i] == ReplaceInPlace(properties[i], value, flag)
  {
    if properties != [] {
      ReplacePositions(properties[1..], value, flag, hadFlag);
    }
  }

  /** Where a flag is added: everything before the value stays in place. */
  lemma {:induction false} ReplacePrefix(
    left: seq<Property>, tail: seq<Property>, value: Property, flag: Option<Property>)
    requires forall i :: 0 <= i < |left| ==> left[i].id != VALUE_ID && left[i].id != SENSITIVITY_ID
    ensures ReplaceProperties(left + tail, value, flag, false) == left + ReplaceProperties(tail, value, flag, false)
  {
    if left == [] {
      assert left + tail == tail;
    } else {
      hide Find;
      var all, after := left + tail, ReplaceProperties(tail, value, flag, false);
      assert all[0] == left[0] && all[1..] == left[1..] + tail;
      ReplacePrefix(left[1..], tail, value, flag);
      assert ReplaceProperties(all, value, flag, false) == [left[0]] + (left[1..] + after);
      assert [left[0]] + (left[1..] + after) == left + after;
    }
  }

  lemma {:induction false} ReplaceNothing(properties: seq<Property>, value: Property, flag: Option<Property>)
    requires forall i :: 0 <= i < |properties| ==> properties[i].id != VALUE_ID && properties[i].id != SENSITIVITY_ID
    ensures ReplaceProperties(properties, value, flag, false) == properties
  {
    if properties != [] {
      ReplaceNothing(properties[1..], value, flag);
    }
  }

  /** Where a flag is added: it follows the value, and everything around the two stays in place. */
  lemma ReplaceAround(properties: seq<Property>, v: nat, value: Property, flag: Property)
    requires v < |properties| && properties[v].id == VALUE_ID && DistinctIds(properties)
    requires forall i :: 0 <= i < |properties| ==> properties[i].id != SENSITIVITY_ID
    ensures ReplaceProperties(properties, value, Some(flag), false)
         == properties[..v] + ([value, flag] + properties[v + 1..])
  {
    var left, tail, right := properties[..v], properties[v..], properties[v + 1..];
    assert properties == left + tail;
    assert tail[0] == properties[v] && tail[1..] == right;
    ReplacePrefix(left, tail, value, Some(flag));
    ReplaceNothing(right, value, Some(flag));
  }

  // ---------------------------------------------------------------- what a targeted edit leaves alone

  /** The properties an edit never touches, in their order. */
  function Others(properties: seq<Property>): seq<Property> {
    if properties == [] then []
    else if properties[0].id == VALUE_ID || properties[0].id == SENSITIVITY_ID then Others(properties[1..])
    else [properties[0]] + Others(properties[1..])
  }

  lemma {:induction false} OthersConcat(left: seq<Property>, right: seq<Property>)
    ensures Others(left + right) == Others(left) + Others(right)
  {
    if left == [] {
      assert left + right == right;
    } else {
      assert (left + right)[1..] == left[1..] + right;
      OthersConcat(left[1..], right);
    }
  }

  lemma {:induction false} OthersKept(properties: seq<Property>, value: Property, flag: Option<Property>, hadFlag: bool)
    requires value.id == VALUE_ID && (flag.Some? ==> flag.value.id == SENSITIVITY_ID)
    ensures Others(ReplaceProperties(properties, value, flag, hadFlag)) == Others(properties)
  {
    if properties != [] {
      var rest := ReplaceProperties(properties[1..], value, flag, hadFlag);
      OthersKept(properties[1..], value, flag, hadFlag);
      if properties[0].id == VALUE_ID && flag.Some? && !hadFlag {
        var inserted := [value, flag.value];
        assert inserted[1..] == [flag.value] && [flag.value][1..] == [];
        OthersConcat(inserted, rest);
      } else {
        var kept := [ReplaceInPlace(properties[0], value, flag)];
        assert kept[1..] == [];
        OthersConcat(kept, rest);
      }
    }
  }

  lemma {:induction false} FindAt(properties: seq<Property>, at: nat)
    requires at < |properties| && DistinctIds(properties)
    ensures Find(properties, properties[at].id) == Some(properties[at])
  {
    if at > 0 {
      FindAt(properties[1..], at - 1);
    }
  }

  lemma {:induction false} FindIndex(properties: seq<Property>, id: nat) returns (at: nat)
    requires Find(properties, id).Some?
    ensures at < |properties| && properties[at] == Find(properties, id).value
  {
    if properties[0].id == id {
      at := 0;
    } else {
      at := FindIndex(properties[1..], id);
      at := at + 1;
    }
  }

  lemma NewPropertyWellFormed(id: nat, value: Bytes)
    requires 1 <= id <= 0xFF && |value| <= 0xFFFF && Utf8.AcceptedText(value)
    ensures WellFormedProperty(NewProperty(id, value)) && NewProperty(id, value).Value() == value
  {
    EncodePropertyParts(id, value);
  }

  lemma FlagAccepted(sensitive: bool)
    ensures Utf8.AcceptedText(Flag(sensitive)) && |Flag(sensitive)| == 1
  {
    assert Flag(sensitive)[1..] == [];
  }

  predicate KeepsShape(f: CustomField, sensitive: Option<bool>) {
    sensitive.None? || Find(f.properties, SENSITIVITY_ID).Some?
  }

  /** Every difference a targeted edit may make, and nothing else. */
  ghost predicate EditedOnly(f: CustomField, g: CustomField, value: Bytes, sensitive: Option<bool>) {
    && g.name == f.name && g.separatorAfter == f.separatorAfter
    && g.sensitive == (if sensitive.Some? then sensitive.value else f.sensitive)
    && Find(g.properties, VALUE_ID).Some? && Find(g.properties, VALUE_ID).value.Value() == value
    && Others(g.properties) == Others(f.properties)
    && (KeepsShape(f, sensitive) ==>
          |g.properties| == |f.properties|
          && forall i :: 0 <= i < |f.properties| ==> g.properties[i].id == f.properties[i].id)
    && (!KeepsShape(f, sensitive) ==>
          exists v :: 0 <= v < |f.properties| && InsertedAfter(f.properties, g.properties, v))
  }

  ghost predicate InsertedAfter(before: seq<Property>, after: seq<Property>, v: nat)
    requires v < |before|
  {
    && before[v].id == VALUE_ID
    && |after| == |before| + 1
    && after[..v] == before[..v] && after[v + 2..] == before[v + 1..]
    && after[v].id == VALUE_ID && after[v + 1].id == SENSITIVITY_ID
  }

  lemma EditInPlace(f: CustomField, value: Bytes, sensitive: Option<bool>)
    requires WellFormedField(f) && |value| <= 0xFFFF && Utf8.AcceptedText(value)
    requires KeepsShape(f, sensitive)
    ensures WellFormedField(ReplaceOneField(f, value, sensitive))
    ensures EditedOnly(f, ReplaceOneField(f, value, sensitive), value, sensitive)
  {
    hide WellFormedProperty, DistinctIds, ReplaceProperties, Others;
    var newValue, newFlag := NewProperty(VALUE_ID, value), NewFlag(sensitive);
    NewOwnersWellFormed(value, sensitive);
    KeepOwners(f.properties, newValue, newFlag);
    OthersKept(f.properties, newValue, newFlag, Find(f.properties, SENSITIVITY_ID).Some?);
  }

  lemma KeepOwners(before: seq<Property>, value: Property, flag: Option<Property>)
    requires forall p :: p in before ==> WellFormedProperty(p)
    requires DistinctIds(before) && Find(before, NAME_ID).Some? && Find(before, VALUE_ID).Some?
    requires flag.Some? ==> Find(before, SENSITIVITY_ID).Some?
    requires WellFormedProperty(value) && value.id == VALUE_ID
    requires flag.Some? ==> WellFormedProperty(flag.value) && flag.value.id == SENSITIVITY_ID
    ensures var after := ReplaceProperties(before, value, flag, Find(before, SENSITIVITY_ID).Some?);
            && (forall p :: p in after ==> WellFormedProperty(p))
            && DistinctIds(after)
            && |after| == |before| && (forall i :: 0 <= i < |after| ==> after[i].id == before[i].id)
            && Find(after, NAME_ID) == Find(before, NAME_ID)
            && Find(after, VALUE_ID) == Some(value)
            && Find(after, SENSITIVITY_ID) == (if flag.Some? then flag else Find(before, SENSITIVITY_ID))
  {
    hide WellFormedProperty, Find, DistinctIds, ReplaceProperties;
    var had := Find(before, SENSITIVITY_ID).Some?;
    var after := ReplaceProperties(before, value, flag, had);
    assert forall p :: p in after ==> WellFormedProperty(p) by {
      ReplacePositions(before, value, flag, had);
      PropertiesInPlace(before, after, value, flag);
    }
    assert |after| == |before| && forall i :: 0 <= i < |after| ==> after[i].id == before[i].id by {
      ReplacePositions(before, value, flag, had);
    }
    FoundKept(before, value, flag, NAME_ID);
    FoundKept(before, value, flag, VALUE_ID);
    FoundKept(before, value, flag, SENSITIVITY_ID);
  }

  lemma FoundKept(before: seq<Property>, value: Property, flag: Option<Property>, id: nat)
    requires DistinctIds(before) && Find(before, VALUE_ID).Some?
    requires flag.Some? ==> Find(before, SENSITIVITY_ID).Some?
    requires value.id == VALUE_ID && (flag.Some? ==> flag.value.id == SENSITIVITY_ID)
    ensures var after := ReplaceProperties(before, value, flag, Find(before, SENSITIVITY_ID).Some?);
            && DistinctIds(after)
            && Find(after, id) == (if id == VALUE_ID then Some(value)
                                   else if id == SENSITIVITY_ID && flag.Some? then flag
                                   else Find(before, id))
  {
    hide Find, DistinctIds, ReplaceProperties;
    var had := Find(before, SENSITIVITY_ID).Some?;
    ReplacePositions(before, value, flag, had);
    FoundInPlace(before, ReplaceProperties(before, value, flag, had), value, flag, id);
  }

  lemma NewOwnersWellFormed(value: Bytes, sensitive: Option<bool>)
    requires |value| <= 0xFFFF && Utf8.AcceptedText(value)
    ensures WellFormedProperty(NewProperty(VALUE_ID, value)) && NewProperty(VALUE_ID, value).Value() == value
    ensures sensitive.Some? ==>
              && NewFlag(sensitive).value.id == SENSITIVITY_ID
              && WellFormedProperty(NewFlag(sensitive).value)
              && NewFlag(sensitive).value.Value() == Flag(sensitive.value)
  {
    NewPropertyWellFormed(VALUE_ID, value);
    if sensitive.Some? {
      FlagAccepted(sensitive.value);
      NewPropertyWellFormed(SENSITIVITY_ID, Flag(sensitive.value));
    }
  }

  lemma PropertiesInPlace(before: seq<Property>, after: seq<Property>, value: Property, flag: Option<Property>)
    requires forall p :: p in before ==> WellFormedProperty(p)
    requires WellFormedProperty(value) && (flag.Some? ==> WellFormedProperty(flag.value))
    requires |after| == |before|
    requires forall i :: 0 <= i < |after| ==> after[i] == ReplaceInPlace(before[i], value, flag)
    ensures forall p :: p in after ==> WellFormedProperty(p)
  {
    forall p | p in after
      ensures WellFormedProperty(p)
    {
      var i :| 0 <= i < |after| && after[i] == p;
      assert before[i] in before;
    }
  }

  lemma FoundInPlace(before: seq<Property>, after: seq<Property>, value: Property, flag: Option<Property>, id: nat)
    requires DistinctIds(before) && |after| == |before|
    requires value.id == VALUE_ID && (flag.Some? ==> flag.value.id == SENSITIVITY_ID)
    requires forall i :: 0 <= i < |after| ==> after[i] == ReplaceInPlace(before[i], value, flag)
    ensures DistinctIds(after)
    ensures Find(after, id) == match Find(before, id)
                               case None => None
                               case Some(p) => Some(ReplaceInPlace(p, value, flag))
  {
    hide Find;
    if Find(before, id).Some? {
      var at := FindIndex(before, id);
      FindAt(after, at);
    }
    if Find(after, id).Some? {
      var at := FindIndex(after, id);
      FindAt(before, at);
    }
  }

  lemma EditInserts(f: CustomField, value: Bytes, flag: bool)
    requires WellFormedField(f) && |value| <= 0xFFFF && Utf8.AcceptedText(value)
    requires !KeepsShape(f, Some(flag))
    ensures WellFormedField(ReplaceOneField(f, value, Some(flag)))
    ensures EditedOnly(f, ReplaceOneField(f, value, Some(flag)), value, Some(flag))
  {
    var newValue, newFlag := NewProperty(VALUE_ID, value), NewFlag(Some(flag)).value;
    NewOwnersWellFormed(value, Some(flag));
    var v := FindIndex(f.properties, VALUE_ID);
    InsertOwners(f.properties, v, newValue, newFlag);
    OthersKept(f.properties, newValue, Some(newFlag), false);
  }

  lemma InsertOwners(before: seq<Property>, v: nat, value: Property, flag: Property)
    requires forall p :: p in before ==> WellFormedProperty(p) && p.id != SENSITIVITY_ID
    requires DistinctIds(before) && v < |before| && before[v].id == VALUE_ID && Find(before, NAME_ID).Some?
    requires WellFormedProperty(value) && value.id == VALUE_ID
    requires WellFormedProperty(flag) && flag.id == SENSITIVITY_ID
    ensures var after := ReplaceProperties(before, value, Some(flag), false);
            && (forall p :: p in after ==> WellFormedProperty(p))
            && DistinctIds(after) && InsertedAfter(before, after, v)
            && Find(after, NAME_ID) == Find(before, NAME_ID)
            && Find(after, VALUE_ID) == Some(value) && Find(after, SENSITIVITY_ID) == Some(flag)
  {
    var after := ReplaceProperties(before, value, Some(flag), false);
    assert forall i :: 0 <= i < |before| ==> before[i] in before;
    ReplaceAround(before, v, value, flag);
    assert after[v] == value && after[v + 1] == flag;
    assert after[..v] == before[..v] && after[v + 2..] == before[v + 1..];
    InsertedDistinct(before, after, v);
    InsertedFound(before, after, v);
    InsertedProperties(before, after, v);
  }

  /** Positions of the old properties after two owners took the place of one. */
  lemma InsertedIndex(before: seq<Property>, after: seq<Property>, v: nat, i: nat)
    requires v < |before| && InsertedAfter(before, after, v)
    requires i < |after| && i != v && i != v + 1
    ensures var from := if i < v then i else i - 1;
            from < |before| && from != v && after[i] == before[from]
  {
    if i < v {
      assert after[i] == after[..v][i];
    } else {
      assert after[i] == after[v + 2..][i - v - 2];
    }
  }

  lemma InsertedFound(before: seq<Property>, after: seq<Property>, v: nat)
    requires v < |before| && InsertedAfter(before, after, v)
    requires DistinctIds(after) && Find(before, NAME_ID).Some?
    ensures Find(after, NAME_ID) == Find(before, NAME_ID)
    ensures Find(after, VALUE_ID) == Some(after[v])
    ensures Find(after, SENSITIVITY_ID) == Some(after[v + 1])
  {
    FindAt(after, v);
    FindAt(after, v + 1);
    var n := FindIndex(before, NAME_ID);
    var to := if n < v then n else n + 1;
    InsertedIndex(before, after, v, to);
    FindAt(after, to);
  }

  lemma InsertedProperties(before: seq<Property>, after: seq<Property>, v: nat)
    requires v < |before| && InsertedAfter(before, after, v)
    requires forall p :: p in before ==> WellFormedProperty(p)
    requires WellFormedProperty(after[v]) && WellFormedProperty(after[v + 1])
    ensures forall p :: p in after ==> WellFormedProperty(p)
  {
    forall p | p in after
      ensures WellFormedProperty(p)
    {
      var i :| 0 <= i < |after| && after[i] == p;
      if i != v && i != v + 1 {
        InsertedIndex(before, after, v, i);
        assert before[if i < v then i else i - 1] in before;
      }
    }
  }

  lemma InsertedDistinct(before: seq<Property>, after: seq<Property>, v: nat)
    requires v < |before| && DistinctIds(before) && InsertedAfter(before, after, v)
    requires forall i :: 0 <= i < |before| ==> before[i].id != SENSITIVITY_ID
    ensures DistinctIds(after)
  {
    forall i, j | 0 <= i < j < |after|
      ensures after[i].id != after[j].id
    {
      if i != v && i != v + 1 {
        InsertedIndex(before, after, v, i);
      }
      if j != v && j != v + 1 {
        InsertedIndex(before, after, v, j);
      }
    }
  }

  lemma EditFrame(f: CustomField, value: Bytes, sensitive: Option<bool>)
    requires WellFormedField(f) && |value| <= 0xFFFF && Utf8.AcceptedText(value)
    ensures WellFormedField(ReplaceOneField(f, value, sensitive))
    ensures EditedOnly(f, ReplaceOneField(f, value, sensitive), value, sensitive)
  {
    if KeepsShape(f, sensitive) {
      EditInPlace(f, value, sensitive);
    } else {
      EditInserts(f, value, sensitive.value);
    }
  }

  /** The edit at the byte level: parse, replace, print, and refuse a result over the bound. */
  ghost function EditRaw(s: Bytes, name: Bytes, value: Bytes, sensitive: Option<bool>, maxBytes: nat): Result<Bytes> {
    if |s| > maxBytes then Err(MaxDecodedText)
    else
      match Parse(s, maxBytes)
      case None => Err(InvalidField)
      case Some(fields) =>
        match ReplaceNamed(fields, name, value, sensitive)
        case None => Err(InvalidField)
        case Some(edited) =>
          match Encode(edited)
          case None => Err(InvalidField)
          case Some(t) => if |t| > maxBytes then Err(MaxDecodedText) else Ok(t)
  }

  lemma ReplacedListWellFormed(fields: seq<CustomField>, name: Bytes, value: Bytes, sensitive: Option<bool>)
    requires WellFormedList(fields)
    requires ReplaceNamed(fields, name, value, sensitive).Some?
    ensures WellFormedList(ReplaceNamed(fields, name, value, sensitive).value)
  {
    var edited := ReplaceNamed(fields, name, value, sensitive).value;
    forall g | g in edited
      ensures WellFormedField(g)
    {
      var i :| 0 <= i < |edited| && edited[i] == g;
      assert fields[i] in fields;
      EditFrame(fields[i], value, sensitive);
    }
  }

  /**
   An edit succeeds exactly when the input parses, some field carries the name, the value is
   acceptable and the result fits. What comes out parses again, every field but the named one is
   unchanged, and the named one differs only in its value and the sensitivity asked for.
   */
  lemma TargetedEdit(s: Bytes, name: Bytes, value: Bytes, sensitive: Option<bool>, maxBytes: nat)
    requires Parse(s, maxBytes).Some?
    ensures var fields := Parse(s, maxBytes).value;
            EditRaw(s, name, value, sensitive, maxBytes) != Err(InvalidField)
            <==> |value| <= 0xFFFF && Utf8.AcceptedText(value)
                 && exists k :: 0 <= k < |fields| && fields[k].name == name
    ensures EditRaw(s, name, value, sensitive, maxBytes).Ok? ==>
              var fields := Parse(s, maxBytes).value;
              var again := Parse(EditRaw(s, name, value, sensitive, maxBytes).value, maxBytes);
              && again.Some? && |again.value| == |fields|
              && (forall i :: 0 <= i < |fields| && fields[i].name != name ==> again.value[i] == fields[i])
              && (exists k :: 0 <= k < |fields| && fields[k].name == name
                   && EditedOnly(fields[k], again.value[k], value, sensitive))
  {
    ParseThenEncode(s, maxBytes);
    hide WellFormedList, EditedOnly, Parse;
    var fields := Parse(s, maxBytes).value;
    if k :| 0 <= k < |fields| && fields[k].name == name {
      NamedOnce(fields, name, k);
      if |value| <= 0xFFFF && Utf8.AcceptedText(value) {
        EditNamed(fields, name, k, value, sensitive, maxBytes);
      }
    }
  }

  lemma EditNamed(fields: seq<CustomField>, name: Bytes, k: nat, value: Bytes, sensitive: Option<bool>, maxBytes: nat)
    requires WellFormedList(fields) && OnlyNamed(fields, name, k) && name != []
    requires |value| <= 0xFFFF && Utf8.AcceptedText(value)
    ensures ReplaceNamed(fields, name, value, sensitive).Some?
    ensures var edited := ReplaceNamed(fields, name, value, sensitive).value;
            && |edited| == |fields|
            && Encode(edited) == Some(EncodeList(edited))
            && (|EncodeList(edited)| <= maxBytes ==> Parse(EncodeList(edited), maxBytes) == Some(edited))
            && (forall i :: 0 <= i < |fields| && fields[i].name != name ==> edited[i] == fields[i])
            && EditedOnly(fields[k], edited[k], value, sensitive)
  {
    hide WellFormedField, EditedOnly, ReplaceOneField;
    var edited := ReplaceNamed(fields, name, value, sensitive).value;
    ReplacedListWellFormed(fields, name, value, sensitive);
    assert fields[k] in fields;
    EditFrame(fields[k], value, sensitive);
    if |EncodeList(edited)| <= maxBytes {
      EncodeThenParse(edited, maxBytes);
    }
  }

  lemma NamedOnce(fields: seq<CustomField>, name: Bytes, k: nat)
    requires WellFormedList(fields) && k < |fields| && fields[k].name == name
    ensures OnlyNamed(fields, name, k) && name != []
  {
    assert fields[k] in fields;
  }
}
