/**
 A typed patch of one record: its edits resolved to encoded values, and the fields planned from
 them. The encoded values pass validation without a warning, and the plan keeps every unnamed
 field in its order and puts each new one alone in its type.
 */
module Edits {
  import opened Basics
  import opened Schema
  import opened Documents
  import opened Validation
  import opened Revisions
  import Utf8

  /** The closed set of typed edits; text arrives as the UTF-8 bytes of the caller's string. */
  datatype Edit =
    | SetText(code: Byte, value: Bytes)
    | SetSecret(code: Byte, value: Bytes)
    | SetBytes(code: Byte, value: Bytes)
    | SetUint32(code: Byte, number: int)
    | SetTime(code: Byte, number: int)
    | RemoveField(code: Byte)

  /** One resolved edit: the new payload, or `None` for a removal. */
  datatype Replacement = Replacement(code: Byte, payload: Option<Bytes>)

  predicate Editable(code: Byte) {
    match RecordSpec(code)
    case None => false
    case Some(spec) => spec.editable && !spec.kind.OpaqueKind? && !spec.kind.EmptyKind?
  }

  /** Which kind of edit a field accepts. */
  predicate Accepts(spec: FieldSpec, edit: Edit) {
    match edit
    case SetText(_, _) => spec.kind.TextKind? && !spec.IsSecret()
    case SetSecret(_, _) => (spec.kind.TextKind? || spec.kind.BinaryKind?) && spec.IsSecret()
    case SetBytes(_, _) => spec.kind.BinaryKind? && !spec.IsSecret()
    case SetUint32(_, _) => spec.kind.Uint32Kind?
    case SetTime(_, _) => spec.kind.TimeKind?
    case RemoveField(_) => !spec.Mandatory()
  }

  function EncodeText(spec: FieldSpec, value: Bytes): Option<Bytes> {
    if Utf8.AcceptedText(value) && !(spec.Mandatory() && value == []) then Some(value) else None
  }

  function EncodeNumber(number: int, width: Option<nat>): Option<Bytes> {
    if width.Some? && 0 <= number < Pow256(width.value) then Some(LittleEndian(number, width.value)) else None
  }

  function EncodeOctets(spec: FieldSpec, value: Bytes): Option<Bytes> {
    if spec.kind.TextKind? then EncodeText(spec, value)
    else if spec.fixedLength.Some? && |value| != spec.fixedLength.value then None
    else Some(value)
  }

  /** The canonical wire bytes of one set edit. */
  function EncodeValue(spec: FieldSpec, edit: Edit, width: Option<nat>): Option<Bytes> {
    match edit
    case SetText(_, value) => EncodeOctets(spec, value)
    case SetSecret(_, value) => EncodeOctets(spec, value)
    case SetBytes(_, value) => EncodeOctets(spec, value)
    case SetUint32(_, number) => EncodeNumber(number, width)
    case SetTime(_, number) => EncodeNumber(number, width)
    case RemoveField(_) => None
  }

  function FirstOf(fields: seq<RawField>, code: Byte): (found: Option<RawField>)
    ensures found.Some? <==> Has(fields, code)
    ensures found.Some? ==> found.value in fields && found.value.typeCode == code
  {
    if fields == [] then None
    else if fields[0].typeCode == code then assert Has(fields, code); Some(fields[0])
    else
      assert Has(fields[1..], code) ==> Has(fields, code) by {
        if k :| 0 <= k < |fields[1..]| && fields[1..][k].typeCode == code {
          assert fields[k + 1].typeCode == code;
        }
      }
      assert Has(fields, code) ==> Has(fields[1..], code) by {
        if k :| 0 <= k < |fields| && fields[k].typeCode == code {
          assert fields[1..][k - 1].typeCode == code;
        }
      }
      FirstOf(fields[1..], code)
  }

  /** A field with two wire widths keeps the one its source uses; every other field takes its fixed width. */
  function WireWidth(spec: FieldSpec, raw: Option<RawField>): Option<Option<nat>> {
    if raw.Some? && spec.alternateLength.Some? then
      if Some(|raw.value.payload|) == spec.fixedLength || Some(|raw.value.payload|) == spec.alternateLength
      then Some(Some(|raw.value.payload|))
      else None
    else Some(spec.fixedLength)
  }

  /** Check one edit against the schema and the record, and encode it. */
  function EncodeEdit(fields: seq<RawField>, edit: Edit, version: nat): Option<Replacement> {
    if CountType(fields, edit.code) > 1 || !Editable(edit.code) || !Accepts(RecordSpec(edit.code).value, edit) then None
    else
      var spec := RecordSpec(edit.code).value;
      var raw := FirstOf(fields, edit.code);
      if edit.RemoveField? then
        if raw.None? then None else Some(Replacement(edit.code, None))
      else if spec.since > version then None
      else
        var width :- WireWidth(spec, raw);
        var payload :- EncodeValue(spec, edit, width);
        Some(Replacement(edit.code, Some(payload)))
  }

  predicate InReplacements(replacements: seq<Replacement>, code: Byte) {
    exists i :: 0 <= i < |replacements| && replacements[i].code == code
  }

  /** Resolve a patch left to right; a repeated field type refuses the whole patch. */
  function EncodeEdits(
    fields: seq<RawField>, edits: seq<Edit>, done: seq<Replacement>, version: nat): Option<seq<Replacement>>
    decreases |edits|
  {
    if edits == [] then Some(done)
    else if InReplacements(done, edits[0].code) then None
    else
      var next :- EncodeEdit(fields, edits[0], version);
      EncodeEdits(fields, edits[1..], done + [next], version)
  }

  // ---------------------------------------------------------------- the edited field sequence

  function FindReplacement(replacements: seq<Replacement>, code: Byte): (found: Option<Replacement>)
    ensures found.Some? <==> InReplacements(replacements, code)
    ensures found.Some? ==> found.value in replacements && found.value.code == code
  {
    if replacements == [] then None
    else if replacements[0].code == code then assert InReplacements(replacements, code); Some(replacements[0])
    else
      assert InReplacements(replacements[1..], code) ==> InReplacements(replacements, code) by {
        if k :| 0 <= k < |replacements[1..]| && replacements[1..][k].code == code {
          assert replacements[k + 1].code == code;
        }
      }
      assert InReplacements(replacements, code) ==> InReplacements(replacements[1..], code) by {
        if k :| 0 <= k < |replacements| && replacements[k].code == code {
          assert replacements[1..][k - 1].code == code;
        }
      }
      FindReplacement(replacements[1..], code)
  }

  function Fresh(code: Byte, payload: Bytes): PlannedField {
    PlannedField(None, code, payload, Understood)
  }

  /** What the patch makes of the field at `i`: a replacement is used up by the first field of its type. */
  function InPlaceOne(fields: seq<RawField>, replacements: seq<Replacement>, i: nat): seq<PlannedField>
    requires i < |fields|
  {
    match FindReplacement(replacements, fields[i].typeCode)
    case None => [Retain(fields[i], i)]
    case Some(replacement) =>
      if Seen(fields, i) then [Retain(fields[i], i)]
      else if replacement.payload.None? then []
      else [Fresh(fields[i].typeCode, replacement.payload.value)]
  }

  function InPlace(fields: seq<RawField>, replacements: seq<Replacement>, n: nat): seq<PlannedField>
    requires n <= |fields|
  {
    if n == 0 then [] else InPlace(fields, replacements, n - 1) + InPlaceOne(fields, replacements, n - 1)
  }

  /** Replacements no field used, in the order of the patch. */
  function Extras(fields: seq<RawField>, replacements: seq<Replacement>): seq<PlannedField> {
    if replacements == [] then []
    else
      (if replacements[0].payload.Some? && !Has(fields, replacements[0].code)
       then [Fresh(replacements[0].code, replacements[0].payload.value)] else [])
      + Extras(fields, replacements[1..])
  }

  function FirstEnd(planned: seq<PlannedField>): (at: nat)
    ensures at <= |planned|
    ensures at < |planned| ==> planned[at].typeCode == END
    ensures forall k :: 0 <= k < at ==> planned[k].typeCode != END
  {
    if planned == [] then 0
    else if planned[0].typeCode == END then 0
    else 1 + FirstEnd(planned[1..])
  }

  /** Replace in place, then put the new fields before the terminator. */
  function EditedFields(fields: seq<RawField>, replacements: seq<Replacement>): seq<PlannedField> {
    var planned := InPlace(fields, replacements, |fields|);
    var at := FirstEnd(planned);
    planned[..at] + Extras(fields, replacements) + planned[at..]
  }

  // ---------------------------------------------------------------- the loops of the patch

  method BuildReplacements(
    fields: seq<RawField>, edits: seq<Edit>, version: nat)
    returns (result: Option<seq<Replacement>>)
    ensures result == EncodeEdits(fields, edits, [], version)
  {
    hide EncodeEdit;
    var replacements: seq<Replacement> := [];
    var i := 0;
    assert edits[0..] == edits;
    while i < |edits|
      invariant 0 <= i <= |edits|
      invariant EncodeEdits(fields, edits, [], version) == EncodeEdits(fields, edits[i..], replacements, version)
    {
      assert edits[i..][1..] == edits[i + 1..];
      if InReplacements(replacements, edits[i].code) {
        return None;
      }
      var encoded := EncodeEdit(fields, edits[i], version);
      if encoded.None? {
        return None;
      }
      replacements := replacements + [encoded.value];
      i := i + 1;
    }
    return Some(replacements);
  }

  method PlanEditedFields(fields: seq<RawField>, replacements: seq<Replacement>) returns (planned: seq<PlannedField>)
    ensures planned == EditedFields(fields, replacements)
  {
    hide FirstEnd, Extras, FindReplacement;
    var kept: seq<PlannedField> := [];
    var used: set<Byte> := {};
    var i := 0;
    while i < |fields|
      invariant 0 <= i <= |fields|
      invariant forall code :: code in used <==> exists j :: 0 <= j < i && fields[j].typeCode == code
      invariant kept == InPlace(fields, replacements, i)
    {
      var raw := fields[i];
      assert raw.typeCode in used <==> Seen(fields, i);
      var found := FindReplacement(replacements, raw.typeCode);
      if found.None? || raw.typeCode in used {
        kept := kept + [Retain(raw, i)];
      } else if found.value.payload.Some? {
        kept := kept + [Fresh(raw.typeCode, found.value.payload.value)];
      }
      used := used + {raw.typeCode};
      i := i + 1;
    }
    planned := InsertExtras(kept, FirstEnd(kept), fields, replacements);
  }

  method InsertExtras(kept: seq<PlannedField>, at: nat, fields: seq<RawField>, replacements: seq<Replacement>)
    returns (planned: seq<PlannedField>)
    requires at <= |kept|
    ensures planned == kept[..at] + Extras(fields, replacements) + kept[at..]
  {
    hide Extras;
    planned := kept;
    var terminator: nat := at;
    ghost var added: seq<PlannedField> := [];
    var i := 0;
    ExtrasNothing(fields);
    while i < |replacements|
      invariant 0 <= i <= |replacements|
      invariant added == Extras(fields, replacements[..i])
      invariant terminator == at + |added| && planned == kept[..at] + added + kept[at..]
    {
      ExtrasSnoc(fields, replacements[..i], replacements[i]);
      ExtrasOne(fields, replacements[i]);
      assert replacements[..i + 1] == replacements[..i] + [replacements[i]];
      if replacements[i].payload.Some? && !Has(fields, replacements[i].code) {
        var next := Fresh(replacements[i].code, replacements[i].payload.value);
        InsertAt(kept[..at] + added, next, kept[at..], planned, terminator);
        planned := planned[..terminator] + [next] + planned[terminator..];
        assert kept[..at] + added + [next] == kept[..at] + (added + [next]);
        added := added + [next];
        terminator := terminator + 1;
      }
      i := i + 1;
    }
    assert replacements[..i] == replacements;
  }

  lemma InsertAt(
    left: seq<PlannedField>, next: PlannedField, right: seq<PlannedField>, planned: seq<PlannedField>, at: nat)
    requires planned == left + right && at == |left|
    ensures planned[..at] + [next] + planned[at..] == left + [next] + right
  {
    assert planned[..at] == left && planned[at..] == right;
  }

  lemma ExtrasNothing(fields: seq<RawField>)
    ensures Extras(fields, []) == []
  {
  }

  lemma ExtrasOne(fields: seq<RawField>, last: Replacement)
    ensures Extras(fields, [last]) ==
      if last.payload.Some? && !Has(fields, last.code) then [Fresh(last.code, last.payload.value)] else []
  {
    assert [last][1..] == [];
  }

  lemma {:induction false} ExtrasSnoc(fields: seq<RawField>, left: seq<Replacement>, last: Replacement)
    ensures Extras(fields, left + [last]) == Extras(fields, left) + Extras(fields, [last])
  {
    if left == [] {
      assert left + [last] == [last];
    } else {
      assert (left + [last])[0] == left[0] && (left + [last])[1..] == left[1..] + [last];
      ExtrasSnoc(fields, left[1..], last);
    }
  }

  // ---------------------------------------------------------------- what an accepted edit guarantees

  /** The table facts editing relies on. */
  lemma EditableFacts(code: Byte)
    requires Editable(code)
    ensures code != END && code != UUID && code != CUSTOM_TEXT_FIELD && !(0x25 <= code <= 0x2F)
    ensures var spec := RecordSpec(code).value;
            && !spec.historicalTime
            && (spec.Mandatory() ==> code == TITLE || code == PASSWORD)
            && match spec.kind {
                 case TextKind => spec.fixedLength.None? && spec.alternateLength.None?
                 case BinaryKind => spec.fixedLength.None? && spec.alternateLength.None? && spec.role.Optional?
                 case OpaqueKind => false
                 case EmptyKind => false
                 case UuidKind => false
                 case _ => spec.fixedLength.Some? && spec.role.Optional?
               }
  {
  }

  /** Encoded values never fail the check they will meet at save time. */
  lemma EncodedIsClean(fields: seq<RawField>, edit: Edit, version: nat)
    requires EncodeEdit(fields, edit, version).Some? && !edit.RemoveField?
    ensures EncodeEdit(fields, edit, version).value.payload.Some?
    ensures CleanValue(edit.code, EncodeEdit(fields, edit, version).value.payload.value, version)
  {
    hide RecordSpec, HeaderSpec, Utf8.AcceptedText, CountType, FirstOf, LittleEndian, Pow256;
    EditableFacts(edit.code);
    var payload := EncodeEdit(fields, edit, version).value.payload.value;
    var spec := RecordSpec(edit.code).value;
    assert !LengthMalformed(spec, |payload|);
    assert ValueAccepted(spec, payload);
    assert DecodeField(Record, spec, edit.code, payload, |payload|) == Ok(Clean);
    var none: seq<Warning> := [];
    assert none + none == none;
  }

  predicate MandatoryCode(code: Byte) {
    code == UUID || code == TITLE || code == PASSWORD
  }

  /** What a resolved patch offers to the record it is applied to. */
  ghost predicate GoodReplacements(fields: seq<RawField>, replacements: seq<Replacement>, version: nat) {
    && (forall i, j :: 0 <= i < j < |replacements| ==> replacements[i].code != replacements[j].code)
    && forall i :: 0 <= i < |replacements| ==> GoodReplacement(fields, replacements[i], version)
  }

  ghost predicate GoodReplacement(fields: seq<RawField>, replacement: Replacement, version: nat) {
    && CountType(fields, replacement.code) <= 1
    && replacement.code != END && replacement.code != UUID && !(0x25 <= replacement.code <= 0x2F)
    && match replacement.payload {
         case None => !MandatoryCode(replacement.code)
         case Some(payload) => CleanValue(replacement.code, payload, version)
       }
  }

  lemma EncodedIsGood(fields: seq<RawField>, edit: Edit, version: nat)
    requires EncodeEdit(fields, edit, version).Some?
    ensures EncodeEdit(fields, edit, version).value.code == edit.code
    ensures GoodReplacement(fields, EncodeEdit(fields, edit, version).value, version)
  {
    hide RecordSpec, HeaderSpec, CountType, FirstOf, CleanValue, EncodeValue;
    EditableFacts(edit.code);
    MandatoryRoles();
    if !edit.RemoveField? {
      EncodedIsClean(fields, edit, version);
    }
  }

  lemma MandatoryRoles()
    ensures forall code :: MandatoryCode(code) ==> RecordSpec(code).Some? && RecordSpec(code).value.Mandatory()
  {
  }

  lemma {:induction false} EncodedEditsAreGood(
    fields: seq<RawField>, edits: seq<Edit>, done: seq<Replacement>, version: nat)
    requires GoodReplacements(fields, done, version)
    requires EncodeEdits(fields, edits, done, version).Some?
    ensures GoodReplacements(fields, EncodeEdits(fields, edits, done, version).value, version)
    decreases |edits|
  {
    hide EncodeEdit, GoodReplacement;
    if edits != [] {
      EncodedIsGood(fields, edits[0], version);
      var next := EncodeEdit(fields, edits[0], version).value;
      var extended := done + [next];
      forall i, j | 0 <= i < j < |extended|
        ensures extended[i].code != extended[j].code
      {
        assert j == |done| ==> extended[i] == done[i];
      }
      EncodedEditsAreGood(fields, edits[1..], extended, version);
    }
  }

  // ---------------------------------------------------------------- the edited sequence is a faithful plan

  lemma {:induction false} CountAtLeast(fields: seq<RawField>, i: nat)
    requires i < |fields|
    ensures CountType(fields, fields[i].typeCode) >= 1
  {
    if i > 0 {
      CountAtLeast(fields[1..], i - 1);
    }
  }

  lemma {:induction false} CountSeen(fields: seq<RawField>, i: nat)
    requires i < |fields| && Seen(fields, i)
    ensures CountType(fields, fields[i].typeCode) >= 2
    decreases |fields|
  {
    var j :| 0 <= j < i && fields[j].typeCode == fields[i].typeCode;
    if j == 0 {
      CountAtLeast(fields[1..], i - 1);
    } else {
      assert fields[1..][j - 1].typeCode == fields[1..][i - 1].typeCode;
      CountSeen(fields[1..], i - 1);
    }
  }

  /** The same sequence read front to back: what remains to be planned from the field at `i` on. */
  ghost function PlanFrom(fields: seq<RawField>, replacements: seq<Replacement>, i: nat): seq<PlannedField>
    requires i < |fields|
    decreases |fields| - i
  {
    if i == |fields| - 1 then Extras(fields, replacements) + [Retain(fields[i], i)]
    else InPlaceOne(fields, replacements, i) + PlanFrom(fields, replacements, i + 1)
  }

  lemma {:induction false} InPlaceThenPlan(fields: seq<RawField>, replacements: seq<Replacement>, i: nat)
    requires i < |fields|
    ensures InPlace(fields, replacements, i) + PlanFrom(fields, replacements, i)
         == InPlace(fields, replacements, |fields| - 1) + Extras(fields, replacements)
             + [Retain(fields[|fields| - 1], |fields| - 1)]
    decreases |fields| - i
  {
    hide InPlaceOne, Extras;
    if i < |fields| - 1 {
      InPlaceThenPlan(fields, replacements, i + 1);
    }
  }

  lemma {:induction false} NoEndInPlace(fields: seq<RawField>, replacements: seq<Replacement>, n: nat)
    requires n <= |fields|
    requires forall k :: 0 <= k < n ==> fields[k].typeCode != END
    ensures forall k :: 0 <= k < |InPlace(fields, replacements, n)| ==>
              InPlace(fields, replacements, n)[k].typeCode != END
  {
    hide FindReplacement, Seen;
    if n > 0 {
      NoEndInPlace(fields, replacements, n - 1);
    }
  }

  lemma EditedIsPlanFrom(fields: seq<RawField>, replacements: seq<Replacement>)
    requires EndsWithEnd(fields) && !InReplacements(replacements, END)
    requires forall k :: 0 <= k < |fields| - 1 ==> fields[k].typeCode != END
    ensures EditedFields(fields, replacements) == PlanFrom(fields, replacements, 0)
  {
    hide Extras, FirstEnd, FindReplacement;
    var last := |fields| - 1;
    var prefix := InPlace(fields, replacements, last);
    var planned := InPlace(fields, replacements, |fields|);
    assert planned == prefix + [Retain(fields[last], last)];
    NoEndInPlace(fields, replacements, last);
    FirstEndOf(planned, |prefix|);
    InPlaceThenPlan(fields, replacements, 0);
    assert planned[..|prefix|] == prefix && planned[|prefix|..] == [Retain(fields[last], last)];
    assert InPlace(fields, replacements, 0) + PlanFrom(fields, replacements, 0) == PlanFrom(fields, replacements, 0);
  }

  lemma FirstEndOf(planned: seq<PlannedField>, at: nat)
    requires at < |planned| && planned[at].typeCode == END
    requires forall k :: 0 <= k < at ==> planned[k].typeCode != END
    ensures FirstEnd(planned) == at
  {
    hide FirstEnd;
    var first := FirstEnd(planned);
    assert first <= at;
  }

  /** What the plan from the field at `i` on looks like, strong enough to be carried back to the first field. */
  ghost predicate TailFits(
    fields: seq<RawField>, replacements: seq<Replacement>, i: nat, after: seq<PlannedField>, version: nat)
    requires i <= |fields|
  {
    && (forall k :: 0 <= k < |after| && after[k].origin.Some? ==>
          && RetainedAt(fields, after[k]) && i <= after[k].origin.value
          && !InReplacements(replacements, after[k].typeCode))
    && (forall k, l :: 0 <= k < l < |after| && after[k].origin.Some? && after[l].origin.Some? ==>
          after[k].origin.value < after[l].origin.value)
    && (forall k :: 0 <= k < |after| && after[k].origin.None? ==>
          && FreshClean(after[k], version) && InReplacements(replacements, after[k].typeCode)
          && forall j :: 0 <= j < i ==> fields[j].typeCode != after[k].typeCode)
    && (forall k, l :: 0 <= k < |after| && 0 <= l < |after| && k != l && after[k].origin.None? ==>
          after[k].typeCode != after[l].typeCode)
    && (forall j :: i <= j < |fields| && !InReplacements(replacements, fields[j].typeCode) ==>
          exists k :: 0 <= k < |after| && after[k].origin == Some(j))
  }

  ghost predicate ExtraFits(fields: seq<RawField>, replacements: seq<Replacement>, extra: PlannedField, version: nat) {
    && extra.origin.None? && FreshClean(extra, version)
    && InReplacements(replacements, extra.typeCode) && !Has(fields, extra.typeCode)
  }

  lemma {:induction false} ExtrasFit(
    fields: seq<RawField>, replacements: seq<Replacement>, all: seq<Replacement>, version: nat)
    requires GoodReplacements(fields, replacements, version)
    requires forall replacement :: replacement in replacements ==> replacement in all
    ensures forall extra :: extra in Extras(fields, replacements) ==> ExtraFits(fields, all, extra, version)
  {
    hide CleanValue, Has, CountType;
    if replacements != [] {
      var first, rest := replacements[0], Extras(fields, replacements[1..]);
      assert GoodReplacement(fields, first, version);
      GoodRest(fields, replacements, version);
      ExtrasFit(fields, replacements[1..], all, version);
      InReplacementsMember(all, first);
    }
  }

  lemma {:induction false} ExtrasDistinct(fields: seq<RawField>, replacements: seq<Replacement>)
    requires forall i, j :: 0 <= i < j < |replacements| ==> replacements[i].code != replacements[j].code
    ensures forall k :: 0 <= k < |Extras(fields, replacements)| ==>
              InReplacements(replacements, Extras(fields, replacements)[k].typeCode)
    ensures forall k, l :: 0 <= k < l < |Extras(fields, replacements)| ==>
              Extras(fields, replacements)[k].typeCode != Extras(fields, replacements)[l].typeCode
  {
    hide InReplacements, Has;
    if replacements != [] {
      var first, rest := replacements[0], Extras(fields, replacements[1..]);
      ExtrasDistinct(fields, replacements[1..]);
      InReplacementsMember(replacements, first);
      InReplacementsTail(replacements);
      var extras := Extras(fields, replacements);
      if first.payload.Some? && !Has(fields, first.code) {
        assert extras == [Fresh(first.code, first.payload.value)] + rest;
        assert forall k :: 0 < k < |extras| ==> extras[k] == rest[k - 1];
      } else {
        assert extras == rest;
      }
    }
  }

  lemma InReplacementsMember(replacements: seq<Replacement>, replacement: Replacement)
    requires replacement in replacements
    ensures InReplacements(replacements, replacement.code)
  {
  }

  lemma InReplacementsTail(replacements: seq<Replacement>)
    requires replacements != []
    requires forall i, j :: 0 <= i < j < |replacements| ==> replacements[i].code != replacements[j].code
    ensures forall code :: InReplacements(replacements[1..], code) ==>
              InReplacements(replacements, code) && code != replacements[0].code
  {
    forall code | InReplacements(replacements[1..], code)
      ensures InReplacements(replacements, code) && code != replacements[0].code
    {
      var k :| 0 <= k < |replacements[1..]| && replacements[1..][k].code == code;
      assert replacements[k + 1].code == code;
    }
  }

  lemma GoodRest(fields: seq<RawField>, replacements: seq<Replacement>, version: nat)
    requires replacements != [] && GoodReplacements(fields, replacements, version)
    ensures GoodReplacements(fields, replacements[1..], version)
  {
    hide GoodReplacement;
    forall i | 0 <= i < |replacements[1..]|
      ensures GoodReplacement(fields, replacements[1..][i], version)
    {
      assert replacements[1..][i] == replacements[i + 1];
    }
  }

  lemma TailFitsEnd(fields: seq<RawField>, replacements: seq<Replacement>, version: nat)
    requires EndsWithEnd(fields) && GoodReplacements(fields, replacements, version)
    ensures TailFits(fields, replacements, |fields| - 1, PlanFrom(fields, replacements, |fields| - 1), version)
  {
    hide CleanValue, CountType, Extras, GoodReplacement, InReplacements;
    var last := |fields| - 1;
    var extras := Extras(fields, replacements);
    ExtrasFit(fields, replacements, replacements, version);
    ExtrasDistinct(fields, replacements);
    NotEnd(fields, replacements, version);
    var after := extras + [Retain(fields[last], last)];
    assert after == PlanFrom(fields, replacements, last);
    assert after[|extras|].origin == Some(last);
    forall k | 0 <= k < |extras|
      ensures after[k] == extras[k] && ExtraFits(fields, replacements, after[k], version)
    {
      assert extras[k] in extras;
    }
  }

  lemma NotEnd(fields: seq<RawField>, replacements: seq<Replacement>, version: nat)
    requires GoodReplacements(fields, replacements, version)
    ensures !InReplacements(replacements, END) && !InReplacements(replacements, UUID)
    ensures forall code: Byte :: 0x25 <= code <= 0x2F ==> !InReplacements(replacements, code)
  {
    hide CleanValue, CountType;
    assert forall i :: 0 <= i < |replacements| ==> GoodReplacement(fields, replacements[i], version);
  }

  lemma TailFitsStep(
    fields: seq<RawField>, replacements: seq<Replacement>, i: nat, rest: seq<PlannedField>, version: nat)
    requires i < |fields| && GoodReplacements(fields, replacements, version)
    requires TailFits(fields, replacements, i + 1, rest, version)
    ensures TailFits(fields, replacements, i, InPlaceOne(fields, replacements, i) + rest, version)
  {
    hide CleanValue, CountType, GoodReplacements, TailFits, Seen;
    var one := InPlaceOne(fields, replacements, i);
    match FindReplacement(replacements, fields[i].typeCode)
    case None =>
      TailFitsCons(fields, replacements, i, Retain(fields[i], i), rest, version);
    case Some(replacement) =>
      UsedOnce(fields, replacements, i, replacement, version);
      if replacement.payload.Some? {
        TailFitsCons(fields, replacements, i, one[0], rest, version);
      } else {
        assert one + rest == rest;
        TailFitsSkip(fields, replacements, i, rest, version);
      }
  }

  lemma TailFitsSkip(
    fields: seq<RawField>, replacements: seq<Replacement>, i: nat, rest: seq<PlannedField>, version: nat)
    requires i < |fields| && InReplacements(replacements, fields[i].typeCode)
    requires TailFits(fields, replacements, i + 1, rest, version)
    ensures TailFits(fields, replacements, i, rest, version)
  {
    hide CleanValue, InReplacements;
  }

  lemma UsedOnce(fields: seq<RawField>, replacements: seq<Replacement>, i: nat, replacement: Replacement, version: nat)
    requires i < |fields| && GoodReplacements(fields, replacements, version)
    requires replacement in replacements && replacement.code == fields[i].typeCode
    ensures !Seen(fields, i)
    ensures replacement.payload.Some? ==> FreshClean(Fresh(replacement.code, replacement.payload.value), version)
    ensures replacement.payload.None? ==> !MandatoryCode(replacement.code)
  {
    hide CleanValue, CountType, Seen;
    assert GoodReplacement(fields, replacement, version);
    if Seen(fields, i) {
      CountSeen(fields, i);
    }
  }

  lemma TailFitsCons(
    fields: seq<RawField>, replacements: seq<Replacement>, i: nat, one: PlannedField, rest: seq<PlannedField>,
    version: nat)
    requires i < |fields| && TailFits(fields, replacements, i + 1, rest, version)
    requires one.typeCode == fields[i].typeCode
    requires (one == Retain(fields[i], i) && !InReplacements(replacements, one.typeCode))
             || (&& one.origin.None? && FreshClean(one, version)
                 && InReplacements(replacements, one.typeCode) && !Seen(fields, i))
    ensures TailFits(fields, replacements, i, [one] + rest, version)
  {
    hide FreshClean, InReplacements;
    var after := [one] + rest;
    assert forall k :: 0 < k < |after| ==> after[k] == rest[k - 1];
    assert forall j :: i <= j < |fields| && !InReplacements(replacements, fields[j].typeCode) ==>
        exists k :: 0 <= k < |after| && after[k].origin == Some(j) by {
      OriginsCons(fields, replacements, i, one, rest);
    }
  }

  lemma OriginsCons(
    fields: seq<RawField>, replacements: seq<Replacement>, i: nat, one: PlannedField, rest: seq<PlannedField>)
    requires i < |fields|
    requires one == Retain(fields[i], i) || InReplacements(replacements, fields[i].typeCode)
    requires forall j :: i + 1 <= j < |fields| && !InReplacements(replacements, fields[j].typeCode) ==>
               exists k :: 0 <= k < |rest| && rest[k].origin == Some(j)
    ensures forall j :: i <= j < |fields| && !InReplacements(replacements, fields[j].typeCode) ==>
              exists k :: 0 <= k < |[one] + rest| && ([one] + rest)[k].origin == Some(j)
  {
    hide InReplacements;
    var after := [one] + rest;
    forall j | i <= j < |fields| && !InReplacements(replacements, fields[j].typeCode)
      ensures exists k :: 0 <= k < |after| && after[k].origin == Some(j)
    {
      if j == i {
        assert after[0].origin == Some(i);
      } else {
        var k :| 0 <= k < |rest| && rest[k].origin == Some(j);
        assert after[k + 1].origin == Some(j);
      }
    }
  }

  lemma {:induction false} PlanFromFits(fields: seq<RawField>, replacements: seq<Replacement>, i: nat, version: nat)
    requires EndsWithEnd(fields) && GoodReplacements(fields, replacements, version)
    requires i < |fields|
    ensures TailFits(fields, replacements, i, PlanFrom(fields, replacements, i), version)
    decreases |fields| - i
  {
    hide TailFits, GoodReplacements, InPlaceOne;
    if i == |fields| - 1 {
      TailFitsEnd(fields, replacements, version);
    } else {
      PlanFromFits(fields, replacements, i + 1, version);
      TailFitsStep(fields, replacements, i, PlanFrom(fields, replacements, i + 1), version);
    }
  }

  lemma EditedFieldsFaithful(fields: seq<RawField>, replacements: seq<Replacement>, ordinal: nat, version: nat)
    requires EndsWithEnd(fields) && ExaminedFrom(Record, Some(ordinal), fields, 0, version)
    requires GoodReplacements(fields, replacements, version)
    ensures EditedFields(fields, replacements) == PlanFrom(fields, replacements, 0)
    ensures FaithfulPlan(fields, EditedFields(fields, replacements), version)
  {
    hide CleanValue, ExaminedFrom, GoodReplacements, PlanFrom, EditedFields, FreshClean;
    var after := EditedFields(fields, replacements);
    EndIsLastOnly(Record, Some(ordinal), fields, version);
    NotEnd(fields, replacements, version);
    EditedIsPlanFrom(fields, replacements);
    PlanFromFits(fields, replacements, 0, version);
    forall i, k | 0 <= i < |fields| && 0 <= k < |after| && after[k].origin.Some?
        && fields[i].typeCode == after[k].typeCode
      ensures OriginIndex(after, i, 0).Some?
    {
      assert !InReplacements(replacements, fields[i].typeCode);
      var at :| 0 <= at < |after| && after[at].origin == Some(i);
    }
  }
}
