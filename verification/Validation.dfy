/**
 The schema pass shared by the reader and the writer. The loops over a document are proved equal
 to recursive definitions, and those are proved to split into a part about structure, which no
 budget can change, and a refusal that only a budget can cause.
 */
module Validation {
  import opened Basics
  import opened Schema
  import opened Documents

  const MINIMUM_VERSION: nat := 0x0300
  const MAXIMUM_VERSION: nat := 0x0311

  /** Whether an earlier field of the sequence has the same type. */
  predicate Seen(fields: seq<RawField>, i: nat)
    requires i < |fields|
  {
    exists j :: 0 <= j < i && fields[j].typeCode == fields[i].typeCode
  }

  /** The outcome of one accepted field. */
  datatype Checked = Checked(classification: Classification, warnings: seq<Warning>, total: nat)

  function WarningAt(code: WarningCode, recordOrdinal: Option<nat>, f: RawField): Warning {
    Warning(code, recordOrdinal, f.ordinal, f.typeCode)
  }

  function CheckField(
    section: Section, recordOrdinal: Option<nat>, f: RawField, seen: bool, version: nat, maxText: nat,
    total: nat): Result<Checked>
  {
    match SpecOf(section, f.typeCode)
    case None => Ok(Checked(Unknown, [WarningAt(UnknownField, recordOrdinal, f)], total))
    case Some(spec) =>
      if spec.since > version then Err(UnsupportedContent)
      else if seen && !spec.multiple && spec.Mandatory() then Err(InvalidField)
      else if spec.kind.TextKind? && |f.payload| > maxText - total then Err(MaxDecodedText)
      else
        var verdict :- DecodeField(section, spec, f.typeCode, f.payload, maxText);
        var duplicate := if seen && !spec.multiple then [WarningAt(DuplicateOptionalField, recordOrdinal, f)] else [];
        var malformed := if verdict.Malformed? then [WarningAt(MalformedOptionalField, recordOrdinal, f)] else [];
        Ok(Checked(
          if verdict.Malformed? then MalformedContent else Understood,
          duplicate + malformed,
          if spec.kind.TextKind? then total + |f.payload| else total))
  }

  datatype Sequence = Sequence(classes: seq<Classification>, warnings: seq<Warning>, total: nat)

  function CheckFrom(
    section: Section, recordOrdinal: Option<nat>, fields: seq<RawField>, i: nat, version: nat, maxText: nat, total: nat)
    : (r: Result<Sequence>)
    requires i <= |fields|
    ensures r.Ok? ==> |r.value.classes| == |fields| - i
    decreases |fields| - i
  {
    if i == |fields| then Ok(Sequence([], [], total))
    else
      var head :- CheckField(section, recordOrdinal, fields[i], Seen(fields, i), version, maxText, total);
      var rest :- CheckFrom(section, recordOrdinal, fields, i + 1, version, maxText, head.total);
      Ok(Sequence([head.classification] + rest.classes, head.warnings + rest.warnings, rest.total))
  }

  function CountType(fields: seq<RawField>, code: Byte): nat {
    if fields == [] then 0
    else (if fields[0].typeCode == code then 1 else 0) + CountType(fields[1..], code)
  }

  predicate Has(fields: seq<RawField>, code: Byte) {
    exists i :: 0 <= i < |fields| && fields[i].typeCode == code
  }

  predicate EndsWithEnd(fields: seq<RawField>) {
    fields != [] && fields[|fields| - 1].typeCode == END
  }

  predicate MandatoryPresent(fields: seq<RawField>) {
    CountType(fields, UUID) == 1 && CountType(fields, TITLE) == 1 && CountType(fields, PASSWORD) == 1
  }

  /** An attachment needs its media type; a passkey needs all six of its fields. */
  predicate GroupsComplete(fields: seq<RawField>) {
    && ((exists c: Byte :: 0x25 <= c <= 0x29 && Has(fields, c)) ==> Has(fields, 0x26))
    && ((exists c: Byte :: 0x2A <= c <= 0x2F && Has(fields, c)) ==> forall c: Byte :: 0x2A <= c <= 0x2F ==>
         Has(fields, c))
  }

  function CheckRecord(
    fields: seq<RawField>, ordinal: nat, version: nat, maxText: nat, total: nat): (r: Result<Sequence>)
    ensures r.Ok? ==> |r.value.classes| == |fields|
  {
    if !EndsWithEnd(fields) then Err(MissingMandatoryField)
    else
      var checked :- CheckFrom(Record, Some(ordinal), fields, 0, version, maxText, total);
      if !MandatoryPresent(fields) || !GroupsComplete(fields) then Err(MissingMandatoryField) else Ok(checked)
  }

  datatype RecordSequence = RecordSequence(classes: seq<seq<Classification>>, warnings: seq<Warning>)

  function CheckRecordsFrom(
    records: seq<seq<RawField>>, r: nat, version: nat, maxText: nat, total: nat): (out: Result<RecordSequence>)
    requires r <= |records|
    ensures out.Ok? ==> |out.value.classes| == |records| - r
    decreases |records| - r
  {
    if r == |records| then Ok(RecordSequence([], []))
    else
      var head :- CheckRecord(records[r], r, version, maxText, total);
      var rest :- CheckRecordsFrom(records, r + 1, version, maxText, head.total);
      Ok(RecordSequence([head.classes] + rest.classes, head.warnings + rest.warnings))
  }

  datatype Accepted = Accepted(header: seq<Classification>, records: seq<seq<Classification>>, warnings: seq<Warning>)

  /** The complete schema pass: classifications and the ordered warning list, or the refusal. */
  function CheckSchema(
    header: seq<RawField>, records: seq<seq<RawField>>, version: nat, maxText: nat): Result<Accepted> {
    if !EndsWithEnd(header) then Err(MissingMandatoryField)
    else
      var head :- CheckFrom(Header, None, header, 0, version, maxText, 0);
      var rest :- CheckRecordsFrom(records, 0, version, maxText, head.total);
      Ok(Accepted(head.classes, rest.classes, head.warnings + rest.warnings))
  }

  /** Version is first, unique, two bytes wide and within the supported range. */
  function CheckVersion(header: seq<RawField>): Result<nat> {
    if header == [] || header[0].typeCode != VERSION then Err(MissingMandatoryField)
    else if CountType(header, VERSION) != 1 || |header[0].payload| != 2 then Err(InvalidField)
    else
      var version := FromLittleEndian(header[0].payload);
      if MINIMUM_VERSION <= version <= MAXIMUM_VERSION then Ok(version) else Err(UnsupportedVersion)
  }

  // ---------------------------------------------------------------- the loops

  method ValidateFieldSequence(
    section: Section, recordOrdinal: Option<nat>, fields: seq<RawField>, version: nat, maxText: nat, decodedTotal: nat)
    returns (result: Result<Sequence>)
    ensures result == CheckFrom(section, recordOrdinal, fields, 0, version, maxText, decodedTotal)
  {
    hide CheckField;
    var occurrences: set<Byte> := {};
    var classes: seq<Classification> := [];
    var warnings: seq<Warning> := [];
    var total := decodedTotal;
    var i := 0;
    ghost var whole := CheckFrom(section, recordOrdinal, fields, 0, version, maxText, decodedTotal);
    SequencePrependNothing(whole);
    while i < |fields|
      invariant 0 <= i <= |fields|
      invariant forall code :: code in occurrences <==> exists j :: 0 <= j < i && fields[j].typeCode == code
      invariant whole
                  == SequencePrepend(
                        classes, warnings, CheckFrom(section, recordOrdinal, fields, i, version, maxText, total))
    {
      var item := fields[i];
      var seen := item.typeCode in occurrences;
      assert seen == Seen(fields, i);
      var checked := CheckField(section, recordOrdinal, item, seen, version, maxText, total);
      if checked.Err? {
        return Err(checked.error);
      }
      SequencePrependSnoc(classes, warnings, checked.value,
                          CheckFrom(section, recordOrdinal, fields, i + 1, version, maxText, checked.value.total));
      occurrences := occurrences + {item.typeCode};
      classes := classes + [checked.value.classification];
      warnings := warnings + checked.value.warnings;
      total := checked.value.total;
      i := i + 1;
    }
    assert classes + [] == classes && warnings + [] == warnings;
    return Ok(Sequence(classes, warnings, total));
  }

  ghost function SequencePrepend(
    classes: seq<Classification>, warnings: seq<Warning>, rest: Result<Sequence>): Result<Sequence> {
    match rest
    case Err(e) => Err(e)
    case Ok(s) => Ok(Sequence(classes + s.classes, warnings + s.warnings, s.total))
  }

  lemma SequencePrependNothing(rest: Result<Sequence>)
    ensures SequencePrepend([], [], rest) == rest
  {
    if rest.Ok? {
      assert [] + rest.value.classes == rest.value.classes && [] + rest.value.warnings == rest.value.warnings;
    }
  }

  lemma SequencePrependSnoc(classes: seq<Classification>, warnings: seq<Warning>, head: Checked, rest: Result<Sequence>)
    ensures SequencePrepend(classes + [head.classification], warnings + head.warnings, rest)
         == SequencePrepend(classes, warnings, SequencePrepend([head.classification], head.warnings, rest))
  {
    if rest.Ok? {
      assert classes + [head.classification] + rest.value.classes
               == classes + ([head.classification] + rest.value.classes);
      assert warnings + head.warnings + rest.value.warnings == warnings + (head.warnings + rest.value.warnings);
    }
  }

  /** Count occurrences by scanning, as the mandatory checks do. */
  method CountOccurrences(fields: seq<RawField>, code: Byte) returns (count: nat)
    ensures count == CountType(fields, code)
  {
    count := 0;
    var i := |fields|;
    while i > 0
      invariant 0 <= i <= |fields|
      invariant count == CountType(fields[i..], code)
    {
      i := i - 1;
      assert fields[i..][1..] == fields[i + 1..];
      if fields[i].typeCode == code {
        count := count + 1;
      }
    }
    assert fields[0..] == fields;
  }

  method ValidateSchemaFields(header: seq<RawField>, records: seq<seq<RawField>>, version: nat, maxText: nat)
    returns (result: Result<Accepted>)
    ensures result == CheckSchema(header, records, version, maxText)
  {
    if !EndsWithEnd(header) {
      return Err(MissingMandatoryField);
    }
    var head := ValidateFieldSequence(Header, None, header, version, maxText, 0);
    if head.Err? {
      return Err(head.error);
    }
    var rest := ValidateRecords(records, version, maxText, head.value.total);
    if rest.Err? {
      return Err(rest.error);
    }
    return Ok(Accepted(head.value.classes, rest.value.classes, head.value.warnings + rest.value.warnings));
  }

  method ValidateRecord(fields: seq<RawField>, ordinal: nat, version: nat, maxText: nat, total: nat)
    returns (result: Result<Sequence>)
    ensures result == CheckRecord(fields, ordinal, version, maxText, total)
  {
    hide CheckFrom, CountType, GroupsComplete;
    if !EndsWithEnd(fields) {
      return Err(MissingMandatoryField);
    }
    var checked := ValidateFieldSequence(Record, Some(ordinal), fields, version, maxText, total);
    if checked.Err? {
      return checked;
    }
    var uuids := CountOccurrences(fields, UUID);
    var titles := CountOccurrences(fields, TITLE);
    var passwords := CountOccurrences(fields, PASSWORD);
    if uuids != 1 || titles != 1 || passwords != 1 || !GroupsComplete(fields) {
      return Err(MissingMandatoryField);
    }
    return checked;
  }

  method ValidateRecords(records: seq<seq<RawField>>, version: nat, maxText: nat, decodedTotal: nat)
    returns (result: Result<RecordSequence>)
    ensures result == CheckRecordsFrom(records, 0, version, maxText, decodedTotal)
  {
    hide CheckRecord;
    var classes: seq<seq<Classification>> := [];
    var warnings: seq<Warning> := [];
    var total := decodedTotal;
    var r := 0;
    ghost var whole := CheckRecordsFrom(records, 0, version, maxText, decodedTotal);
    RecordsPrependNothing(whole);
    while r < |records|
      invariant 0 <= r <= |records|
      invariant whole == RecordsPrepend(classes, warnings, CheckRecordsFrom(records, r, version, maxText, total))
    {
      var checked := ValidateRecord(records[r], r, version, maxText, total);
      if checked.Err? {
        return Err(checked.error);
      }
      RecordsPrependSnoc(classes, warnings, checked.value,
                         CheckRecordsFrom(records, r + 1, version, maxText, checked.value.total));
      classes := classes + [checked.value.classes];
      warnings := warnings + checked.value.warnings;
      total := checked.value.total;
      r := r + 1;
    }
    assert classes + [] == classes && warnings + [] == warnings;
    return Ok(RecordSequence(classes, warnings));
  }

  ghost function RecordsPrepend(
    classes: seq<seq<Classification>>, warnings: seq<Warning>, rest: Result<RecordSequence>): Result<RecordSequence> {
    match rest
    case Err(e) => Err(e)
    case Ok(s) => Ok(RecordSequence(classes + s.classes, warnings + s.warnings))
  }

  lemma RecordsPrependNothing(rest: Result<RecordSequence>)
    ensures RecordsPrepend([], [], rest) == rest
  {
    if rest.Ok? {
      assert [] + rest.value.classes == rest.value.classes && [] + rest.value.warnings == rest.value.warnings;
    }
  }

  lemma RecordsPrependSnoc(
    classes: seq<seq<Classification>>, warnings: seq<Warning>, head: Sequence, rest: Result<RecordSequence>)
    ensures RecordsPrepend(classes + [head.classes], warnings + head.warnings, rest)
         == RecordsPrepend(classes, warnings, RecordsPrepend([head.classes], head.warnings, rest))
  {
    if rest.Ok? {
      assert classes + [head.classes] + rest.value.classes == classes + ([head.classes] + rest.value.classes);
      assert warnings + head.warnings + rest.value.warnings == warnings + (head.warnings + rest.value.warnings);
    }
  }

  // ---------------------------------------------------------------- structure without budgets

  /** One field judged with a budget that exactly fits it: everything but the resource rules. */
  function Examine(
    section: Section, recordOrdinal: Option<nat>, f: RawField, seen: bool, version: nat): Result<Checked> {
    CheckField(section, recordOrdinal, f, seen, version, |f.payload|, 0)
  }

  /** A budget either leaves the judgement of a field alone or refuses the document; it never changes a verdict. */
  lemma BudgetOnlyRefuses(
    section: Section, recordOrdinal: Option<nat>, f: RawField, seen: bool, version: nat, maxText: nat, total: nat)
    ensures var full := CheckField(section, recordOrdinal, f, seen, version, maxText, total);
            var bare := Examine(section, recordOrdinal, f, seen, version);
            && (full.Ok? ==> bare.Ok? && full.value.classification == bare.value.classification
                             && full.value.warnings == bare.value.warnings)
            && (bare.Ok? ==> full.Ok? || full == Err(MaxDecodedText))
  {
    hide HeaderSpec, RecordSpec, ValueAccepted, LengthMalformed;
  }

  predicate ExaminedFrom(section: Section, recordOrdinal: Option<nat>, fields: seq<RawField>, i: nat, version: nat)
    requires i <= |fields|
  {
    forall k :: i <= k < |fields| ==> Examine(section, recordOrdinal, fields[k], Seen(fields, k), version).Ok?
  }

  function ClassesFrom(
    section: Section, recordOrdinal: Option<nat>, fields: seq<RawField>, i: nat, version: nat): seq<Classification>
    requires i <= |fields| && ExaminedFrom(section, recordOrdinal, fields, i, version)
  {
    seq(|fields| - i, k requires 0 <= k < |fields| - i =>
      Examine(section, recordOrdinal, fields[i + k], Seen(fields, i + k), version).value.classification)
  }

  /** The warnings of one field; a refused field contributes none. */
  function FieldWarnings(
    section: Section, recordOrdinal: Option<nat>, f: RawField, seen: bool, version: nat): seq<Warning> {
    match Examine(section, recordOrdinal, f, seen, version)
    case Err(_) => []
    case Ok(checked) => checked.warnings
  }

  function WarningsFrom(
    section: Section, recordOrdinal: Option<nat>, fields: seq<RawField>, i: nat, version: nat): seq<Warning>
    requires i <= |fields|
    decreases |fields| - i
  {
    if i == |fields| then []
    else
      FieldWarnings(section, recordOrdinal, fields[i], Seen(fields, i), version)
      + WarningsFrom(section, recordOrdinal, fields, i + 1, version)
  }

  lemma {:induction false} SequenceStructure(
    section: Section, recordOrdinal: Option<nat>, fields: seq<RawField>, i: nat, version: nat, maxText: nat, total: nat)
    requires i <= |fields|
    ensures var full := CheckFrom(section, recordOrdinal, fields, i, version, maxText, total);
            && (full.Ok? ==>
                  ExaminedFrom(section, recordOrdinal, fields, i, version)
                  && full.value.classes == ClassesFrom(section, recordOrdinal, fields, i, version)
                  && full.value.warnings == WarningsFrom(section, recordOrdinal, fields, i, version))
            && (ExaminedFrom(section, recordOrdinal, fields, i, version) ==> full.Ok? || full == Err(MaxDecodedText))
    decreases |fields| - i
  {
    hide CheckField, Examine;
    if i < |fields| {
      BudgetOnlyRefuses(section, recordOrdinal, fields[i], Seen(fields, i), version, maxText, total);
      var head := CheckField(section, recordOrdinal, fields[i], Seen(fields, i), version, maxText, total);
      if head.Ok? {
        SequenceStructure(section, recordOrdinal, fields, i + 1, version, maxText, head.value.total);
        var rest := CheckFrom(section, recordOrdinal, fields, i + 1, version, maxText, head.value.total);
        if rest.Ok? {
          assert [head.value.classification] + rest.value.classes
                   == ClassesFrom(section, recordOrdinal, fields, i, version);
        }
      }
    }
  }

  // ---------------------------------------------------------------- whole documents

  predicate RecordStructure(fields: seq<RawField>, ordinal: nat, version: nat) {
    && EndsWithEnd(fields)
    && ExaminedFrom(Record, Some(ordinal), fields, 0, version)
    && MandatoryPresent(fields)
    && GroupsComplete(fields)
  }

  predicate HeaderStructure(fields: seq<RawField>, version: nat) {
    && EndsWithEnd(fields)
    && ExaminedFrom(Header, None, fields, 0, version)
  }

  function RecordWarnings(records: seq<seq<RawField>>, r: nat, version: nat): seq<Warning>
    requires r < |records|
  {
    WarningsFrom(Record, Some(r), records[r], 0, version)
  }

  function RecordWarningsFrom(records: seq<seq<RawField>>, r: nat, version: nat): seq<Warning>
    requires r <= |records|
    decreases |records| - r
  {
    if r == |records| then [] else RecordWarnings(records, r, version) + RecordWarningsFrom(records, r + 1, version)
  }

  lemma RecordStructureChecks(fields: seq<RawField>, ordinal: nat, version: nat, maxText: nat, total: nat)
    ensures var full := CheckRecord(fields, ordinal, version, maxText, total);
            && (full.Ok? ==>
                  RecordStructure(fields, ordinal, version)
                  && full.value.classes == ClassesFrom(Record, Some(ordinal), fields, 0, version)
                  && full.value.warnings == WarningsFrom(Record, Some(ordinal), fields, 0, version))
            && (RecordStructure(fields, ordinal, version) ==> full.Ok? || full == Err(MaxDecodedText))
  {
    hide CheckFrom, CountType, GroupsComplete, WarningsFrom;
    SequenceStructure(Record, Some(ordinal), fields, 0, version, maxText, total);
  }

  /** In a section the schema accepts, the terminator is last, empty, and nowhere else. */
  lemma EndIsLastOnly(section: Section, recordOrdinal: Option<nat>, fields: seq<RawField>, version: nat)
    requires EndsWithEnd(fields) && ExaminedFrom(section, recordOrdinal, fields, 0, version)
    ensures forall k :: 0 <= k < |fields| - 1 ==> fields[k].typeCode != END
    ensures fields[|fields| - 1].payload == []
  {
    hide ValueAccepted;
    var last := |fields| - 1;
    assert Examine(section, recordOrdinal, fields[last], Seen(fields, last), version).Ok?;
    assert SpecOf(section, END).Some? && SpecOf(section, END).value.Mandatory() && !SpecOf(section, END).value.multiple;
    assert !Seen(fields, last);
  }

  predicate RecordsStructure(records: seq<seq<RawField>>, r: nat, version: nat)
    requires r <= |records|
  {
    forall k :: r <= k < |records| ==> RecordStructure(records[k], k, version)
  }

  lemma {:induction false} RecordsStructureChecks(
    records: seq<seq<RawField>>, r: nat, version: nat, maxText: nat, total: nat)
    requires r <= |records|
    ensures var full := CheckRecordsFrom(records, r, version, maxText, total);
            && (full.Ok? ==>
                  RecordsStructure(records, r, version)
                  && (forall k :: 0 <= k < |full.value.classes| ==>
                        full.value.classes[k] == ClassesFrom(Record, Some(r + k), records[r + k], 0, version))
                  && full.value.warnings == RecordWarningsFrom(records, r, version))
            && (RecordsStructure(records, r, version) ==> full.Ok? || full == Err(MaxDecodedText))
    decreases |records| - r
  {
    hide CheckRecord, WarningsFrom, ClassesFrom, RecordStructure;
    if r < |records| {
      RecordStructureChecks(records[r], r, version, maxText, total);
      var head := CheckRecord(records[r], r, version, maxText, total);
      if head.Ok? {
        RecordsStructureChecks(records, r + 1, version, maxText, head.value.total);
      }
    }
  }

  /** The hard-wired groups are exactly the fields whose table role asks for them. */
  lemma GroupRoles(code: Byte)
    ensures RecordSpec(code).Some? && RecordSpec(code).value.role.AttachmentRequired? <==> code == 0x26
    ensures RecordSpec(code).Some? && RecordSpec(code).value.role.PasskeyRequired? <==> 0x2A <= code <= 0x2F
  {
  }

  predicate OrdinalsMatch(fields: seq<RawField>) {
    forall i :: 0 <= i < |fields| ==> fields[i].ordinal == i
  }

  /** Record positions, field positions and the running field budget. */
  function CheckShapeFrom(records: seq<RawRecord>, r: nat, maxFields: nat, count: nat): Result<nat>
    requires r <= |records|
    decreases |records| - r
  {
    if r == |records| then Ok(count)
    else if records[r].ordinal != r || !OrdinalsMatch(records[r].fields) then Err(InvalidField)
    else if |records[r].fields| > maxFields - count then Err(MaxFields)
    else CheckShapeFrom(records, r + 1, maxFields, count + |records[r].fields|)
  }

  function ClassesOf(fields: seq<RawField>): (classes: seq<Classification>)
    ensures |classes| == |fields|
  {
    seq(|fields|, i requires 0 <= i < |fields| => fields[i].classification)
  }

  predicate StoredMatches(document: VaultDocument, accepted: Accepted) {
    && accepted.header == ClassesOf(document.header)
    && |accepted.records| == |document.records|
    && (forall r :: 0 <= r < |document.records| ==> accepted.records[r] == ClassesOf(document.records[r].fields))
    && accepted.warnings == document.warnings
  }

  /** The check before every save: recompute everything from scratch and demand equality with what is stored. */
  function CheckDocument(document: VaultDocument, limits: ResourceLimits): Result<()> {
    if |document.records| > limits.maxRecords then Err(MaxRecords)
    else if |document.header| > limits.maxFields then Err(MaxFields)
    else if !OrdinalsMatch(document.header) then Err(InvalidField)
    else
      var _ :- CheckShapeFrom(document.records, 0, limits.maxFields, |document.header|);
      var version :- CheckVersion(document.header);
      if version != document.version then Err(InvalidField)
      else
        var accepted :- CheckSchema(document.header, FieldLists(document.records), version, limits.maxDecodedText);
        if StoredMatches(document, accepted) then Ok(()) else Err(InvalidField)
  }

  method ValidateDocumentForSerialization(document: VaultDocument, limits: ResourceLimits) returns (result: Result<()>)
    ensures result == CheckDocument(document, limits)
  {
    hide CheckSchema, CheckVersion, OrdinalsMatch, StoredMatches;
    if |document.records| > limits.maxRecords {
      return Err(MaxRecords);
    }
    var fieldCount: nat := |document.header|;
    if fieldCount > limits.maxFields {
      return Err(MaxFields);
    }
    if !OrdinalsMatch(document.header) {
      return Err(InvalidField);
    }
    var r := 0;
    ghost var whole := CheckShapeFrom(document.records, 0, limits.maxFields, fieldCount);
    while r < |document.records|
      invariant 0 <= r <= |document.records|
      invariant whole == CheckShapeFrom(document.records, r, limits.maxFields, fieldCount)
    {
      var record := document.records[r];
      if record.ordinal != r || !OrdinalsMatch(record.fields) {
        return Err(InvalidField);
      }
      if |record.fields| > limits.maxFields - fieldCount {
        return Err(MaxFields);
      }
      fieldCount := fieldCount + |record.fields|;
      r := r + 1;
    }
    var version := CheckVersion(document.header);
    if version.Err? {
      return Err(version.error);
    }
    if version.value != document.version {
      return Err(InvalidField);
    }
    var accepted := ValidateSchemaFields(document.header, FieldLists(document.records), version.value,
                                         limits.maxDecodedText);
    if accepted.Err? {
      return Err(accepted.error);
    }
    if !StoredMatches(document, accepted.value) {
      return Err(InvalidField);
    }
    return Ok(());
  }

  /** Everything `CheckDocument` asks apart from budgets and the stored warning list. */
  predicate Structured(document: VaultDocument) {
    && OrdinalsMatch(document.header)
    && CheckVersion(document.header) == Ok(document.version)
    && HeaderStructure(document.header, document.version)
    && ClassesOf(document.header) == ClassesFrom(Header, None, document.header, 0, document.version)
    && forall r :: 0 <= r < |document.records| ==> RecordStructured(document.records[r], r, document.version)
  }

  predicate RecordStructured(record: RawRecord, r: nat, version: nat) {
    && record.ordinal == r
    && OrdinalsMatch(record.fields)
    && RecordStructure(record.fields, r, version)
    && ClassesOf(record.fields) == ClassesFrom(Record, Some(r), record.fields, 0, version)
  }

  /** The warning list a from-scratch pass over the document produces. */
  function Recomputed(document: VaultDocument): seq<Warning> {
    WarningsFrom(Header, None, document.header, 0, document.version)
    + RecordWarningsFrom(FieldLists(document.records), 0, document.version)
  }

  /** A document a save accepts, resource budgets aside. */
  predicate Consistent(document: VaultDocument) {
    Structured(document) && document.warnings == Recomputed(document)
  }

  lemma {:induction false} ShapeChecks(document: VaultDocument, r: nat, maxFields: nat, count: nat)
    requires r <= |document.records|
    ensures var shape := CheckShapeFrom(document.records, r, maxFields, count);
            && (shape.Ok? ==> forall k :: r <= k < |document.records| ==>
                  document.records[k].ordinal == k && OrdinalsMatch(document.records[k].fields))
            && ((forall k :: r <= k < |document.records| ==>
                  document.records[k].ordinal == k && OrdinalsMatch(document.records[k].fields))
                ==> shape.Ok? || shape == Err(MaxFields))
    decreases |document.records| - r
  {
    hide OrdinalsMatch;
    if r < |document.records| {
      if |document.records[r].fields| <= maxFields - count {
        ShapeChecks(document, r + 1, maxFields, count + |document.records[r].fields|);
      }
    }
  }

  lemma SchemaChecks(header: seq<RawField>, records: seq<seq<RawField>>, version: nat, maxText: nat)
    ensures var full := CheckSchema(header, records, version, maxText);
            && (full.Ok? ==>
                  && HeaderStructure(header, version) && RecordsStructure(records, 0, version)
                  && full.value.header == ClassesFrom(Header, None, header, 0, version)
                  && |full.value.records| == |records|
                  && (forall k :: 0 <= k < |records| ==>
                        full.value.records[k] == ClassesFrom(Record, Some(k), records[k], 0, version))
                  && full.value.warnings
                        == WarningsFrom(Header, None, header, 0, version) + RecordWarningsFrom(records, 0, version))
            && (HeaderStructure(header, version) && RecordsStructure(records, 0, version) ==>
                 full.Ok? || full == Err(MaxDecodedText))
  {
    hide CheckFrom, CheckRecordsFrom, WarningsFrom, RecordWarningsFrom, ClassesFrom, EndsWithEnd, ExaminedFrom,
         RecordsStructure;
    SequenceStructure(Header, None, header, 0, version, maxText, 0);
    var head := CheckFrom(Header, None, header, 0, version, maxText, 0);
    if head.Ok? {
      RecordsStructureChecks(records, 0, version, maxText, head.value.total);
      var rest := CheckRecordsFrom(records, 0, version, maxText, head.value.total);
      assert rest.Ok? ==> |rest.value.classes| == |records|;
    }
  }

  /** The save check accepts a document exactly when it is consistent, unless a budget refuses it. */
  lemma SaveCheckIsConsistency(document: VaultDocument, limits: ResourceLimits)
    ensures CheckDocument(document, limits).Ok? ==> Consistent(document)
    ensures Consistent(document) ==>
              CheckDocument(document, limits).Ok? || IsResourceError(CheckDocument(document, limits).error)
  {
    hide CheckSchema, CheckShapeFrom, CheckVersion, WarningsFrom, RecordWarningsFrom, OrdinalsMatch;
    ShapeChecks(document, 0, limits.maxFields, |document.header|);
    SchemaChecks(document.header, FieldLists(document.records), document.version, limits.maxDecodedText);
  }

  // ---------------------------------------------------------------- stored classifications play no part

  /** The same fields with their stored classification forgotten. */
  function Erased(fields: seq<RawField>): (r: seq<RawField>)
    ensures |r| == |fields|
  {
    seq(|fields|, i requires 0 <= i < |fields| => fields[i].(classification := Unknown))
  }

  lemma {:induction false} ErasedCount(fields: seq<RawField>, code: Byte)
    ensures CountType(Erased(fields), code) == CountType(fields, code)
  {
    if fields != [] {
      assert Erased(fields)[1..] == Erased(fields[1..]);
      ErasedCount(fields[1..], code);
    }
  }

  lemma ErasedSeen(fields: seq<RawField>, i: nat)
    requires i < |fields|
    ensures Seen(Erased(fields), i) == Seen(fields, i)
  {
    if j :| 0 <= j < i && fields[j].typeCode == fields[i].typeCode {
      assert Erased(fields)[j].typeCode == Erased(fields)[i].typeCode;
    }
  }

  lemma ErasedField(
    section: Section, recordOrdinal: Option<nat>, f: RawField, seen: bool, version: nat, maxText: nat, total: nat)
    ensures CheckField(section, recordOrdinal, f.(classification := Unknown), seen, version, maxText, total)
         == CheckField(section, recordOrdinal, f, seen, version, maxText, total)
  {
    hide SpecOf, DecodeField;
  }

  lemma {:induction false} CheckErased(
    section: Section, recordOrdinal: Option<nat>, fields: seq<RawField>, i: nat, version: nat, maxText: nat, total: nat)
    requires i <= |fields|
    ensures CheckFrom(section, recordOrdinal, Erased(fields), i, version, maxText, total)
         == CheckFrom(section, recordOrdinal, fields, i, version, maxText, total)
    decreases |fields| - i
  {
    hide Seen, CheckField;
    if i < |fields| {
      ErasedSeen(fields, i);
      ErasedField(section, recordOrdinal, fields[i], Seen(fields, i), version, maxText, total);
      var head := CheckField(section, recordOrdinal, fields[i], Seen(fields, i), version, maxText, total);
      if head.Ok? {
        CheckErased(section, recordOrdinal, fields, i + 1, version, maxText, head.value.total);
      }
    }
  }

  lemma ErasedHas(fields: seq<RawField>, code: Byte)
    ensures Has(Erased(fields), code) == Has(fields, code)
  {
    if i :| 0 <= i < |fields| && fields[i].typeCode == code {
      assert Erased(fields)[i].typeCode == code;
    }
  }

  lemma RecordErased(fields: seq<RawField>, ordinal: nat, version: nat, maxText: nat, total: nat)
    ensures CheckRecord(Erased(fields), ordinal, version, maxText, total)
              == CheckRecord(fields, ordinal, version, maxText, total)
  {
    hide CheckFrom, CountType, Has;
    CheckErased(Record, Some(ordinal), fields, 0, version, maxText, total);
    ErasedCount(fields, UUID);
    ErasedCount(fields, TITLE);
    ErasedCount(fields, PASSWORD);
    forall code: Byte
      ensures Has(Erased(fields), code) == Has(fields, code)
    {
      ErasedHas(fields, code);
    }
  }

  function ErasedAll(records: seq<seq<RawField>>): (r: seq<seq<RawField>>)
    ensures |r| == |records|
  {
    seq(|records|, i requires 0 <= i < |records| => Erased(records[i]))
  }

  lemma {:induction false} RecordsErased(records: seq<seq<RawField>>, r: nat, version: nat, maxText: nat, total: nat)
    requires r <= |records|
    ensures CheckRecordsFrom(ErasedAll(records), r, version, maxText, total)
              == CheckRecordsFrom(records, r, version, maxText, total)
    decreases |records| - r
  {
    hide CheckRecord, Erased;
    if r < |records| {
      RecordErased(records[r], r, version, maxText, total);
      var head := CheckRecord(records[r], r, version, maxText, total);
      if head.Ok? {
        RecordsErased(records, r + 1, version, maxText, head.value.total);
      }
    }
  }

  /** The schema pass reads types, bytes and positions only, never the classification a field carries. */
  lemma SchemaErased(header: seq<RawField>, records: seq<seq<RawField>>, version: nat, maxText: nat)
    ensures CheckSchema(Erased(header), ErasedAll(records), version, maxText)
              == CheckSchema(header, records, version, maxText)
    ensures CheckVersion(Erased(header)) == CheckVersion(header)
  {
    hide CheckFrom, CheckRecordsFrom, CountType, FromLittleEndian;
    CheckErased(Header, None, header, 0, version, maxText, 0);
    ErasedCount(header, VERSION);
    var head := CheckFrom(Header, None, header, 0, version, maxText, 0);
    if head.Ok? {
      RecordsErased(records, 0, version, maxText, head.value.total);
    }
  }
}
