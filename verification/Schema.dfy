/**
 The official field tables and the per-field decoding rules: which lengths and values a field
 may have, and whether a violation is fatal or only worth a preservation warning.
 */
module Schema {
  import opened Basics
  import Utf8
  import CustomFields

  datatype Kind =
    | UuidKind | TextKind | TimeKind | Uint32Kind | Uint16Kind | Uint8Kind | BinaryKind | OpaqueKind | EmptyKind

  datatype Secrecy = Public | Secret | PotentiallySecret

  datatype Role =
    | Optional | HeaderRequired | RecordRequired | AttachmentRequired | PasskeyRequired | Terminator

  datatype FieldSpec = FieldSpec(
    kind: Kind,
    since: nat,
    multiple: bool,
    secrecy: Secrecy,
    role: Role,
    editable: bool,
    fixedLength: Option<nat>,
    alternateLength: Option<nat>,
    historicalTime: bool)
  {
    predicate Mandatory() { !role.Optional? }

    predicate IsSecret() { !secrecy.Public? }
  }

  datatype Section = Header | Record

  const VERSION: Byte := 0x00
  const UUID: Byte := 0x01
  const GROUP: Byte := 0x02
  const TITLE: Byte := 0x03
  const USERNAME: Byte := 0x04
  const PASSWORD: Byte := 0x06
  const URL: Byte := 0x0D
  const PROTECTED: Byte := 0x15
  const CUSTOM_TEXT_FIELD: Byte := 0x30
  const END: Byte := 0xFF

  function HeaderSpec(code: Byte): Option<FieldSpec> {
    match code
    case 0x00 => Some(FieldSpec(Uint16Kind, 0x0300, false, Public, HeaderRequired, false, Some(2), None, false))  // version
    case 0x01 => Some(FieldSpec(UuidKind, 0x0300, false, Public, Optional, false, Some(16), None, false))  // uuid
    case 0x02 => Some(FieldSpec(TextKind, 0x0300, false, Public, Optional, true, None, None, false))  // preferences
    case 0x03 => Some(FieldSpec(TextKind, 0x0301, false, Public, Optional, true, None, None, false))  // tree display status
    case 0x04 => Some(FieldSpec(TimeKind, 0x0300, false, Public, Optional, true, Some(4), None, true))  // last save time
    case 0x05 => Some(FieldSpec(TextKind, 0x0300, false, Public, Optional, true, None, None, false))  // last save by
    case 0x06 => Some(FieldSpec(TextKind, 0x0300, false, Public, Optional, true, None, None, false))  // last save what
    case 0x07 => Some(FieldSpec(TextKind, 0x0302, false, Public, Optional, true, None, None, false))  // last save user
    case 0x08 => Some(FieldSpec(TextKind, 0x0302, false, Public, Optional, true, None, None, false))  // last save host
    case 0x09 => Some(FieldSpec(TextKind, 0x0302, false, Public, Optional, true, None, None, false))  // database name
    case 0x0A => Some(FieldSpec(TextKind, 0x0302, false, Public, Optional, true, None, None, false))  // database description
    case 0x0B => Some(FieldSpec(TextKind, 0x0305, false, Public, Optional, true, None, None, false))  // database filters
    case 0x0C => Some(FieldSpec(OpaqueKind, 0x0300, false, PotentiallySecret, Optional, false, None, None, false))  // reserved 0c
    case 0x0D => Some(FieldSpec(OpaqueKind, 0x0300, false, PotentiallySecret, Optional, false, None, None, false))  // reserved 0d
    case 0x0E => Some(FieldSpec(OpaqueKind, 0x0300, false, PotentiallySecret, Optional, false, None, None, false))  // reserved 0e
    case 0x0F => Some(FieldSpec(TextKind, 0x0307, false, Public, Optional, true, None, None, false))  // recently used entries
    case 0x10 => Some(FieldSpec(TextKind, 0x030A, false, Public, Optional, true, None, None, false))  // named password policies
    case 0x11 => Some(FieldSpec(TextKind, 0x030B, true, Public, Optional, true, None, None, false))  // empty groups
    case 0x12 => Some(FieldSpec(BinaryKind, 0x030C, false, Secret, Optional, true, Some(20), None, false))  // yubico
    case 0x13 => Some(FieldSpec(TimeKind, 0x030E, false, Public, Optional, true, Some(4), None, true))  // last master password change
    case 0xFF => Some(FieldSpec(EmptyKind, 0x0300, false, Public, Terminator, false, Some(0), None, false))  // end
    case _ => None
  }

  function RecordSpec(code: Byte): Option<FieldSpec> {
    match code
    case 0x01 => Some(FieldSpec(UuidKind, 0x0300, false, Public, RecordRequired, false, Some(16), None, false))  // uuid
    case 0x02 => Some(FieldSpec(TextKind, 0x0300, false, Public, Optional, true, None, None, false))  // group
    case 0x03 => Some(FieldSpec(TextKind, 0x0300, false, Public, RecordRequired, true, None, None, false))  // title
    case 0x04 => Some(FieldSpec(TextKind, 0x0300, false, Public, Optional, true, None, None, false))  // username
    case 0x05 => Some(FieldSpec(TextKind, 0x0300, false, PotentiallySecret, Optional, true, None, None, false))  // notes
    case 0x06 => Some(FieldSpec(TextKind, 0x0300, false, Secret, RecordRequired, true, None, None, false))  // password
    case 0x07 => Some(FieldSpec(TimeKind, 0x0300, false, Public, Optional, true, Some(4), None, false))  // creation time
    case 0x08 => Some(FieldSpec(TimeKind, 0x0300, false, Public, Optional, true, Some(4), None, false))  // password modification time
    case 0x09 => Some(FieldSpec(TimeKind, 0x0300, false, Public, Optional, true, Some(4), None, false))  // last access time
    case 0x0A => Some(FieldSpec(TimeKind, 0x0300, false, Public, Optional, true, Some(4), None, false))  // password expiry time
    case 0x0B => Some(FieldSpec(OpaqueKind, 0x0300, false, PotentiallySecret, Optional, false, Some(4), None, false))  // reserved 0b
    case 0x0C => Some(FieldSpec(TimeKind, 0x0300, false, Public, Optional, true, Some(4), None, false))  // last modification time
    case 0x0D => Some(FieldSpec(TextKind, 0x0300, false, Public, Optional, true, None, None, false))  // url
    case 0x0E => Some(FieldSpec(TextKind, 0x0300, false, Public, Optional, true, None, None, false))  // autotype
    case 0x0F => Some(FieldSpec(TextKind, 0x0300, false, Secret, Optional, true, None, None, false))  // password history
    case 0x10 => Some(FieldSpec(TextKind, 0x0302, false, Public, Optional, true, None, None, false))  // password policy
    case 0x11 => Some(FieldSpec(Uint32Kind, 0x0304, false, Public, Optional, true, Some(4), None, false))  // password expiry interval
    case 0x12 => Some(FieldSpec(TextKind, 0x0305, false, Public, Optional, true, None, None, false))  // run command
    case 0x13 => Some(FieldSpec(Uint16Kind, 0x0305, false, Public, Optional, true, Some(2), None, false))  // double click action
    case 0x14 => Some(FieldSpec(TextKind, 0x0306, false, Public, Optional, true, None, None, false))  // email
    case 0x15 => Some(FieldSpec(Uint8Kind, 0x0308, false, Public, Optional, true, Some(1), None, false))  // protected
    case 0x16 => Some(FieldSpec(TextKind, 0x0309, false, Public, Optional, true, None, None, false))  // own symbols
    case 0x17 => Some(FieldSpec(Uint16Kind, 0x0309, false, Public, Optional, true, Some(2), None, false))  // shift double click action
    case 0x18 => Some(FieldSpec(TextKind, 0x030A, false, Public, Optional, true, None, None, false))  // password policy name
    case 0x19 => Some(FieldSpec(Uint32Kind, 0x030D, false, Public, Optional, true, Some(4), None, false))  // keyboard shortcut
    case 0x1A => Some(FieldSpec(OpaqueKind, 0x030D, false, PotentiallySecret, Optional, false, Some(16), None, false))  // reserved 1a
    case 0x1B => Some(FieldSpec(BinaryKind, 0x030D, false, Secret, Optional, true, None, None, false))  // two factor key
    case 0x1C => Some(FieldSpec(TextKind, 0x030D, false, Secret, Optional, true, None, None, false))  // credit card number
    case 0x1D => Some(FieldSpec(TextKind, 0x030D, false, Secret, Optional, true, None, None, false))  // credit card expiration
    case 0x1E => Some(FieldSpec(TextKind, 0x030D, false, Secret, Optional, true, None, None, false))  // credit card verification value
    case 0x1F => Some(FieldSpec(TextKind, 0x030D, false, Secret, Optional, true, None, None, false))  // credit card pin
    case 0x20 => Some(FieldSpec(TextKind, 0x030D, false, PotentiallySecret, Optional, true, None, None, false))  // qr code
    case 0x21 => Some(FieldSpec(Uint8Kind, 0x030E, false, Public, Optional, true, Some(1), None, false))  // totp config
    case 0x22 => Some(FieldSpec(Uint8Kind, 0x030E, false, Public, Optional, true, Some(1), None, false))  // totp length
    case 0x23 => Some(FieldSpec(Uint8Kind, 0x030E, false, Public, Optional, true, Some(1), None, false))  // totp time step
    case 0x24 => Some(FieldSpec(TimeKind, 0x030E, false, Public, Optional, true, Some(4), Some(5), false))  // totp start time
    case 0x25 => Some(FieldSpec(OpaqueKind, 0x030F, false, PotentiallySecret, Optional, false, None, None, false))  // attachment title
    case 0x26 => Some(FieldSpec(OpaqueKind, 0x030F, false, PotentiallySecret, AttachmentRequired, false, None, None, false))  // attachment media type
    case 0x27 => Some(FieldSpec(OpaqueKind, 0x030F, false, PotentiallySecret, Optional, false, None, None, false))  // attachment file name
    case 0x28 => Some(FieldSpec(OpaqueKind, 0x030F, false, PotentiallySecret, Optional, false, Some(4), None, false))  // attachment modification time
    case 0x29 => Some(FieldSpec(OpaqueKind, 0x030F, false, PotentiallySecret, Optional, false, None, None, false))  // attachment content
    case 0x2A => Some(FieldSpec(OpaqueKind, 0x0310, false, PotentiallySecret, PasskeyRequired, false, None, None, false))  // passkey credential id
    case 0x2B => Some(FieldSpec(OpaqueKind, 0x0310, false, PotentiallySecret, PasskeyRequired, false, None, None, false))  // passkey relying party id
    case 0x2C => Some(FieldSpec(OpaqueKind, 0x0310, false, PotentiallySecret, PasskeyRequired, false, None, None, false))  // passkey user handle
    case 0x2D => Some(FieldSpec(OpaqueKind, 0x0310, false, PotentiallySecret, PasskeyRequired, false, Some(4), None, false))  // passkey algorithm id
    case 0x2E => Some(FieldSpec(OpaqueKind, 0x0310, false, PotentiallySecret, PasskeyRequired, false, None, None, false))  // passkey private key
    case 0x2F => Some(FieldSpec(OpaqueKind, 0x0310, false, PotentiallySecret, PasskeyRequired, false, Some(4), None, false))  // passkey sign count
    case 0x30 => Some(FieldSpec(TextKind, 0x0311, false, PotentiallySecret, Optional, false, None, None, false))  // custom text field
    case 0xDF => Some(FieldSpec(OpaqueKind, 0x0300, true, PotentiallySecret, Optional, false, None, None, false))  // unknown testing
    case 0xFF => Some(FieldSpec(EmptyKind, 0x0300, false, Public, Terminator, false, Some(0), None, false))  // end
    case _ => None
  }

  function SpecOf(section: Section, code: Byte): Option<FieldSpec> {
    if section.Header? then HeaderSpec(code) else RecordSpec(code)
  }

  /** Fixed sizes, alternative sizes, and the required-but-empty case. */
  predicate LengthMalformed(spec: FieldSpec, length: nat) {
    if spec.kind.TimeKind? && spec.historicalTime && length == 8 then false
    else if spec.alternateLength == Some(length) then false
    else if spec.fixedLength.Some? && length != spec.fixedLength.value then true
    else (spec.role.HeaderRequired? || spec.role.RecordRequired? || spec.role.AttachmentRequired? || spec.role.PasskeyRequired?)
         && length == 0
  }

  predicate HexadecimalDigit(b: Byte) {
    0x30 <= b <= 0x39 || 0x41 <= b <= 0x46 || 0x61 <= b <= 0x66
  }

  /** Whether bytes of an acceptable length decode to a value of the field's kind. */
  predicate ValueAccepted(spec: FieldSpec, payload: Bytes) {
    match spec.kind
    case UuidKind => |payload| == 16 && 0x80 <= payload[8] <= 0xBF
    case TextKind => Utf8.AcceptedText(payload)
    case TimeKind =>
      !(|payload| == 8 && spec.historicalTime) || forall i :: 0 <= i < 8 ==> HexadecimalDigit(payload[i])
    case OpaqueKind => false
    case _ => true
  }

  datatype Verdict = Clean | Malformed

  /** Decode one known field under a byte bound: a verdict, or the reason the document is refused. */
  function DecodeField(section: Section, spec: FieldSpec, code: Byte, payload: Bytes, maxDecoded: nat): Result<Verdict> {
    if LengthMalformed(spec, |payload|) then
      if spec.Mandatory() then Err(InvalidField) else Ok(Malformed)
    else if spec.kind.OpaqueKind? then Ok(Clean)
    else if |payload| > maxDecoded then Err(MaxDecodedText)
    else if !ValueAccepted(spec, payload) then
      if spec.Mandatory() then Err(InvalidField) else Ok(Malformed)
    else if section.Record? && code == CUSTOM_TEXT_FIELD
            && CustomFields.Parse(payload, CustomFields.MAX_DECODED_TEXT_BYTES).None? then Ok(Malformed)
    else Ok(Clean)
  }
}
