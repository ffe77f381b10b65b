/** The record layouts of AvaSoft files: field tables packed on 1-byte boundaries,
    the enumerations some integer fields stand for, and the sizes and offsets
    that follow from the tables. */
module AvaTypes {
  import opened Wrappers

  const SerialLength: nat := 10    // AVS_SERIAL_LEN
  const UserIdLength: nat := 64    // USER_ID_LEN

  // ---------------------------------------------------------------- enums

  datatype DeviceStatus =
    | Unknown | UsbAvailable | UsbInUseByApplication | UsbInUseByOther
    | EthAvailable | EthInUseByApplication | EthInUseByOther | EthAlreadyInUseUsb

  datatype MeasurementEnum =
    | Scope | ScopeDarkCorrected | Absorbance | Transmission
    | Reflectance | Irradiance | RelativeIrradiance | Temperature

  datatype TrigMode = SW | HW

  datatype TrigSource = Ext | Sync | Single

  datatype TrigKind = Edge | Level

  /** The enumeration classes that `_map` tables refer to. */
  datatype EnumType = DeviceStatusType | MeasurementType | TrigModeType | TrigSourceType | TrigKindType

  /** A member of one of the enumerations. */
  datatype EnumValue =
    | DS(status: DeviceStatus)
    | ME(measurement: MeasurementEnum)
    | TM(mode: TrigMode)
    | TS(source: TrigSource)
    | TK(kind: TrigKind)
  {
    function Type(): EnumType {
      match this
      case DS(_) => DeviceStatusType
      case ME(_) => MeasurementType
      case TM(_) => TrigModeType
      case TS(_) => TrigSourceType
      case TK(_) => TrigKindType
    }

    /** The integer value of the member. */
    function ToInt(): int {
      match this
      case DS(s) => (match s
        case Unknown => 0 case UsbAvailable => 1 case UsbInUseByApplication => 2
        case UsbInUseByOther => 3 case EthAvailable => 4 case EthInUseByApplication => 5
        case EthInUseByOther => 6 case EthAlreadyInUseUsb => 7)
      case ME(m) => (match m
        case Scope => 0 case ScopeDarkCorrected => 1 case Absorbance => 2
        case Transmission => 3 case Reflectance => 4 case Irradiance => 5
        case RelativeIrradiance => 6 case Temperature => 7)
      case TM(m) => (match m case SW => 0 case HW => 1)
      case TS(s) => (match s case Ext => 0 case Sync => 1 case Single => 2)
      case TK(k) => (match k case Edge => 0 case Level => 1)
    }
  }

  /** The integer values an enumeration declares. */
  function Values(t: EnumType): set<int> {
    match t
    case DeviceStatusType => {0, 1, 2, 3, 4, 5, 6, 7}
    case MeasurementType => {0, 1, 2, 3, 4, 5, 6, 7}
    case TrigModeType => {0, 1}
    case TrigSourceType => {0, 1, 2}
    case TrigKindType => {0, 1}
  }

  /** `EnumClass(x)`: the member with value x, or None where Python raises ValueError. */
  function FromInt(t: EnumType, x: int): (r: Option<EnumValue>)
    ensures r.Some? <==> x in Values(t)
    ensures r.Some? ==> r.value.Type() == t && r.value.ToInt() == x
  {
    match t
    case DeviceStatusType =>
      if x == 0 then Some(DS(Unknown)) else if x == 1 then Some(DS(UsbAvailable))
      else if x == 2 then Some(DS(UsbInUseByApplication)) else if x == 3 then Some(DS(UsbInUseByOther))
      else if x == 4 then Some(DS(EthAvailable)) else if x == 5 then Some(DS(EthInUseByApplication))
      else if x == 6 then Some(DS(EthInUseByOther)) else if x == 7 then Some(DS(EthAlreadyInUseUsb))
      else None
    case MeasurementType =>
      if x == 0 then Some(ME(Scope)) else if x == 1 then Some(ME(ScopeDarkCorrected))
      else if x == 2 then Some(ME(Absorbance)) else if x == 3 then Some(ME(Transmission))
      else if x == 4 then Some(ME(Reflectance)) else if x == 5 then Some(ME(Irradiance))
      else if x == 6 then Some(ME(RelativeIrradiance)) else if x == 7 then Some(ME(Temperature))
      else None
    case TrigModeType =>
      if x == 0 then Some(TM(SW)) else if x == 1 then Some(TM(HW)) else None
    case TrigSourceType =>
      if x == 0 then Some(TS(Ext)) else if x == 1 then Some(TS(Sync))
      else if x == 2 then Some(TS(Single)) else None
    case TrigKindType =>
      if x == 0 then Some(TK(Edge)) else if x == 1 then Some(TK(Level)) else None
  }

  /** Every member is reached from its own value: the enumerations have no aliases. */
  lemma {:induction false} FromIntToInt(e: EnumValue)
    ensures e.ToInt() in Values(e.Type())
    ensures FromInt(e.Type(), e.ToInt()) == Some(e)
  {
    match e
    case DS(s) => {}
    case ME(m) => {}
    case TM(m) => {}
    case TS(s) => {}
    case TK(k) => {}
  }

  // ---------------------------------------------------------------- layouts

  /** ctypes primitive types with their packed sizes. */
  datatype Prim = Char | Byte | UByte | UInt16 | UInt32 | Float | Double
  {
    function Size(): nat {
      match this
      case Char => 1 case Byte => 1 case UByte => 1
      case UInt16 => 2 case UInt32 => 4 case Float => 4 case Double => 8
    }
    predicate IsInteger() { this in {Byte, UByte, UInt16, UInt32} }
  }

  datatype RecordId =
    | Identity | DarkCorrection | Smoothing | Trigger | ControlSettings
    | MeasConfig | MiscInfo | AvsPreamble | AvsInfoBlock | StrPreamble | StrInfoBlock

  /** A field's ctypes type: a scalar, a fixed array, or a record laid out inline. */
  datatype Kind = Scalar(prim: Prim) | Array(elem: Prim, count: nat) | Nested(record: RecordId)

  datatype Field = Field(name: string, kind: Kind)

  const IdentityFields: seq<Field> := [
    Field("SerialNumber", Array(Char, SerialLength)),
    Field("UserFriendlyName", Array(Char, UserIdLength)),
    Field("Status", Scalar(UByte))]

  const DarkCorrectionFields: seq<Field> := [
    Field("Enable", Scalar(UByte)),
    Field("ForgetPercentage", Scalar(UByte))]

  const SmoothingFields: seq<Field> := [
    Field("SmoothPix", Scalar(UInt16)),
    Field("SmoothModel", Scalar(UByte))]

  const TriggerFields: seq<Field> := [
    Field("Mode", Scalar(UByte)),
    Field("Source", Scalar(UByte)),
    Field("SourceType", Scalar(UByte))]

  const ControlSettingsFields: seq<Field> := [
    Field("StrobeControl", Scalar(UInt16)),
    Field("LaserDelay", Scalar(UInt32)),
    Field("LaserWidth", Scalar(UInt32)),
    Field("LaserWaveLength", Scalar(Float)),
    Field("StoreToRam", Scalar(UInt16))]

  const MeasConfigFields: seq<Field> := [
    Field("StartPixel", Scalar(UInt16)),
    Field("StopPixel", Scalar(UInt16)),
    Field("IntegrationTime", Scalar(Float)),
    Field("IntegrationDelay", Scalar(UInt32)),
    Field("NrAverages", Scalar(UInt32)),
    Field("CorDynDark", Nested(DarkCorrection)),
    Field("Smoothing", Nested(Smoothing)),
    Field("SaturationDetection", Scalar(UByte)),
    Field("Trigger", Nested(Trigger)),
    Field("Control", Nested(ControlSettings))]

  const MiscInfoFields: seq<Field> := [
    Field("file_datetime", Scalar(UInt32)),
    Field("detectorTemp", Scalar(Float)),
    Field("boardTemp", Scalar(Float)),
    Field("skip_float", Scalar(Float)),
    Field("ColorTemperature", Scalar(Float)),
    Field("CalIntTime", Scalar(Float))]

  const AvsPreambleFields: seq<Field> := [
    Field("FileType", Array(Char, 3)),
    Field("Version", Array(Char, 2)),
    Field("channels", Scalar(UByte))]

  const AvsInfoBlockFields: seq<Field> := [
    Field("blockLength", Scalar(UInt16)),
    Field("Unused1", Array(Byte, 2)),
    Field("channelIndex", Scalar(Byte)),
    Field("measurementEnum", Scalar(UByte)),
    Field("Unused2", Array(Byte, 2)),
    Field("ID", Nested(Identity)),
    Field("Measurement", Nested(MeasConfig)),
    Field("timestamp", Scalar(UInt32)),
    Field("Misc", Nested(MiscInfo)),
    Field("aFit", Array(Double, 5)),
    Field("comment", Array(Char, 130))]

  const StrPreambleFields: seq<Field> := [
    Field("FileType", Array(Char, 3)),
    Field("Version", Array(Char, 2)),
    Field("frames", Scalar(UInt16))]

  const StrInfoBlockFields: seq<Field> := [
    Field("Unused", Array(Byte, 5)),
    Field("ID", Nested(Identity)),
    Field("Measurement", Nested(MeasConfig)),
    Field("Unused1", Array(Byte, 7)),
    Field("Misc", Nested(MiscInfo)),
    Field("Unused2", Array(Byte, 47)),
    Field("comment", Array(Char, 130))]

  /** The `_fields_` table of each record, in declaration order. */
  function Fields(r: RecordId): seq<Field> {
    match r
    case Identity => IdentityFields
    case DarkCorrection => DarkCorrectionFields
    case Smoothing => SmoothingFields
    case Trigger => TriggerFields
    case ControlSettings => ControlSettingsFields
    case MeasConfig => MeasConfigFields
    case MiscInfo => MiscInfoFields
    case AvsPreamble => AvsPreambleFields
    case AvsInfoBlock => AvsInfoBlockFields
    case StrPreamble => StrPreambleFields
    case StrInfoBlock => StrInfoBlockFields
  }

  /** The `_map` table of each record: field name to enumeration class. Records that do
      not declare one inherit the empty map of the common base class. */
  function EnumMap(r: RecordId): map<string, EnumType> {
    match r
    case Identity => map["Status" := DeviceStatusType]
    case Trigger => map["Mode" := TrigModeType, "Source" := TrigSourceType, "SourceType" := TrigKindType]
    case AvsInfoBlock => map["measurementEnum" := MeasurementType]
    case _ => map[]
  }

  /** `sizeof` of each record. `PackedSizes` proves every entry is the sum of the sizes of
      the record's fields, which is what `_pack_ = 1` gives: no padding anywhere. */
  function Size(r: RecordId): nat {
    match r
    case Identity => 75
    case DarkCorrection => 2
    case Smoothing => 3
    case Trigger => 3
    case ControlSettings => 16
    case MeasConfig => 41
    case MiscInfo => 24
    case AvsPreamble => 6
    case AvsInfoBlock => 322
    case StrPreamble => 7
    case StrInfoBlock => 329
  }

  /** Packed size of a field type; a nested record is laid out inline. */
  function KindSize(k: Kind): nat {
    match k
    case Scalar(p) => p.Size()
    case Array(p, n) => n * p.Size()
    case Nested(q) => Size(q)
  }

  /** Offset of field i: with `_pack_ = 1` it is the sum of the sizes of the fields before it. */
  function OffsetOf(r: RecordId, i: nat): nat
    requires i <= |Fields(r)|
  {
    OffsetIn(Fields(r), i)
  }

  /** The sum of the sizes of the first i fields of a table. */
  function OffsetIn(fs: seq<Field>, i: nat): nat
    requires i <= |fs|
  {
    if i == 0 then 0 else OffsetIn(fs, i - 1) + KindSize(fs[i - 1].kind)
  }

  /** Index of the first field called `name`, as `next(...)` over `_fields_` finds it. */
  function FieldIndex(fs: seq<Field>, name: string): (r: Option<nat>)
    ensures r.None? <==> forall i :: 0 <= i < |fs| ==> fs[i].name != name
    ensures r.Some? ==> r.value < |fs| && fs[r.value].name == name
    ensures r.Some? ==> forall i :: 0 <= i < r.value ==> fs[i].name != name
  {
    if fs == [] then None
    else if fs[0].name == name then Some(0)
    else match FieldIndex(fs[1..], name)
      case None => None
      case Some(i) => Some(i + 1)
  }

  /** Offsets never decrease along the declaration order. */
  lemma {:induction false} OffsetMonotone(r: RecordId, i: nat, j: nat)
    requires i <= j <= |Fields(r)|
    ensures OffsetOf(r, i) <= OffsetOf(r, j)
  {
    OffsetInMonotone(Fields(r), i, j);
  }

  lemma {:induction false} OffsetInMonotone(fs: seq<Field>, i: nat, j: nat)
    requires i <= j <= |fs|
    ensures OffsetIn(fs, i) <= OffsetIn(fs, j)
    decreases j - i
  {
    if i < j {
      OffsetInMonotone(fs, i, j - 1);
    }
  }

  /** Each field lies inside its record, and it ends where the next one starts or before:
      fields never overlap. */
  lemma {:induction false} FieldsDisjoint(r: RecordId, i: nat, j: nat)
    requires i < j < |Fields(r)|
    ensures OffsetOf(r, i) + KindSize(Fields(r)[i].kind) <= OffsetOf(r, j)
    ensures OffsetOf(r, j) + KindSize(Fields(r)[j].kind) <= Size(r)
  {
    FieldsDisjointIn(Fields(r), i, j);
    FieldWithin(r, j);
  }

  lemma {:induction false} FieldsDisjointIn(fs: seq<Field>, i: nat, j: nat)
    requires i < j <= |fs|
    ensures OffsetIn(fs, i) + KindSize(fs[i].kind) <= OffsetIn(fs, j)
  {
    OffsetInMonotone(fs, i + 1, j);
  }

  /** The defining step of the packed layout: field i+1 starts where field i ends. */
  lemma {:induction false} OffsetStep(r: RecordId, i: nat)
    requires i < |Fields(r)|
    ensures OffsetOf(r, i + 1) == OffsetOf(r, i) + KindSize(Fields(r)[i].kind)
  {
  }

  /** The field bytes of field i are a slice of any buffer of the record's size. */
  lemma {:induction false} FieldWithin(r: RecordId, i: nat)
    requires i < |Fields(r)|
    ensures OffsetOf(r, i) + KindSize(Fields(r)[i].kind) <= Size(r)
  {
    FieldsDisjointIn(Fields(r), i, |Fields(r)|);
    PackedSizes(r);
  }

  /** No two fields of the table share a name. */
  predicate UniqueNames(fs: seq<Field>) {
    forall i, j :: 0 <= i < j < |fs| ==> fs[i].name != fs[j].name
  }

  /** No record declares the same field name twice, so the first match is the only one. */
  lemma {:induction false} NamesUnique(r: RecordId)
    ensures UniqueNames(Fields(r))
  {
    SmallTablesHaveUniqueNames();
    match r
    case MeasConfig => MeasConfigNamesUnique();
    case MiscInfo => MiscInfoNamesUnique();
    case AvsInfoBlock => AvsInfoBlockNamesUnique();
    case StrInfoBlock => StrInfoBlockNamesUnique();
    case _ =>
  }

  lemma SmallTablesHaveUniqueNames()
    ensures UniqueNames(IdentityFields)
    ensures UniqueNames(DarkCorrectionFields)
    ensures UniqueNames(SmoothingFields)
    ensures UniqueNames(TriggerFields)
    ensures UniqueNames(ControlSettingsFields)
    ensures UniqueNames(AvsPreambleFields)
    ensures UniqueNames(StrPreambleFields)
  {
  }

  lemma MeasConfigNamesUnique()
    ensures UniqueNames(MeasConfigFields)
  {
  }

  lemma MiscInfoNamesUnique()
    ensures UniqueNames(MiscInfoFields)
  {
  }

  lemma AvsInfoBlockNamesUnique()
    ensures UniqueNames(AvsInfoBlockFields)
  {
  }

  lemma StrInfoBlockNamesUnique()
    ensures UniqueNames(StrInfoBlockFields)
  {
  }

  /** In a table without repeated names, looking a field up by its own name finds it. */
  lemma {:induction false} IndexOfName(fs: seq<Field>, i: nat)
    requires UniqueNames(fs) && i < |fs|
    ensures FieldIndex(fs, fs[i].name) == Some(i)
  {
  }

  /** Looking a record's field up by its own name finds that field. */
  lemma {:induction false} FieldNamed(r: RecordId, i: nat)
    requires i < |Fields(r)|
    ensures FieldIndex(Fields(r), Fields(r)[i].name) == Some(i)
  {
    NamesUnique(r);
    IndexOfName(Fields(r), i);
  }

  /** An unsigned-byte field is found under its own name. */
  lemma {:induction false} ByteFieldNamed(r: RecordId, name: string, i: nat)
    requires i < |Fields(r)| && Fields(r)[i] == Field(name, Scalar(UByte))
    ensures FieldIndex(Fields(r), name) == Some(i)
  {
    FieldNamed(r, i);
  }

  /** Every name in a `_map` table is an unsigned-byte scalar field of the same record,
      so the enumeration branch of the mapper receives an integer. */
  lemma {:induction false} EnumMapFieldsAreBytes(r: RecordId, name: string)
    requires name in EnumMap(r)
    ensures FieldIndex(Fields(r), name).Some?
    ensures Fields(r)[FieldIndex(Fields(r), name).value].kind == Scalar(UByte)
  {
    match r
    case Identity => ByteFieldNamed(r, name, 2);
    case Trigger =>
      if name == "Mode" {
        ByteFieldNamed(r, name, 0);
      } else if name == "Source" {
        ByteFieldNamed(r, name, 1);
      } else {
        ByteFieldNamed(r, name, 2);
      }
    case AvsInfoBlock => ByteFieldNamed(r, name, 3);
    case _ => assert false;
  }

  // ---------------------------------------------------------------- layout facts

  /** The offset just past the last field. */
  function End(r: RecordId): nat {
    OffsetOf(r, |Fields(r)|)
  }

  /** Under 1-byte packing every record's size is the sum of its fields' sizes. */
  lemma {:induction false} PackedSizes(r: RecordId)
    ensures Size(r) == End(r)
  {
    match r
    case Identity => IdentityLayout();
    case DarkCorrection => SmallRecordLayouts();
    case Smoothing => SmallRecordLayouts();
    case Trigger => SmallRecordLayouts();
    case ControlSettings => ControlSettingsLayout();
    case MeasConfig => MeasConfigLayout();
    case MiscInfo => MiscInfoLayout();
    case AvsPreamble => PreambleLayouts();
    case StrPreamble => PreambleLayouts();
    case AvsInfoBlock => AvsInfoBlockLayout();
    case StrInfoBlock => StrInfoBlockLayout();
  }

  lemma IdentityLayout()
    ensures OffsetOf(Identity, 1) == 10 && OffsetOf(Identity, 2) == 74 && End(Identity) == 75
  {
    assert OffsetOf(Identity, 1) == 10;
    assert OffsetOf(Identity, 2) == 74;
  }

  lemma SmallRecordLayouts()
    ensures OffsetOf(DarkCorrection, 1) == 1 && End(DarkCorrection) == 2
    ensures OffsetOf(Smoothing, 1) == 2 && End(Smoothing) == 3
    ensures OffsetOf(Trigger, 1) == 1 && OffsetOf(Trigger, 2) == 2 && End(Trigger) == 3
  {
    assert OffsetOf(DarkCorrection, 1) == 1;
    assert OffsetOf(Smoothing, 1) == 2;
    assert OffsetOf(Trigger, 1) == 1;
    assert OffsetOf(Trigger, 2) == 2;
  }

  lemma ControlSettingsLayout()
    ensures OffsetOf(ControlSettings, 1) == 2 && OffsetOf(ControlSettings, 2) == 6
    ensures OffsetOf(ControlSettings, 3) == 10 && OffsetOf(ControlSettings, 4) == 14
    ensures End(ControlSettings) == 16
  {
    assert OffsetOf(ControlSettings, 1) == 2;
    assert OffsetOf(ControlSettings, 2) == 6;
    assert OffsetOf(ControlSettings, 3) == 10;
    assert OffsetOf(ControlSettings, 4) == 14;
  }

  lemma MiscInfoLayout()
    ensures OffsetOf(MiscInfo, 1) == 4 && OffsetOf(MiscInfo, 5) == 20 && End(MiscInfo) == 24
  {
    assert OffsetOf(MiscInfo, 1) == 4;
    assert OffsetOf(MiscInfo, 2) == 8;
    assert OffsetOf(MiscInfo, 3) == 12;
    assert OffsetOf(MiscInfo, 4) == 16;
    assert OffsetOf(MiscInfo, 5) == 20;
  }

  lemma MeasConfigHead()
    ensures OffsetOf(MeasConfig, 1) == 2 && OffsetOf(MeasConfig, 5) == 16
  {
    assert OffsetOf(MeasConfig, 1) == 2;
    assert OffsetOf(MeasConfig, 2) == 4;
    assert OffsetOf(MeasConfig, 3) == 8;
    assert OffsetOf(MeasConfig, 4) == 12;
  }

  lemma MeasConfigLayout()
    ensures OffsetOf(MeasConfig, 0) == 0 && OffsetOf(MeasConfig, 1) == 2
    ensures OffsetOf(MeasConfig, 2) == 4 && OffsetOf(MeasConfig, 3) == 8
    ensures OffsetOf(MeasConfig, 4) == 12 && OffsetOf(MeasConfig, 5) == 16
    ensures OffsetOf(MeasConfig, 6) == 18 && OffsetOf(MeasConfig, 7) == 21
    ensures OffsetOf(MeasConfig, 8) == 22 && OffsetOf(MeasConfig, 9) == 25
    ensures End(MeasConfig) == 41
  {
    MeasConfigHead();
    assert OffsetOf(MeasConfig, 6) == 18;
    assert OffsetOf(MeasConfig, 7) == 21;
    assert OffsetOf(MeasConfig, 8) == 22;
    assert OffsetOf(MeasConfig, 9) == 25;
  }

  lemma PreambleLayouts()
    ensures OffsetOf(AvsPreamble, 1) == 3 && OffsetOf(AvsPreamble, 2) == 5 && End(AvsPreamble) == 6
    ensures OffsetOf(StrPreamble, 1) == 3 && OffsetOf(StrPreamble, 2) == 5 && End(StrPreamble) == 7
  {
    assert OffsetOf(AvsPreamble, 1) == 3;
    assert OffsetOf(AvsPreamble, 2) == 5;
    assert OffsetOf(StrPreamble, 1) == 3;
    assert OffsetOf(StrPreamble, 2) == 5;
  }

  lemma AvsInfoBlockHead()
    ensures OffsetOf(AvsInfoBlock, 3) == 5 && OffsetOf(AvsInfoBlock, 5) == 8
    ensures OffsetOf(AvsInfoBlock, 6) == 83
  {
    assert OffsetOf(AvsInfoBlock, 1) == 2;
    assert OffsetOf(AvsInfoBlock, 2) == 4;
    assert OffsetOf(AvsInfoBlock, 3) == 5;
    assert OffsetOf(AvsInfoBlock, 4) == 6;
    assert OffsetOf(AvsInfoBlock, 5) == 8;
  }

  lemma AvsInfoBlockMisc()
    ensures OffsetOf(AvsInfoBlock, 8) == 128
  {
    AvsInfoBlockHead();
    assert OffsetOf(AvsInfoBlock, 7) == 124;
  }

  lemma AvsInfoBlockLayout()
    ensures OffsetOf(AvsInfoBlock, 0) == 0 && OffsetOf(AvsInfoBlock, 3) == 5
    ensures OffsetOf(AvsInfoBlock, 5) == 8 && OffsetOf(AvsInfoBlock, 6) == 83
    ensures OffsetOf(AvsInfoBlock, 7) == 124 && OffsetOf(AvsInfoBlock, 8) == 128
    ensures OffsetOf(AvsInfoBlock, 9) == 152 && OffsetOf(AvsInfoBlock, 10) == 192
    ensures End(AvsInfoBlock) == 322
  {
    AvsInfoBlockHead();
    assert OffsetOf(AvsInfoBlock, 7) == 124;
    assert OffsetOf(AvsInfoBlock, 8) == 128;
    assert OffsetOf(AvsInfoBlock, 9) == 152;
    assert OffsetOf(AvsInfoBlock, 10) == 192;
  }

  lemma StrInfoBlockLayout()
    ensures OffsetOf(StrInfoBlock, 1) == 5 && OffsetOf(StrInfoBlock, 2) == 80
    ensures OffsetOf(StrInfoBlock, 3) == 121 && OffsetOf(StrInfoBlock, 4) == 128
    ensures OffsetOf(StrInfoBlock, 5) == 152 && OffsetOf(StrInfoBlock, 6) == 199
    ensures End(StrInfoBlock) == 329
  {
    assert OffsetOf(StrInfoBlock, 1) == 5;
    assert OffsetOf(StrInfoBlock, 2) == 80;
    assert OffsetOf(StrInfoBlock, 3) == 121;
    assert OffsetOf(StrInfoBlock, 4) == 128;
    assert OffsetOf(StrInfoBlock, 5) == 152;
    assert OffsetOf(StrInfoBlock, 6) == 199;
  }
}
