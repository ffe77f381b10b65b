/** The field mapper: reads one named field of a raw record and gives it a Python-level
    meaning (text, numeric array, enumeration member, nested mapping or plain value). */
module StructMapping {
  import opened Wrappers
  import opened Bytes
  import opened AvaTypes

  /** A scalar as Python sees it: an int for integer ctypes, uninterpreted bits for floats. */
  datatype Number = Int(i: int) | Real(bits: Chunk)

  /** What attribute access on a mapped record returns. A nested record stays raw bytes
      wrapped with its layout, so it is decoded again on every access. */
  datatype Value =
    | Text(text: string)
    | Numbers(elems: seq<Number>)
    | Enum(member: EnumValue)
    | Mapping(record: RecordId, raw: seq<byte>)
    | Plain(number: Number)

  /** The declared type of the field called `name`, if the record has one. */
  function KindOf(r: RecordId, name: string): (k: Option<Kind>)
    ensures k.Some? <==> FieldIndex(Fields(r), name).Some?
  {
    match FieldIndex(Fields(r), name)
    case None => None
    case Some(i) => Some(Fields(r)[i].kind)
  }

  /** The value ctypes gives for a scalar of type p stored in b. No record holds a lone
      c_char, so Char only occurs as an array element type. */
  function DecodeNumber(p: Prim, b: seq<byte>): (n: Number)
    requires |b| == p.Size()
    ensures n.Int? <==> p.IsInteger() || p == Char
    ensures p in {UByte, UInt16, UInt32} ==> n == Int(LittleEndian(b))
  {
    match p
    case Byte => Int(SignedLittleEndian(b))
    case Float => Real(b)
    case Double => Real(b)
    case _ => Int(LittleEndian(b))
  }

  /** The bytes of field i inside a raw record. */
  function FieldBytes(r: RecordId, raw: seq<byte>, i: nat): (b: seq<byte>)
    requires |raw| == Size(r) && i < |Fields(r)|
    ensures |b| == KindSize(Fields(r)[i].kind)
  {
    FieldWithin(r, i);
    raw[OffsetOf(r, i)..OffsetOf(r, i) + KindSize(Fields(r)[i].kind)]
  }

  /** The elements of a numeric array field. */
  function ArrayElems(p: Prim, n: nat, b: seq<byte>): (r: seq<Number>)
    requires |b| == n * p.Size()
    ensures |r| == n
    ensures forall k :: 0 <= k < n ==> r[k] == DecodeNumber(p, Chunks(b, n, p.Size())[k])
  {
    var cs := Chunks(b, n, p.Size());
    seq(n, k requires 0 <= k < n => DecodeNumber(p, cs[k]))
  }

  /** The integer inside a scalar field, used by the enumeration branch. */
  function IntValue(r: RecordId, raw: seq<byte>, i: nat): int
    requires |raw| == Size(r) && i < |Fields(r)| && Fields(r)[i].kind.Scalar?
  {
    match DecodeNumber(Fields(r)[i].kind.prim, FieldBytes(r, raw, i))
    case Int(x) => x
    case Real(_) => 0
  }

  /** Attribute access on a mapped record. An unknown name raises AttributeError; otherwise
      the first matching test, in this order, decides the value: a c_char array is text,
      any other array a numeric sequence, a name in the `_map` table an enumeration member
      (ValueError when the integer is not a member), a nested record a mapping, and
      anything else the plain scalar. */
  function GetAttr(r: RecordId, raw: seq<byte>, name: string): (v: Result<Value, Exception>)
    requires |raw| == Size(r)
  {
    match FieldIndex(Fields(r), name)
    case None => Failure(AttributeError)
    case Some(i) =>
      var b := FieldBytes(r, raw, i);
      match Fields(r)[i].kind
      case Array(p, n) =>
        if p == Char then Success(Text(AsciiText(b))) else Success(Numbers(ArrayElems(p, n, b)))
      case Scalar(p) =>
        if name in EnumMap(r) then
          match FromInt(EnumMap(r)[name], IntValue(r, raw, i))
          case Some(e) => Success(Enum(e))
          case None => Failure(ValueError)
        else Success(Plain(DecodeNumber(p, b)))
      case Nested(q) =>
        if name in EnumMap(r) then Failure(ValueError)
        else Success(Mapping(q, b))
  }

  /** The outcome of `GetAttr` for each kind of field descriptor, in the mapper's order of
      tests: unknown name, char array, other array, `_map` entry, nested record, scalar. */
  lemma {:induction false} GetAttrDispatch(r: RecordId, raw: seq<byte>, name: string, v: Result<Value, Exception>)
    requires |raw| == Size(r) && v == GetAttr(r, raw, name)
    ensures v == Failure(AttributeError) <==> KindOf(r, name).None?
    ensures v.Failure? ==> v.error in {AttributeError, ValueError}
    ensures v.Success? && v.value.Text? <==>
      KindOf(r, name).Some? && KindOf(r, name).value.Array? && KindOf(r, name).value.elem == Char
    ensures v.Success? && v.value.Numbers? <==>
      KindOf(r, name).Some? && KindOf(r, name).value.Array? && KindOf(r, name).value.elem != Char
    ensures v.Success? && v.value.Numbers? ==> |v.value.elems| == KindOf(r, name).value.count
    ensures (v.Success? && v.value.Enum?) || v == Failure(ValueError) <==>
      KindOf(r, name).Some? && !KindOf(r, name).value.Array? && name in EnumMap(r)
    ensures v.Success? && v.value.Enum? ==> v.value.member.Type() == EnumMap(r)[name]
    ensures v.Success? && v.value.Mapping? <==>
      KindOf(r, name).Some? && KindOf(r, name).value.Nested? && name !in EnumMap(r)
    ensures v.Success? && v.value.Mapping? ==>
      v.value.record == KindOf(r, name).value.record && |v.value.raw| == Size(v.value.record)
    ensures v.Success? && v.value.Plain? <==>
      KindOf(r, name).Some? && KindOf(r, name).value.Scalar? && name !in EnumMap(r)
  {
    match FieldIndex(Fields(r), name)
    case None =>
    case Some(i) =>
      match Fields(r)[i].kind
      case Array(p, n) =>
      case Scalar(p) =>
        if name in EnumMap(r) {
          var x := FromInt(EnumMap(r)[name], IntValue(r, raw, i));
        }
      case Nested(q) =>
  }

  /** Field i is a scalar outside the `_map` table: its plain value. */
  lemma {:induction false} GetAttrPlain(r: RecordId, raw: seq<byte>, name: string, i: nat)
    requires |raw| == Size(r) && FieldIndex(Fields(r), name) == Some(i)
    requires Fields(r)[i].kind.Scalar? && name !in EnumMap(r)
    ensures GetAttr(r, raw, name) ==
      Success(Plain(DecodeNumber(Fields(r)[i].kind.prim, FieldBytes(r, raw, i))))
  {
  }

  /** Field i is a nested record: a mapping over its bytes. */
  lemma {:induction false} GetAttrNested(r: RecordId, raw: seq<byte>, name: string, i: nat)
    requires |raw| == Size(r) && FieldIndex(Fields(r), name) == Some(i)
    requires Fields(r)[i].kind.Nested? && name !in EnumMap(r)
    ensures GetAttr(r, raw, name) == Success(Mapping(Fields(r)[i].kind.record, FieldBytes(r, raw, i)))
  {
  }

  /** Field i is a c_char array: its text. */
  lemma {:induction false} GetAttrText(r: RecordId, raw: seq<byte>, name: string, i: nat)
    requires |raw| == Size(r) && FieldIndex(Fields(r), name) == Some(i)
    requires Fields(r)[i].kind.Array? && Fields(r)[i].kind.elem == Char
    ensures GetAttr(r, raw, name) == Success(Text(AsciiText(FieldBytes(r, raw, i))))
  {
  }

  /** Field i is a numeric array: its elements, decoded one after the other. */
  lemma {:induction false} GetAttrArray(r: RecordId, raw: seq<byte>, name: string, i: nat)
    requires |raw| == Size(r) && FieldIndex(Fields(r), name) == Some(i)
    requires Fields(r)[i].kind.Array? && Fields(r)[i].kind.elem != Char
    ensures GetAttr(r, raw, name) ==
      Success(Numbers(ArrayElems(Fields(r)[i].kind.elem, Fields(r)[i].kind.count, FieldBytes(r, raw, i))))
  {
  }

  /** A name in the `_map` table is an unsigned-byte field: the enumeration member whose
      integer is the field's value, or ValueError when no member has that integer. */
  lemma {:induction false} GetAttrEnum(r: RecordId, raw: seq<byte>, name: string, i: nat)
    requires |raw| == Size(r) && FieldIndex(Fields(r), name) == Some(i)
    requires name in EnumMap(r)
    ensures Fields(r)[i].kind == Scalar(UByte)
    ensures GetAttr(r, raw, name).Success? <==> IntValue(r, raw, i) in Values(EnumMap(r)[name])
    ensures GetAttr(r, raw, name).Failure? ==> GetAttr(r, raw, name).error == ValueError
    ensures GetAttr(r, raw, name).Success? ==>
      GetAttr(r, raw, name).value.Enum?
      && GetAttr(r, raw, name).value.member.Type() == EnumMap(r)[name]
      && GetAttr(r, raw, name).value.member.ToInt() == IntValue(r, raw, i)
  {
    EnumMapFieldsAreBytes(r, name);
    EnumBranch(r, raw, name, i);
  }

  /** The enumeration branch of the mapper decides a `_map` field's value. */
  lemma {:induction false} EnumBranch(r: RecordId, raw: seq<byte>, name: string, i: nat)
    requires |raw| == Size(r) && FieldIndex(Fields(r), name) == Some(i)
    requires name in EnumMap(r) && Fields(r)[i].kind.Scalar?
    ensures GetAttr(r, raw, name) ==
      match FromInt(EnumMap(r)[name], IntValue(r, raw, i))
      case Some(e) => Success(Enum(e))
      case None => Failure(ValueError)
  {
  }
}
