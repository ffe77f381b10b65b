/** What the field mapper gives for the sub-record fields both file formats read: the pixel
    range of a measurement configuration, the serial of an identity and the packed date of
    the miscellaneous block. */
module RecordFields {
  import opened Wrappers
  import opened Bytes
  import opened AvaTypes
  import opened StructMapping

  /** `Measurement.StartPixel`: the c_uint16 at offset 0 of a MeasConfig. */
  lemma {:induction false} StartPixelField(m: seq<byte>)
    requires |m| == Size(MeasConfig)
    ensures GetAttr(MeasConfig, m, "StartPixel") == Success(Plain(Int(U16At(m, 0))))
  {
    assert FieldBytes(MeasConfig, m, 0) == m[0..2];
    FieldNamed(MeasConfig, 0);
    GetAttrPlain(MeasConfig, m, "StartPixel", 0);
  }

  /** `Measurement.StopPixel`: the c_uint16 at offset 2 of a MeasConfig. */
  lemma {:induction false} StopPixelField(m: seq<byte>)
    requires |m| == Size(MeasConfig)
    ensures GetAttr(MeasConfig, m, "StopPixel") == Success(Plain(Int(U16At(m, 2))))
  {
    assert OffsetOf(MeasConfig, 1) == 2;
    assert FieldBytes(MeasConfig, m, 1) == m[2..4];
    FieldNamed(MeasConfig, 1);
    GetAttrPlain(MeasConfig, m, "StopPixel", 1);
  }

  /** `ID.SerialNumber`: the text of the c_char[10] at offset 0 of an Identity. */
  lemma {:induction false} SerialNumberField(id: seq<byte>)
    requires |id| == Size(Identity)
    ensures GetAttr(Identity, id, "SerialNumber") == Success(Text(AsciiText(id[0..SerialLength])))
  {
    assert FieldBytes(Identity, id, 0) == id[0..SerialLength];
    FieldNamed(Identity, 0);
    GetAttrText(Identity, id, "SerialNumber", 0);
  }

  /** `Misc.file_datetime`: the c_uint32 at offset 0 of a MiscInfo. */
  lemma {:induction false} FileDatetimeField(misc: seq<byte>)
    requires |misc| == Size(MiscInfo)
    ensures GetAttr(MiscInfo, misc, "file_datetime") == Success(Plain(Int(U32At(misc, 0))))
  {
    assert FieldBytes(MiscInfo, misc, 0) == misc[0..4];
    FieldNamed(MiscInfo, 0);
    GetAttrPlain(MiscInfo, misc, "file_datetime", 0);
  }
}
