/** types.go: the InstrumentType column type and its nullable variant, as the
    SQL driver reads (Scan) and writes (Value) them. A Go string is a byte
    string; here each byte is one character. */
module DbTypes {

  /** The InstrumentType constants. */
  const CE: string := "CE"
  const PE: string := "PE"
  const FUT: string := "FUT"

  lemma ConstantsDistinct()
    ensures CE != PE && PE != FUT && CE != FUT
    ensures |CE| == 2 && |PE| == 2 && |FUT| == 3
  {
    assert CE[0] != PE[0];
  }

  newtype Byte = x: int | 0 <= x < 256

  /** What the driver passes to Scan and receives from Value: NULL, a byte
      slice, a string, or anything else. */
  datatype DriverValue = Null | Bytes(data: seq<Byte>) | Text(s: string) | Other

  /** string(b): one character per byte. */
  function BytesToString(b: seq<Byte>): (s: string)
    ensures |s| == |b| && forall i :: 0 <= i < |b| ==> s[i] as int == b[i] as int
  {
    seq(|b|, i requires 0 <= i < |b| => (b[i] as int) as char)
  }

  predicate IsByteString(s: string)
  {
    forall i :: 0 <= i < |s| ==> s[i] as int < 256
  }

  /** []byte(s) for a string of bytes. */
  function StringToBytes(s: string): (b: seq<Byte>)
    requires IsByteString(s)
    ensures |b| == |s| && forall i :: 0 <= i < |s| ==> b[i] as int == s[i] as int
  {
    seq(|s|, i requires 0 <= i < |s| => (s[i] as int) as Byte)
  }

  /** Reading bytes as a string loses nothing. */
  lemma BytesRoundTrip(b: seq<Byte>)
    ensures IsByteString(BytesToString(b)) && StringToBytes(BytesToString(b)) == b
  {
    var s := BytesToString(b);
    assert IsByteString(s);
    var c := StringToBytes(s);
    forall i | 0 <= i < |b| ensures c[i] == b[i] {
      assert c[i] as int == b[i] as int;
    }
  }

  /** InstrumentType.Scan: the value must be a byte slice (any other value
      fails the type assertion and panics). */
  function ScanInstrumentType(v: DriverValue): (t: string)
    requires v.Bytes?
    ensures IsByteString(t) && StringToBytes(t) == v.data
  {
    BytesRoundTrip(v.data);
    BytesToString(v.data)
  }

  /** NullableInstrumentType.Scan: NULL gives an empty, invalid type; a
      byte slice gives that string, valid. */
  function NullableScan(v: DriverValue): (r: (string, bool))
    requires v.Null? || v.Bytes?
    ensures r.1 <==> v.Bytes?
    ensures !r.1 ==> r.0 == ""
    ensures r.1 ==> IsByteString(r.0) && StringToBytes(r.0) == v.data
  {
    if v.Null? then ("", false) else (ScanInstrumentType(v), true)
  }

  /** NullableInstrumentType.Value: nil when not valid, the string otherwise. */
  function NullableValue(t: string, valid: bool): (r: DriverValue)
    ensures r.Null? <==> !valid
    ensures valid ==> r.Text? && r.s == t
  {
    if !valid then Null else Text(t)
  }

  /** Writing back what was read gives NULL for NULL and the same bytes, as
      a string, for a byte slice. */
  lemma NullableRoundTrip(v: DriverValue)
    requires v.Null? || v.Bytes?
    ensures var w := NullableValue(NullableScan(v).0, NullableScan(v).1);
            (v.Null? <==> w.Null?) && (v.Bytes? ==> w.Text? && IsByteString(w.s) && StringToBytes(w.s) == v.data)
  {
  }

  /** *InstrumentType: the column value a Scan writes through. */
  class InstrumentTypeCell {
    var value: string

    constructor (t: string)
      ensures value == t
    {
      value := t;
    }

    /** Scan: store the bytes as the type's string. */
    method Scan(v: DriverValue)
      requires v.Bytes?
      modifies this
      ensures value == ScanInstrumentType(v)
      ensures Value().Text? && StringToBytes(Value().s) == v.data
    {
      value := BytesToString(v.data);
    }

    /** Value: the type as a driver string. */
    function Value(): DriverValue
      reads this
    {
      Text(value)
    }
  }

  /** *NullableInstrumentType: the struct a Scan writes through. */
  class NullableInstrumentType {
    var instrumentType: string
    var valid: bool

    constructor ()
      ensures instrumentType == "" && !valid
    {
      instrumentType := "";
      valid := false;
    }

    /** Scan: NULL clears the type and marks it invalid; bytes set it. */
    method Scan(v: DriverValue)
      requires v.Null? || v.Bytes?
      modifies this
      ensures (instrumentType, valid) == NullableScan(v)
      ensures v.Null? ==> Value() == Null
      ensures v.Bytes? ==> Value().Text? && StringToBytes(Value().s) == v.data
    {
      if v == Null {
        instrumentType, valid := "", false;
      } else {
        instrumentType, valid := ScanInstrumentType(v), true;
      }
      NullableRoundTrip(v);
    }

    /** Value: nil when not valid. */
    function Value(): DriverValue
      reads this
    {
      NullableValue(instrumentType, valid)
    }
  }
}
