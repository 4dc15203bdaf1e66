/** Writing into a byte buffer in place. */
module Buffers {
  import opened Bytes

  /** `field.copy(data, offset)`: the bytes before and behind the field stay. */
  method CopyInto(data: array<Byte>, offset: nat, field: seq<Byte>)
    requires offset + |field| <= data.Length
    modifies data
    ensures data[..] == old(data[..offset]) + field + old(data[offset + |field|..])
  {
    var i := 0;
    while i < |field|
      invariant 0 <= i <= |field|
      invariant data[..offset] == old(data[..offset])
      invariant data[offset..offset + i] == field[..i]
      invariant data[offset + i..] == old(data[offset + i..])
    {
      data[offset + i] := field[i];
      i := i + 1;
    }
    assert field[..i] == field;
    assert data[..] == data[..offset] + data[offset..offset + i] + data[offset + i..];
  }
}
