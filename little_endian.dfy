/** Signed 16-bit little-endian samples, as read by `DataView.getInt16(offset, true)`. */
module LittleEndian {
  import opened Blobs

  /** The value range of an element of an Int16Array. */
  type Int16 = x: int | -0x8000 <= x < 0x8000

  /** The two's-complement value of the 16-bit word whose low byte is `lo` and high byte is `hi`. */
  function LE16(lo: Byte, hi: Byte): (x: Int16)
    ensures x < 0 <==> hi >= 0x80
    ensures x == lo + 0x100 * hi || x == lo + 0x100 * hi - 0x1_0000
  {
    var word := lo + 0x100 * hi;
    if word < 0x8000 then word else word - 0x1_0000
  }

  /** The low and high byte of the two's-complement encoding of `x`: the inverse of LE16. */
  function EncodeLE16(x: Int16): (Byte, Byte)
  {
    var word := if x < 0 then x + 0x1_0000 else x;
    (word % 0x100, word / 0x100)
  }

  /** Decoding an encoded sample gives the sample back. */
  lemma DecodeEncode(x: Int16)
    ensures LE16(EncodeLE16(x).0, EncodeLE16(x).1) == x
  {
  }

  /** Encoding a decoded word gives its two bytes back, so LE16 is one-to-one. */
  lemma EncodeDecode(lo: Byte, hi: Byte)
    ensures EncodeLE16(LE16(lo, hi)) == (lo, hi)
  {
  }

  /** The sample whose two bytes start at `pos`. */
  function Int16At(bytes: seq<Byte>, pos: nat): Int16
    requires pos + 2 <= |bytes|
  {
    LE16(bytes[pos], bytes[pos + 1])
  }

  /** The outcome of `DataView.getInt16(offset, true)`: a sample, or the RangeError it throws. */
  datatype Int16Read = Read(value: Int16) | RangeError

  /** `DataView.getInt16(offset, true)` over the whole of `view`: it throws once the word would end past the view. */
  function GetInt16(view: array<Byte>, offset: nat): (r: Int16Read)
    reads view
    ensures r.RangeError? <==> offset + 2 > view.Length
    ensures r.Read? ==> r.value == Int16At(view[..], offset)
  {
    if offset + 2 <= view.Length then Read(LE16(view[offset], view[offset + 1])) else RangeError
  }
}
