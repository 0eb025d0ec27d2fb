/**
 * The byte layout of a pixel buffer: four bytes per pixel in the order
 * red, green, blue, alpha, pixels in storage order. This is both what the
 * image decoder hands to the sprite constructor (four channels requested)
 * and the memory layout of an array of `Pixel` structs.
 */
module ByteLayout {
  import opened Pixels

  /** The conversion loop of the image constructor: pixel `i` is built from
      bytes `4i` .. `4i+3`. */
  function DecodeRgba(bytes: seq<Channel>): (ps: seq<Pixel>)
    requires |bytes| % 4 == 0
    ensures 4 * |ps| == |bytes|
    ensures forall i :: 0 <= i < |ps| ==>
              ps[i] == Rgba(bytes[4 * i], bytes[4 * i + 1], bytes[4 * i + 2], bytes[4 * i + 3])
    decreases |bytes|
  {
    if |bytes| == 0 then []
    else [Rgba(bytes[0], bytes[1], bytes[2], bytes[3])] + DecodeRgba(bytes[4..])
  }

  /** The bytes of a pixel array, channel by channel. */
  function EncodeRgba(ps: seq<Pixel>): (bytes: seq<Channel>)
    ensures |bytes| == 4 * |ps|
    ensures forall i :: 0 <= i < |ps| ==>
              && bytes[4 * i] == ps[i].r && bytes[4 * i + 1] == ps[i].g
              && bytes[4 * i + 2] == ps[i].b && bytes[4 * i + 3] == ps[i].a
  {
    if |ps| == 0 then []
    else [ps[0].r, ps[0].g, ps[0].b, ps[0].a] + EncodeRgba(ps[1..])
  }

  /** Decoding the bytes of a pixel array gives the array back. */
  lemma {:induction false} DecodeEncode(ps: seq<Pixel>)
    ensures DecodeRgba(EncodeRgba(ps)) == ps
  {
    var back := DecodeRgba(EncodeRgba(ps));
    assert |back| == |ps|;
    forall i | 0 <= i < |ps|
      ensures back[i] == ps[i]
    {
    }
  }

  /** Encoding the decoded pixels gives every byte back. */
  lemma {:induction false} EncodeDecode(bytes: seq<Channel>)
    requires |bytes| % 4 == 0
    ensures EncodeRgba(DecodeRgba(bytes)) == bytes
    decreases |bytes|
  {
    if |bytes| > 0 {
      EncodeDecode(bytes[4..]);
      assert bytes == bytes[..4] + bytes[4..];
    }
  }
}
