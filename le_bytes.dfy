/** Little-endian byte framing of 16-bit samples: `i16::to_le_bytes`, the
    `flat_map(to_le_bytes)` that turns a sample buffer into a byte payload, and
    the decoder that reads the payload back as signed 16-bit samples. */
module LeBytes {
  import opened FixedWidth

  /** `x.to_le_bytes()`: low byte first, then high byte, of the two's-complement pattern. */
  function ToLeBytes(x: i16): (b: seq<u8>)
    ensures |b| == 2
    ensures b[0] + U8_LIMIT * b[1] == ToTwosComplement(x)
  {
    var u := ToTwosComplement(x);
    [u % U8_LIMIT, u / U8_LIMIT]
  }

  /** `i16::from_le_bytes([lo, hi])`: the pair read as an unsigned 16-bit value, then as signed. */
  function FromLeBytes(lo: u8, hi: u8): (x: i16)
    ensures ToTwosComplement(x) == lo + U8_LIMIT * hi
  {
    FromTwosComplement(lo + U8_LIMIT * hi)
  }

  /** Decoding the two bytes of a sample gives the sample back. */
  lemma SampleRoundTrip(x: i16)
    ensures FromLeBytes(ToLeBytes(x)[0], ToLeBytes(x)[1]) == x
  {
  }

  /** Every byte pair is the encoding of exactly one sample. */
  lemma BytePairRoundTrip(lo: u8, hi: u8)
    ensures ToLeBytes(FromLeBytes(lo, hi)) == [lo, hi]
  {
  }

  /** `samples.iter().flat_map(|&s| s.to_le_bytes()).collect()`. */
  function FlatLeBytes(samples: seq<i16>): (bytes: seq<u8>)
    ensures |bytes| == 2 * |samples|
  {
    if |samples| == 0 then [] else ToLeBytes(samples[0]) + FlatLeBytes(samples[1..])
  }

  /** Byte `2i` of the payload is the low byte and byte `2i+1` the high byte of sample `i`. */
  lemma {:induction false} FlatLeBytesAt(samples: seq<i16>, i: nat)
    requires i < |samples|
    ensures FlatLeBytes(samples)[2 * i] == ToLeBytes(samples[i])[0]
    ensures FlatLeBytes(samples)[2 * i + 1] == ToLeBytes(samples[i])[1]
  {
    if i > 0 {
      FlatLeBytesAt(samples[1..], i - 1);
    }
  }

  /** Framing preserves sample order: it distributes over concatenation. */
  lemma {:induction false} FlatLeBytesAppend(a: seq<i16>, b: seq<i16>)
    ensures FlatLeBytes(a + b) == FlatLeBytes(a) + FlatLeBytes(b)
  {
    if |a| == 0 {
      assert a + b == b;
    } else {
      assert (a + b)[1..] == a[1..] + b;
      FlatLeBytesAppend(a[1..], b);
    }
  }

  /** Reads an even-length byte payload back as little-endian signed samples. */
  function DecodeLe(bytes: seq<u8>): (samples: seq<i16>)
    requires |bytes| % 2 == 0
    ensures 2 * |samples| == |bytes|
  {
    if |bytes| == 0 then [] else [FromLeBytes(bytes[0], bytes[1])] + DecodeLe(bytes[2..])
  }

  /** Sample `i` of the decoding is bytes `2i` and `2i+1` read as a signed 16-bit value. */
  lemma {:induction false} DecodeLeAt(bytes: seq<u8>, i: nat)
    requires |bytes| % 2 == 0 && 2 * i < |bytes|
    ensures DecodeLe(bytes)[i] == FromLeBytes(bytes[2 * i], bytes[2 * i + 1])
  {
    if i > 0 {
      DecodeLeAt(bytes[2..], i - 1);
    }
  }

  /** Round trip: decoding the framed payload gives back the samples. */
  lemma {:induction false} DecodeFlatLeBytes(samples: seq<i16>)
    ensures DecodeLe(FlatLeBytes(samples)) == samples
  {
    if |samples| > 0 {
      var bytes := FlatLeBytes(samples);
      assert bytes[2..] == FlatLeBytes(samples[1..]);
      SampleRoundTrip(samples[0]);
      DecodeFlatLeBytes(samples[1..]);
    }
  }

  /** Round trip the other way: every even-length payload is the framing of its decoding. */
  lemma {:induction false} FlatLeBytesDecode(bytes: seq<u8>)
    requires |bytes| % 2 == 0
    ensures FlatLeBytes(DecodeLe(bytes)) == bytes
  {
    if |bytes| > 0 {
      var samples := DecodeLe(bytes);
      assert samples[1..] == DecodeLe(bytes[2..]);
      BytePairRoundTrip(bytes[0], bytes[1]);
      FlatLeBytesDecode(bytes[2..]);
      assert bytes == [bytes[0], bytes[1]] + bytes[2..];
    }
  }
}
