/** The descriptor builder of the Volca Sample encoder: it validates the
    destination slot and packages mono 16-bit audio into the job descriptor
    (`SyroData`) that the external encoding engine consumes. */
module Syro {
  import opened FixedWidth
  import opened LeBytes

  /** Highest sample slot of the hardware (`MAX_SLOT`); slots are 0 through 99. */
  const MaxSlot: u32 := 99

  /** Compression quality, in bits, requested for every job (`COMPRESSION_QUALITY`). */
  const CompressionQuality: u32 := 16

  /** Raw status code returned by the engine; this layer never interprets it. */
  type SyroStatus = u32

  /** Kind of job in a descriptor (the engine's `SyroDataType`). */
  datatype SyroDataType =
    | SampleLiner
    | SampleCompress
    | SampleErase
    | SampleAll
    | SampleAllCompress
    | Pattern

  /** Byte order of the sample data in a descriptor (the engine's `Endian`). */
  datatype Endian = LittleEndian | BigEndian

  /** Errors of the encoder (`SyroError`): a rejected slot, or an engine phase that failed. */
  datatype SyroError =
    | InvalidSlot(slot: u32)
    | VolcaSampleStart(status: SyroStatus)
    | VolcaSampleGetSample(status: SyroStatus)
    | VolcaSampleEnd(status: SyroStatus)

  datatype Result<T> = Ok(value: T) | Err(error: SyroError)

  /** One encode job (`SyroData`); the payload is held by value where the engine
      receives a pointer (`pData`) and a byte count (`Size`). */
  datatype SyroData = SyroData(
    dataType: SyroDataType,
    data: seq<u8>,
    number: u32,
    size: u32,
    quality: u32,
    fs: u32,
    sampleEndian: Endian
  )

  /** `prepare_syrodata`: rejects a slot above `MaxSlot` before touching the audio;
      otherwise frames the samples as little-endian bytes and describes one
      compressed-sample job for the slot at the given rate. */
  function PrepareSyroData(srcAudio: seq<i16>, srcRate: NonZeroU32, dstSlot: u32): (r: Result<SyroData>)
    ensures r.Err? <==> dstSlot > MaxSlot
    ensures r.Err? ==> r.error == InvalidSlot(dstSlot)
    ensures r.Ok? ==> (r.value.dataType == SampleCompress
                       && r.value.quality == CompressionQuality
                       && r.value.sampleEndian == LittleEndian)
    ensures r.Ok? ==> r.value.number == dstSlot && r.value.fs == srcRate && r.value.fs > 0
    ensures r.Ok? ==> |r.value.data| == 2 * |srcAudio| && DecodeLe(r.value.data) == srcAudio
    ensures r.Ok? ==> r.value.size == UsizeAsU32(|r.value.data|)
  {
    if dstSlot > MaxSlot then
      Err(InvalidSlot(dstSlot))
    else
      var bytes := FlatLeBytes(srcAudio);
      DecodeFlatLeBytes(srcAudio);
      Ok(SyroData(
        dataType := SampleCompress,
        data := bytes,
        number := dstSlot,
        size := UsizeAsU32(|bytes|),
        quality := CompressionQuality,
        fs := srcRate,
        sampleEndian := LittleEndian
      ))
  }

  /** Whether the builder fails, and with which error, depends on the slot alone:
      the audio and the rate cannot influence the outcome of the slot check. */
  lemma OutcomeDependsOnlyOnSlot(a1: seq<i16>, rate1: NonZeroU32, a2: seq<i16>, rate2: NonZeroU32, slot: u32)
    ensures PrepareSyroData(a1, rate1, slot).Err? == PrepareSyroData(a2, rate2, slot).Err?
    ensures PrepareSyroData(a1, rate1, slot).Err? ==>
              PrepareSyroData(a1, rate1, slot).error == PrepareSyroData(a2, rate2, slot).error
  {
  }

  /** Layout of the payload: bytes `2i` and `2i+1` are the low and the high byte of
      the two's-complement pattern of sample `i`, and read back as sample `i`. */
  lemma PayloadLayout(srcAudio: seq<i16>, srcRate: NonZeroU32, dstSlot: u32, i: nat)
    requires dstSlot <= MaxSlot && i < |srcAudio|
    ensures PrepareSyroData(srcAudio, srcRate, dstSlot).Ok?
    ensures var data := PrepareSyroData(srcAudio, srcRate, dstSlot).value.data;
      && data[2 * i] == ToTwosComplement(srcAudio[i]) % U8_LIMIT
      && data[2 * i + 1] == ToTwosComplement(srcAudio[i]) / U8_LIMIT
      && FromLeBytes(data[2 * i], data[2 * i + 1]) == srcAudio[i]
  {
    FlatLeBytesAt(srcAudio, i);
    SampleRoundTrip(srcAudio[i]);
  }

  /** Below 2^31 samples the `Size` field is exactly the payload length, two bytes per sample. */
  lemma SizeMatchesPayload(srcAudio: seq<i16>, srcRate: NonZeroU32, dstSlot: u32)
    requires dstSlot <= MaxSlot && 2 * |srcAudio| < U32_LIMIT
    ensures var d := PrepareSyroData(srcAudio, srcRate, dstSlot).value;
      d.size as int == |d.data| == 2 * |srcAudio|
  {
  }

  /** The `as u32` cast is not checked: at exactly 2^31 samples the payload holds
      2^32 bytes and the `Size` field wraps round to zero. */
  lemma SizeWrapsAtFourGiB(srcAudio: seq<i16>, srcRate: NonZeroU32, dstSlot: u32)
    requires dstSlot <= MaxSlot && 2 * |srcAudio| == U32_LIMIT
    ensures var d := PrepareSyroData(srcAudio, srcRate, dstSlot).value;
      |d.data| == U32_LIMIT && d.size == 0
  {
  }

  /** The samples `[1, 2, 3]` become the payload `[1, 0, 2, 0, 3, 0]`, and negative
      samples are framed in two's complement. */
  lemma PayloadExamples()
    ensures PrepareSyroData([1, 2, 3], 44100, 0).value.data == [1, 0, 2, 0, 3, 0]
    ensures PrepareSyroData([-1, -0x8000], 44100, MaxSlot).value.data == [0xFF, 0xFF, 0x00, 0x80]
  {
  }
}
