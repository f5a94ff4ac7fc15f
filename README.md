# Volca Sample descriptor builder

A Dafny model of the descriptor builder of `syrostream-rs`, a Rust wrapper
around Korg's "syro" engine. The engine turns mono 16-bit PCM audio into a
modulated stereo stream that loads the audio into one of the 100 sample slots of
a Volca Sample.

The builder, `prepare_syrodata`, works in three steps:

- It checks the destination slot against `MAX_SLOT` (99). A larger slot fails
  with `SyroError::InvalidSlot(slot)`, before the audio is touched.
- It frames the `i16` samples as a flat little-endian byte payload.
- It fills one `SyroData` job descriptor. The descriptor has these fields:
  - job kind: compressed single sample;
  - payload and byte count (`Size`);
  - slot (`Number`);
  - quality: 16;
  - sample rate (`Fs`);
  - byte order: little endian.

The model has three modules:

- `FixedWidth` (`fixed_width.dfy`) holds the Rust integer types as bounded
  `int` subsets. It also holds two's-complement reading of `i16` and the
  truncating `usize as u32` cast.
- `LeBytes` (`le_bytes.dfy`) holds `to_le_bytes` and the
  `flat_map(to_le_bytes)` framing. Beside them is a decoder that reads the
  payload back as signed samples. Round trips are proved in both directions.
- `Syro` (`syro.dfy`) holds `SyroError`, the `SyroData` descriptor and
  `PrepareSyroData`, with lemmas on the slot check, payload layout and `Size`.

The code is pure, so every operation is a function and every property is a
postcondition or a lemma.

Two points of the code are modelled as written:

- The builder accepts an empty audio buffer. It gives an empty payload with
  `Size` 0.
- `bytes.len() as u32` is an unchecked cast. `Size` is the payload length
  modulo 2^32. It equals the payload length below 2^31 samples
  (`SizeMatchesPayload`) and wraps to 0 at exactly 2^31 samples
  (`SizeWrapsAtFourGiB`).

## Model

| member | source | states |
|---|---|---|
| `FixedWidth.ToTwosComplement` | src/lib.rs:44 | the 16-bit pattern of a sample equals the sample when it is non-negative, and equals the sample plus 2^16 (with the top bit set) when it is negative |
| `FixedWidth.FromTwosComplement` | src/lib.rs:44 | reading a 16-bit pattern as signed gives the one `i16` whose two's-complement pattern it is |
| `FixedWidth.TwosComplementRoundTrip` | src/lib.rs:44 | two's-complement encoding followed by decoding is the identity on `i16` |
| `FixedWidth.UsizeAsU32` | src/lib.rs:51 | the `as u32` cast keeps a length below 2^32 unchanged and otherwise differs from it by a multiple of 2^32 |
| `LeBytes.ToLeBytes` | src/lib.rs:44 | `to_le_bytes` gives exactly two bytes; low byte plus 256 times high byte is the sample's two's-complement pattern |
| `LeBytes.FromLeBytes` | src/lib.rs:44 | a byte pair read as a signed sample has the pattern low + 256 * high |
| `LeBytes.SampleRoundTrip` | src/lib.rs:44 | decoding the two little-endian bytes of a sample gives the sample back |
| `LeBytes.BytePairRoundTrip` | src/lib.rs:44 | every byte pair is the little-endian encoding of the sample it decodes to |
| `LeBytes.FlatLeBytes` | src/lib.rs:42-45 | the framed payload has exactly two bytes per sample |
| `LeBytes.FlatLeBytesAt` | src/lib.rs:42-45 | byte 2i of the payload is the low byte and byte 2i+1 the high byte of sample i |
| `LeBytes.FlatLeBytesAppend` | src/lib.rs:42-45 | framing keeps sample order: the framing of a concatenation is the concatenation of the framings |
| `LeBytes.DecodeLe` | src/lib.rs:44 | decoding an even-length payload gives one sample per two bytes |
| `LeBytes.DecodeLeAt` | src/lib.rs:44 | decoded sample i is bytes 2i and 2i+1 read as a signed little-endian 16-bit value |
| `LeBytes.DecodeFlatLeBytes` | src/lib.rs:42-45 | decoding the framed payload gives back the input samples |
| `LeBytes.FlatLeBytesDecode` | src/lib.rs:42-45 | every even-length payload is the framing of its decoding, so framing is a bijection onto even-length byte sequences |
| `Syro.PrepareSyroData` | src/lib.rs:33-56 | fails exactly when the slot exceeds 99, with `InvalidSlot` carrying that slot; on success the payload decodes back to the audio with two bytes per sample, `Size` is its length cast to `u32`, and the descriptor carries the slot, the (non-zero) rate, quality 16, compressed-sample kind and little-endian order |
| `Syro.OutcomeDependsOnlyOnSlot` | src/lib.rs:38-42 | success or failure, and the error, depend on the slot alone, never on the audio or the rate |
| `Syro.PayloadLayout` | src/lib.rs:42-47 | for a valid slot, payload bytes 2i and 2i+1 are the low and high byte of sample i's two's-complement pattern, and read back as sample i |
| `Syro.SizeMatchesPayload` | src/lib.rs:42-51 | below 2^31 samples, `Size` equals the payload length, which is twice the sample count |
| `Syro.SizeWrapsAtFourGiB` | src/lib.rs:51 | at exactly 2^31 samples the payload has 2^32 bytes and the unchecked cast makes `Size` zero |
| `Syro.PayloadExamples` | src/lib.rs:64 | samples `[1, 2, 3]` give payload `[1, 0, 2, 0, 3, 0]`; samples `[-1, -32768]` give `[0xFF, 0xFF, 0x00, 0x80]` |

## Left out

- The `encode` session (start, pull each frame, end) is left out. In the source it is only a commented-out stub, so there is no behaviour to model. The `VolcaSampleStart`, `VolcaSampleGetSample` and `VolcaSampleEnd` error variants are declared but nothing produces them.
- The raw pointer `pData` and its lifetime are left out. The payload is held by value in the `data` field.
- `SyroStatus` values are left out. The status is an opaque `u32` code that this layer never interprets.
- The `SyroDataType` and `Endian` constructors follow the engine's C header. The engine and its Rust bindings are not part of this model.
- The `thiserror` display strings are left out. They only format messages.
- The native build script (`syro-sys/build.rs`) is left out. It only compiles the vendored C engine.
