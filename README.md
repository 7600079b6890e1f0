# WAV recorder and MP3 worker, modelled in Dafny

This project models the two stateful cores of a browser audio recorder that captures microphone audio as WAV and converts it to MP3.

- **The MP3 worker** (`Mp3Worker`, `mp3_worker.dfy`) models `wavBlobToMp3Blob`.
  - Input: the bytes of the WAV blob and the fields of its parsed header (channel count, sample rate, data offset).
  - It creates `leftChannel` and `rightChannel` as Int16Arrays whose length is the truncated number of frames.
  - Its loop walks the payload in strides of `2 * channels` bytes and reads little-endian signed 16-bit words with `DataView.getInt16`. It stores the first word of each frame in the left channel, and the second word in the right channel for stereo.
  - A read past the end of the buffer throws a RangeError, which `Deinterleave` reports as a flag.
  - A store past the end of an Int16Array is ignored.
  - The encoder is a function parameter. It gets both arrays, the zero right channel included for mono.
  - The output is a Uint8Array filled by two `set` calls, main output then flush output, wrapped in an `audio/mp3` blob.
  - `Interleave` is the inverse of de-interleaving. Two round-trip lemmas connect them in both directions.
- **The WAV recorder hook** (`WavRecorder`, `wav_recorder.dfy`) is the class `WavAudioRecorder`.
  - Its fields are the refs `mediaRecorder`, `chunks` and `stream`, the `recording` state, and the two listeners of the most recent recorder.
  - Its methods are `getStream`, `closeStream`, `dataAvailableHandler`, `stopHandler`, `startRecording` and `stopRecording`, plus two methods that let the recorder fire its events.
  - Callbacks (`onComplete`, `onNotSupportedError`, `onNoPermissionError`, `onOtherError`) and the calls made on the platform (start, stop, stopping the tracks) are appended, in order, to the field `effects`.
  - Scenario methods state the outcome of whole sessions.
- **Shared definitions**: `Blobs` (`blobs.dfy`) holds bytes, blobs and joining chunks. `LittleEndian` (`little_endian.dfy`) holds the 16-bit word codec.

Behaviour of the code worth noting:

- **Payload that is not a whole number of frames.** The loop enters the trailing partial frame.
  - `getInt16` throws a RangeError when one byte remains, and for stereo whenever the partial frame exists.
  - For one or two channels this happens exactly when the payload length is not a multiple of `2 * channels` (`ThrowsIffRagged`).
  - For three or more channels, a partial frame of at least two bytes is read. Its store lands past the end of the array and is ignored.
- **Channel length.** The source halves the payload length and divides by the channel count in floating point, and the Int16Array constructor truncates that quotient once. The channel length is therefore `floor(payload / (2 * channels))`, which the model computes with two integer divisions (`HalveThenSplit`, `ChannelLengthIsQuotient`).
- **Mono right channel.** For mono, the zero-filled right channel is still passed to the encoder.
- **Acquisition failures.** Every failure to acquire the stream reports `onNoPermissionError`, whatever the cause. No acquisition failure reports `onOtherError`.
- **Stale stream reuse.** The stream ref is never cleared. If `getUserMedia` were to disappear between two sessions, a start after the earlier session would report "not supported" and then call `start(100)` on a recorder over the old, stopped stream (`RestartWithoutSupport`). A page's `getUserMedia` does not normally come and go, so this case arises only if the API disappears between sessions.
- **Unreachable fallback.** `startRecording` tests the ref object `stream`, which is always truthy. Its fallback branch (useWavAudioRecorder.ts lines 87-90) is unreachable, and the model always creates the recorder.
- **Chunks after stop.** `stopRecording` detaches the data handler right after calling `stop()`. A chunk the recorder delivers afterwards is dropped (`RecordSession`, parameter `late`).

## Model

| member | source | states |
|---|---|---|
| Blobs.NonEmpty | src/useWavAudioRecorder.ts:49-51 | the chunks kept by the data handler are never empty and are no more than those delivered |
| Blobs.JoinConcat | src/useWavAudioRecorder.ts:58 | the bytes of a blob built from two runs of chunks are the bytes of the first run followed by those of the second |
| Blobs.JoinNonEmpty | src/useWavAudioRecorder.ts:49-51 | dropping empty chunks loses no byte: the joined bytes are the same |
| Blobs.JoinEmptyIff | src/useWavAudioRecorder.ts:57-58 | joined chunks are empty exactly when every chunk is empty |
| Blobs.NonEmptyIsEmptyIff | src/useWavAudioRecorder.ts:57 | the kept chunks are none exactly when the delivered chunks hold no byte, so the stop handler completes exactly when data was delivered |
| LittleEndian.DecodeEncode | src/MP3Worker.ts:18 | reading back the little-endian encoding of a 16-bit sample gives the sample |
| LittleEndian.EncodeDecode | src/MP3Worker.ts:18 | encoding the word read from two bytes gives those bytes back |
| LittleEndian.LE16 | src/MP3Worker.ts:18 | the signed little-endian word of two bytes: `lo + 256 * hi`, less 65536 when the sign bit is set, negative exactly when the high byte is at least 0x80 |
| LittleEndian.GetInt16 | src/MP3Worker.ts:18-20 | `getInt16(offset, true)` throws a RangeError exactly when fewer than two bytes remain at the offset; otherwise it returns the word at the offset |
| Mp3Worker.FrameStartOffset | src/MP3Worker.ts:17 | after `k` strides the loop variable is `dataOffset + 2 * channels * k` |
| Mp3Worker.FramesDivMod | src/MP3Worker.ts:13-17 | counting whole strides is Euclidean division by the frame width, the remainder is the partial frame |
| Mp3Worker.ChannelLength | src/MP3Worker.ts:12-15 | each Int16Array is empty exactly when the payload is shorter than one frame |
| Mp3Worker.ChannelLengthIsQuotient | src/MP3Worker.ts:10-15 | each channel has `floor(payload / (2 * channels))` samples; the partial frame has `payload % (2 * channels)` bytes |
| Mp3Worker.HalveThenSplit | src/MP3Worker.ts:12-15 | two integer divisions, halving then dividing by the channel count, give the whole-frame count, and this is the floor of the real quotient `payload / 2 / channels` that the Int16Array constructor truncates once |
| Mp3Worker.FloorOfQuotient | src/MP3Worker.ts:12-14 | halving the payload and dividing by the channel count in real arithmetic, then truncating, gives the quotient by the frame width |
| Mp3Worker.ThrowsIffRagged | src/MP3Worker.ts:17-21 | for one or two channels the conversion throws exactly when the payload is not a multiple of the frame width |
| Mp3Worker.ReadsPastEnd | src/MP3Worker.ts:17-21 | the loop throws only when a partial frame exists: when one byte is left, or for stereo whenever a partial frame exists; for one or two channels exactly when a partial frame exists |
| Mp3Worker.FrameInside | src/MP3Worker.ts:17-20 | every whole frame lies inside the buffer |
| Mp3Worker.ChannelPrefix | src/MP3Worker.ts:18-20 | a channel prefix has one sample per frame counted |
| Mp3Worker.ChannelPrefixAt | src/MP3Worker.ts:18-20 | sample `k` of a channel prefix is the word at the lane's offset in frame `k`, which is inside the buffer |
| Mp3Worker.ChannelAt | src/MP3Worker.ts:18-20 | sample `k` of a channel is the signed little-endian word at offset `2 * lane` of frame `k` |
| Mp3Worker.LeftChannel | src/MP3Worker.ts:14-18 | what line 18 stores into `leftChannel`: one sample per whole frame |
| Mp3Worker.RightChannel | src/MP3Worker.ts:15-20 | what line 20 stores into `rightChannel`: one sample per whole frame, all zeros (the array as created on line 15) unless there are two channels |
| Mp3Worker.FrameWithin | src/MP3Worker.ts:17 | a frame starting no later than the end of the buffer is at most one past the whole frames |
| Mp3Worker.EndsOnFrame | src/MP3Worker.ts:17 | when the loop reaches exactly the end, it has visited every whole frame and nothing is left over |
| Mp3Worker.PartialFrame | src/MP3Worker.ts:17-21 | a frame that starts inside the buffer but does not fit is the trailing partial frame |
| Mp3Worker.LoopExit | src/MP3Worker.ts:17-23 | a loop that ends without throwing has run once per whole frame, plus once for a partial frame of two bytes or more, and the conversion does not throw |
| Mp3Worker.FrameStep | src/MP3Worker.ts:17-21 | where each loop iteration is: a whole frame, or the partial frame, and a read past the end means the conversion throws |
| Mp3Worker.StoreExtends | src/MP3Worker.ts:18-20 | storing the next sample extends the filled prefix of a channel by one |
| Mp3Worker.CopiedStep | src/MP3Worker.ts:18-20 | storing frame `k`'s words at index `k` turns arrays holding the first `k` samples of each channel into arrays holding the first `k + 1` |
| Mp3Worker.Store | src/MP3Worker.ts:18-20 | an Int16Array store inside the array replaces one element; past the end it changes nothing |
| Mp3Worker.CopiedAll | src/MP3Worker.ts:14-23 | once every whole frame is copied the arrays hold exactly the left and the right channel |
| Mp3Worker.CopyFrame | src/MP3Worker.ts:18-21 | one iteration throws exactly when a read runs past the buffer; otherwise it extends both channels by frame `k`'s samples; mono never writes the right channel |
| Mp3Worker.CopyFrames | src/MP3Worker.ts:16-23 | the loop throws exactly when the conversion reads past the end; otherwise the arrays hold the two channels and the loop ran once per whole frame plus once for a partial frame |
| Mp3Worker.Deinterleave | src/MP3Worker.ts:10-23 | both arrays have the whole-frame count as length; RangeError exactly when a read passes the end; otherwise left and right are the channels of the payload; mono's right channel is all zeros |
| Mp3Worker.SetBytes | src/MP3Worker.ts:32-33 | `set` replaces the bytes from the offset on and keeps the others |
| Mp3Worker.CombineOutput | src/MP3Worker.ts:31-33 | the output is as long as both encoder outputs, starts with the main output and ends with the flush output |
| Mp3Worker.Mp3Of | src/MP3Worker.ts:25-35 | the MP3 blob is typed `audio/mp3` and holds the encoder's main output then its flush output, for the encoder configured with the header's channels and sample rate at 256 kbps |
| Mp3Worker.WavBlobToMp3Blob | src/MP3Worker.ts:4-37 | the conversion fails with a RangeError exactly when de-interleaving reads past the buffer; otherwise it returns the MP3 blob of the encoded channels |
| Mp3Worker.Word | src/MP3Worker.ts:18 | a sample's two bytes read back as the sample |
| Mp3Worker.FrameBytes | src/MP3Worker.ts:17-21 | an interleaved frame is two bytes per channel |
| Mp3Worker.Interleave | src/MP3Worker.ts:17-21 | interleaving `n` samples per channel gives `2 * channels * n` bytes |
| Mp3Worker.InterleaveAt | src/MP3Worker.ts:17-21 | byte `r` of frame `k` of an interleaved payload is byte `r` of the frame built from sample `k` |
| Mp3Worker.InterleavedFrames | src/MP3Worker.ts:12-17 | an interleaved payload has one whole frame per sample and nothing left over |
| Mp3Worker.InterleavedWord | src/MP3Worker.ts:18-20 | in an interleaved payload the word of each lane of frame `k` encodes sample `k` of that channel |
| Mp3Worker.InterleavedSample | src/MP3Worker.ts:18-20 | de-interleaving an interleaved payload gives back sample `k` of each channel it carries |
| Mp3Worker.DeinterleaveInterleave | src/MP3Worker.ts:10-23 | a WAV buffer whose payload interleaves two channels converts without error and de-interleaves to those channels (zeros on the right for mono) |
| Mp3Worker.FramePosition | src/MP3Worker.ts:17 | every payload byte of a whole number of frames lies at some position of some whole frame |
| Mp3Worker.FrameByte | src/MP3Worker.ts:18-20 | re-encoding the words read at a frame's start gives back the frame's bytes |
| Mp3Worker.ReinterleavedByte | src/MP3Worker.ts:17-20 | re-interleaving the channels puts byte `r` of whole frame `k` back at the offset it was read from |
| Mp3Worker.WholeFramesFill | src/MP3Worker.ts:12-17 | a payload with no partial frame is exactly its whole frames |
| Mp3Worker.PayloadByte | src/MP3Worker.ts:18-20 | each payload byte is the matching byte of the re-interleaved channels |
| Mp3Worker.InterleaveDeinterleave | src/MP3Worker.ts:10-23 | when one- or two-channel de-interleaving succeeds, re-interleaving the channels gives back the whole payload: no byte is lost |
| WavRecorder.StreamAfter | src/useWavAudioRecorder.ts:28-43 | after `getStream` the slot is empty exactly when it was empty and no stream was granted; a changed slot holds the granted stream |
| WavRecorder.AcquisitionFails | src/useWavAudioRecorder.ts:70-79 | starting fails on acquisition exactly when `getUserMedia` rejects, or when it is missing and no stream is stored |
| WavRecorder.WavAudioRecorder.constructor | src/useWavAudioRecorder.ts:23-26 | a new hook is not recording, has no recorder, no chunks, no stream, and has reported nothing |
| WavRecorder.WavAudioRecorder.GetStream | src/useWavAudioRecorder.ts:28-43 | without `getUserMedia` it reports "not supported" and keeps the stream; a granted stream is stored; a rejection throws |
| WavRecorder.WavAudioRecorder.CloseStream | src/useWavAudioRecorder.ts:45-47 | the stored stream's tracks are stopped if there is a stream, and nothing else changes |
| WavRecorder.WavAudioRecorder.DataAvailableHandler | src/useWavAudioRecorder.ts:49-51 | a chunk with data is appended at the end; an empty chunk changes nothing |
| WavRecorder.WavAudioRecorder.StopHandler | src/useWavAudioRecorder.ts:53-62 | with data, `onComplete` gets one WAV blob of all chunks in order and the chunks are cleared; without data nothing happens |
| WavRecorder.WavAudioRecorder.StartRecording | src/useWavAudioRecorder.ts:64-91 | with a recorder installed it reports "already instantiated" and changes nothing; a failed acquisition reports "no permission" and installs nothing; otherwise a WAV recorder on the stored stream is installed, started with a 100 ms timeslice, and `recording` is set |
| WavRecorder.WavAudioRecorder.StopRecording | src/useWavAudioRecorder.ts:93-104 | with a recorder it stops it, detaches the data handler, stops the tracks and clears `recording` and the slot; without one it only reports "MediaRecorder unavailable"; line 97 registers the stop handler again instead of removing it, and since a repeated registration of the same listener is ignored, with callbacks fixed across renders the stop handler stays attached exactly once |
| WavRecorder.WavAudioRecorder.DeliverData | src/useWavAudioRecorder.ts:83 | a recorder event reaches the data handler only while it is attached |
| WavRecorder.WavAudioRecorder.DeliverStop | src/useWavAudioRecorder.ts:84 | a stop event runs the stop handler while it is attached |
| WavRecorder.Completion | src/useWavAudioRecorder.ts:57-60 | a session ends with at most one completion, present exactly when some chunk held data, and carrying all delivered bytes |
| WavRecorder.RecordSession | src/useWavAudioRecorder.ts:49-104 | a session started, fed, stopped and sent repeated stop events calls `onComplete` at most once, with every delivered byte in order; late chunks and redundant stop events leave no trace |
| WavRecorder.StartWhileRecording | src/useWavAudioRecorder.ts:66-69 | a second start reports "already instantiated" and leaves the first session recording on its stream |
| WavRecorder.StartWithoutStream | src/useWavAudioRecorder.ts:70-79 | a first start without a stream does not record; without `getUserMedia` both "not supported" and "no permission" are reported |
| WavRecorder.RestartWithoutSupport | src/useWavAudioRecorder.ts:29-42 | should `getUserMedia` disappear after a session, a later start reports "not supported" and calls `start(100)` on a recorder over the stopped stream of the earlier session, with `start` taken to return normally |
| WavRecorder.StopWithoutRecorder | src/useWavAudioRecorder.ts:101-103 | a stop with nothing started only reports "MediaRecorder unavailable" |

## Left out

- The WAV header parser (`readHeader`, src/MP3Worker.ts:8) is a foreign library call. Its channel count, sample rate and data offset are inputs. At least one channel and a data offset inside the buffer are preconditions.
- The MP3 encoder (src/MP3Worker.ts:25-29) is a foreign library. It is a function parameter from its configuration and both channels to its main and flush outputs, treated as bytes.
- Mp3Worker.CombineOutput: the encoder actually returns signed Int8Arrays, and `set` into a Uint8Array converts each value modulo 256. Treating the outputs as bytes leaves that conversion out.
- Reading the blob into an ArrayBuffer, the worker's message listener and `postMessage` (src/MP3Worker.ts:5, 39-43) are I/O. A thrown RangeError rejects the promise, so the worker posts no reply. The model stops at the RangeError.
- useWavToMp3Worker.ts (worker creation, the 60-second timeout, job concurrency) is not part of this model.
- Floating-point arithmetic: the sample count and the channel length are computed in floating point and truncated by the Int16Array constructor. The model computes them in exact real arithmetic and proves that the truncated quotient equals the integer whole-frame count (`HalveThenSplit`). The rounding of the two floating-point divisions is not modelled.
- Mp3Worker.Deinterleave: when a read throws, the contents of the partially filled arrays are not stated, because nothing uses them.
- Mp3Worker.InterleaveDeinterleave: states the round trip for one or two channels only. For three or more channels only the first sample of each frame is read and the right channel stays all zeros, so the other lanes cannot be recovered.
- Codec registration (`connect`, `isTypeSupported`, `register`, src/useWavAudioRecorder.ts:34-38) is fire-and-forget foreign asynchronous work. It has no effect on the hook's state.
- Asynchronous interleaving: `startRecording` awaits the stream. Calls and events that could arrive while it waits are not modelled, and each method runs to completion.
- Event timing: when the platform fires `dataavailable` and `stop` is not modelled. The events a recorder fires are given as calls to `DeliverData` and `DeliverStop` on the most recently created recorder. Listeners of older recorders are not tracked.
- A `new ExtendableMediaRecorder` that throws (an uncaught rejection of `startRecording`) is not modelled.
- Platform calls are taken to return normally: the recorder's `start` and `stop` and the tracks' `stop`. In particular, a `start(100)` over a stream whose tracks were stopped may throw NotSupportedError on the platform. That would reject `startRecording` with the recorder installed and both listeners attached but `recording` still false; `RestartWithoutSupport` does not capture that outcome.
- Callbacks are taken as fixed across renders. `stopHandler` is recreated whenever `onComplete` changes (src/useWavAudioRecorder.ts:62). With an inline `onComplete`, line 97 would attach a second, different stop listener. That listener finds no chunks, so there is still at most one completion, but the model tracks a single stop listener.
- Optional callbacks: each callback is recorded as an effect whether or not the caller supplied it.
- React rendering: `recording` is modelled as a field that changes at once, not as state seen on the next render.
