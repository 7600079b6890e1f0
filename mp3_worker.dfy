/**
 * The worker's WAV-to-MP3 conversion: split the interleaved 16-bit PCM payload of a WAV buffer into a
 * left and a right channel, hand them to the MP3 encoder, and join the encoder's main output with its
 * flush output into the MP3 bytes.
 */
module Mp3Worker {
  import opened Blobs
  import opened LittleEndian

  /** The header fields the conversion uses; they come from the WAV header parser, which is not modelled. */
  datatype WavHeader = WavHeader(channels: nat, sampleRate: nat, dataOffset: nat)

  /** What the conversion needs of the parsed header: at least one channel, and a payload inside the buffer. */
  predicate Admissible(h: WavHeader, byteLength: nat)
  {
    1 <= h.channels && h.dataOffset <= byteLength
  }

  /** Bytes per frame, `bytesPerSample` in the worker: one 16-bit sample per channel. */
  function FrameWidth(h: WavHeader): nat
  {
    2 * h.channels
  }

  /** Number of payload bytes after the header. */
  function PayloadLength(h: WavHeader, byteLength: nat): nat
    requires h.dataOffset <= byteLength
  {
    byteLength - h.dataOffset
  }

  /** Whole frames of `width` bytes in `payload` bytes, counted stride by stride as the loop advances. */
  function WholeFrames(payload: nat, width: nat): nat
    requires width > 0
    decreases payload
  {
    if payload < width then 0 else 1 + WholeFrames(payload - width, width)
  }

  /** Bytes left over after the whole frames: the size of a trailing partial frame. */
  function TailBytes(payload: nat, width: nat): nat
    requires width > 0
    decreases payload
  {
    if payload < width then payload else TailBytes(payload - width, width)
  }

  /** Length of each Int16Array: the number of whole frames in the payload. */
  function ChannelLength(h: WavHeader, byteLength: nat): (n: nat)
    requires Admissible(h, byteLength)
    ensures n == 0 <==> PayloadLength(h, byteLength) < FrameWidth(h)
  {
    WholeFrames(PayloadLength(h, byteLength), FrameWidth(h))
  }

  /** Bytes of the payload after its last whole frame. */
  function PartialBytes(h: WavHeader, byteLength: nat): nat
    requires Admissible(h, byteLength)
  {
    TailBytes(PayloadLength(h, byteLength), FrameWidth(h))
  }

  /** Byte offset of frame `k`, the value of `i` when `sampleIndex == k`: `k` strides past the data offset. */
  function FrameStart(h: WavHeader, k: nat): nat
  {
    if k == 0 then h.dataOffset else FrameStart(h, k - 1) + FrameWidth(h)
  }

  /** Frame `k` starts `k` frame widths past the data offset. */
  lemma {:induction false} FrameStartOffset(h: WavHeader, k: nat)
    ensures FrameStart(h, k) == h.dataOffset + FrameWidth(h) * k
  {
    if k > 0 {
      FrameStartOffset(h, k - 1);
      assert FrameWidth(h) * k == FrameWidth(h) * (k - 1) + FrameWidth(h);
    }
  }

  /**
   * Whether de-interleaving throws a RangeError. The loop enters a final partial frame whenever the
   * payload is not a whole number of frames; `getInt16` then throws if fewer than two bytes remain, or,
   * for stereo, on the right sample, which never fits in a partial frame. For one or two channels this
   * is exactly "the payload is not a whole number of frames".
   */
  predicate ReadsPastEnd(h: WavHeader, byteLength: nat): (throws: bool)
    requires Admissible(h, byteLength)
    ensures throws ==> PartialBytes(h, byteLength) != 0
    ensures h.channels <= 2 ==> (throws <==> PartialBytes(h, byteLength) != 0)
  {
    FramesDivMod(PayloadLength(h, byteLength), FrameWidth(h));
    var rest := PartialBytes(h, byteLength);
    rest == 1 || (rest != 0 && h.channels == 2)
  }

  /** A whole stride of `w` fits between `w * a` and `w * b` when `a < b`. */
  lemma StrideBelow(w: nat, a: nat, b: nat)
    requires a < b
    ensures w * a + w <= w * b
  {
    assert w * a + w == w * (a + 1);
  }

  /** Euclidean division has one quotient and remainder. */
  lemma DivModUnique(p: nat, w: nat, q: nat, r: nat)
    requires 0 < w && r < w && p == w * q + r
    ensures p / w == q && p % w == r
  {
    var q', r' := p / w, p % w;
    assert p == w * q' + r';
    if q' > q {
      StrideBelow(w, q, q');
    } else if q' < q {
      StrideBelow(w, q', q);
    }
  }

  /** Counting whole frames stride by stride is Euclidean division by the frame width. */
  lemma {:induction false} FramesDivMod(payload: nat, width: nat)
    requires width > 0
    ensures payload == width * WholeFrames(payload, width) + TailBytes(payload, width)
    ensures TailBytes(payload, width) < width
    ensures WholeFrames(payload, width) == payload / width
    ensures TailBytes(payload, width) == payload % width
    decreases payload
  {
    if width <= payload {
      FramesDivMod(payload - width, width);
      var q := WholeFrames(payload - width, width);
      assert width * (q + 1) == width * q + width;
    }
    DivModUnique(payload, width, WholeFrames(payload, width), TailBytes(payload, width));
  }

  /** The typed-array length is the truncated payload length over the frame width. */
  lemma ChannelLengthIsQuotient(h: WavHeader, byteLength: nat)
    requires Admissible(h, byteLength)
    ensures ChannelLength(h, byteLength) == PayloadLength(h, byteLength) / (2 * h.channels)
    ensures PartialBytes(h, byteLength) == PayloadLength(h, byteLength) % (2 * h.channels)
  {
    FramesDivMod(PayloadLength(h, byteLength), FrameWidth(h));
  }

  /** For one or two channels the conversion throws exactly when the payload is not a whole number of frames. */
  lemma ThrowsIffRagged(h: WavHeader, byteLength: nat)
    requires Admissible(h, byteLength) && h.channels <= 2
    ensures ReadsPastEnd(h, byteLength) <==> PayloadLength(h, byteLength) % (2 * h.channels) != 0
  {
    ChannelLengthIsQuotient(h, byteLength);
  }

  /**
   * The whole-frame count from two integer divisions: halving, then dividing by the channel count. It is
   * also the floor of the real quotient `payload / 2 / channels`, the value the Int16Array constructor takes
   * by truncating the floating-point length once (rounding of the floating-point divisions aside).
   */
  lemma HalveThenSplit(payload: nat, channels: nat)
    requires 1 <= channels
    ensures payload / 2 / channels == WholeFrames(payload, 2 * channels)
    ensures ((payload as real / 2.0) / channels as real).Floor == payload / 2 / channels
  {
    var half := payload / 2;
    var q, r := half / channels, half % channels;
    var rest := 2 * r + payload % 2;
    assert payload == 2 * channels * q + rest;
    DivModUnique(payload, 2 * channels, q, rest);
    FramesDivMod(payload, 2 * channels);
    FloorOfQuotient(payload, channels, q, rest);
  }

  /** Halving then dividing by the channel count in real arithmetic, then truncating, gives the Euclidean quotient by the frame width. */
  lemma FloorOfQuotient(payload: nat, channels: nat, q: nat, rest: nat)
    requires 1 <= channels && rest < 2 * channels && payload == 2 * channels * q + rest
    ensures ((payload as real / 2.0) / channels as real).Floor == q
  {
    HalveThenDivide(payload as real, channels as real);
    assert (2 * channels) as real == 2.0 * channels as real;
    RealFloor(payload, 2 * channels, q, rest);
  }

  /** Halving then dividing is dividing by twice the divisor. */
  lemma HalveThenDivide(x: real, c: real)
    requires c > 0.0
    ensures (x / 2.0) / c == x / (2.0 * c)
  {
  }

  /** The floor of a real quotient of naturals is their Euclidean quotient. */
  lemma RealFloor(p: nat, w: nat, q: nat, rest: nat)
    requires 0 < w && rest < w && p == w * q + rest
    ensures (p as real / w as real).Floor == q
  {
    var wr, fraction := w as real, rest as real / w as real;
    assert fraction * wr == rest as real < wr;
    assert 0.0 <= fraction < 1.0;
    assert p as real == wr * q as real + rest as real;
    assert p as real / wr == q as real + fraction;
  }

  /** Every whole frame counted by ChannelLength lies inside the buffer. */
  lemma FrameInside(h: WavHeader, byteLength: nat, k: nat)
    requires Admissible(h, byteLength) && k < ChannelLength(h, byteLength)
    ensures FrameStart(h, k) + FrameWidth(h) <= byteLength
  {
    var w, n := FrameWidth(h), ChannelLength(h, byteLength);
    FrameStartOffset(h, k);
    FramesDivMod(PayloadLength(h, byteLength), w);
    StrideBelow(w, k, n);
  }

  /** The first `count` samples of channel `lane` (0 is left, 1 is right): the word at offset `2 * lane` of each frame. */
  function ChannelPrefix(bytes: seq<Byte>, h: WavHeader, lane: nat, count: nat): (samples: seq<Int16>)
    requires Admissible(h, |bytes|) && lane < h.channels && count <= ChannelLength(h, |bytes|)
    ensures |samples| == count
  {
    if count == 0 then []
    else
      FrameInside(h, |bytes|, count - 1);
      ChannelPrefix(bytes, h, lane, count - 1) + [Int16At(bytes, FrameStart(h, count - 1) + 2 * lane)]
  }

  /** Samples of channel `lane` from every whole frame of the payload. */
  function Channel(bytes: seq<Byte>, h: WavHeader, lane: nat): (samples: seq<Int16>)
    requires Admissible(h, |bytes|) && lane < h.channels
  {
    ChannelPrefix(bytes, h, lane, ChannelLength(h, |bytes|))
  }

  /** Sample `k` of a channel prefix is the word at its lane's offset within frame `k`. */
  lemma {:induction false} ChannelPrefixAt(bytes: seq<Byte>, h: WavHeader, lane: nat, count: nat, k: nat)
    requires Admissible(h, |bytes|) && lane < h.channels && count <= ChannelLength(h, |bytes|) && k < count
    ensures FrameStart(h, k) + 2 * lane + 2 <= |bytes|
    ensures ChannelPrefix(bytes, h, lane, count)[k] == Int16At(bytes, FrameStart(h, k) + 2 * lane)
    decreases count
  {
    FrameInside(h, |bytes|, k);
    if k < count - 1 {
      ChannelPrefixAt(bytes, h, lane, count - 1, k);
    }
  }

  /** Sample `k` of a channel is the word at its lane's offset within frame `k`, which lies in the buffer. */
  lemma ChannelAt(bytes: seq<Byte>, h: WavHeader, lane: nat, k: nat)
    requires Admissible(h, |bytes|) && lane < h.channels && k < ChannelLength(h, |bytes|)
    ensures FrameStart(h, k) + 2 * lane + 2 <= |bytes|
    ensures |Channel(bytes, h, lane)| == ChannelLength(h, |bytes|)
    ensures Channel(bytes, h, lane)[k] == LE16(bytes[FrameStart(h, k) + 2 * lane], bytes[FrameStart(h, k) + 2 * lane + 1])
  {
    ChannelPrefixAt(bytes, h, lane, ChannelLength(h, |bytes|), k);
  }

  /** What `leftChannel` should hold: the first sample of every whole frame. */
  function LeftChannel(bytes: seq<Byte>, h: WavHeader): (left: seq<Int16>)
    requires Admissible(h, |bytes|)
    ensures |left| == ChannelLength(h, |bytes|)
  {
    Channel(bytes, h, 0)
  }

  /** The contents of a fresh Int16Array of length `n`. */
  function Zeros(n: nat): seq<Int16>
  {
    seq(n, _ => 0)
  }

  /** What `rightChannel` should hold: the second sample of every whole frame for stereo, zeros otherwise. */
  function RightChannel(bytes: seq<Byte>, h: WavHeader): (right: seq<Int16>)
    requires Admissible(h, |bytes|)
    ensures |right| == ChannelLength(h, |bytes|)
    ensures h.channels != 2 ==> forall k | 0 <= k < |right| :: right[k] == 0
  {
    if h.channels == 2 then Channel(bytes, h, 1) else Zeros(ChannelLength(h, |bytes|))
  }

  /** A frame that starts no later than the end of the buffer is preceded only by whole frames. */
  lemma FrameWithin(h: WavHeader, byteLength: nat, k: nat)
    requires Admissible(h, byteLength) && FrameStart(h, k) <= byteLength
    ensures k <= ChannelLength(h, byteLength)
  {
    var w, n := FrameWidth(h), ChannelLength(h, byteLength);
    FrameStartOffset(h, k);
    FramesDivMod(PayloadLength(h, byteLength), w);
    if n < k {
      StrideBelow(w, n, k);
    }
  }

  /** A frame that starts exactly at the end of the buffer follows the last of a whole number of frames. */
  lemma EndsOnFrame(h: WavHeader, byteLength: nat, k: nat)
    requires Admissible(h, byteLength) && FrameStart(h, k) == byteLength
    ensures k == ChannelLength(h, byteLength)
    ensures PartialBytes(h, byteLength) == 0
  {
    FrameStartOffset(h, k);
    FramesDivMod(PayloadLength(h, byteLength), FrameWidth(h));
    DivModUnique(PayloadLength(h, byteLength), FrameWidth(h), k, 0);
  }

  /** A frame that starts inside the buffer but does not fit is the trailing partial frame. */
  lemma PartialFrame(h: WavHeader, byteLength: nat, k: nat)
    requires Admissible(h, byteLength)
    requires FrameStart(h, k) < byteLength < FrameStart(h, k) + FrameWidth(h)
    ensures k == ChannelLength(h, byteLength)
    ensures PartialBytes(h, byteLength) == byteLength - FrameStart(h, k)
  {
    FrameStartOffset(h, k);
    FramesDivMod(PayloadLength(h, byteLength), FrameWidth(h));
    DivModUnique(PayloadLength(h, byteLength), FrameWidth(h), k, byteLength - FrameStart(h, k));
  }

  /** Where the loop is when it reaches frame `k` inside the buffer. */
  lemma FrameStep(h: WavHeader, byteLength: nat, k: nat)
    requires Admissible(h, byteLength) && FrameStart(h, k) < byteLength
    ensures k <= ChannelLength(h, byteLength)
    ensures FrameStart(h, k) + FrameWidth(h) > byteLength ==>
      k == ChannelLength(h, byteLength) && PartialBytes(h, byteLength) == byteLength - FrameStart(h, k)
    ensures FrameStart(h, k) + FrameWidth(h) <= byteLength ==> k < ChannelLength(h, byteLength)
    ensures FrameStart(h, k) + 2 > byteLength || (h.channels == 2 && FrameStart(h, k) + 4 > byteLength) ==>
      ReadsPastEnd(h, byteLength)
  {
    FrameWithin(h, byteLength, k);
    if FrameStart(h, k) + FrameWidth(h) > byteLength {
      PartialFrame(h, byteLength, k);
    } else {
      FrameWithin(h, byteLength, k + 1);
    }
  }

  /**
   * Where the loop stops when no read throws: just past the last whole frame, or, for three or more
   * channels, one stride past a trailing partial frame of at least two bytes.
   */
  lemma LoopExit(h: WavHeader, byteLength: nat, k: nat)
    requires Admissible(h, byteLength)
    requires FrameStart(h, k) == byteLength ||
      (k == ChannelLength(h, byteLength) + 1 && PartialBytes(h, byteLength) >= 2 && h.channels != 2)
    ensures !ReadsPastEnd(h, byteLength)
    ensures k == if PartialBytes(h, byteLength) == 0 then ChannelLength(h, byteLength) else ChannelLength(h, byteLength) + 1
  {
    if FrameStart(h, k) == byteLength {
      EndsOnFrame(h, byteLength, k);
    }
  }

  /** Storing the next expected sample extends the filled prefix of a channel array by one. */
  lemma StoreExtends(expected: seq<Int16>, samples: seq<Int16>, m: nat, value: Int16)
    requires m < |expected| && samples == expected[..m] + Zeros(|expected| - m) && value == expected[m]
    ensures samples[m := value] == expected[..m + 1] + Zeros(|expected| - (m + 1))
  {
  }

  /** An indexed store into an Int16Array: a store past the end is silently ignored. */
  method Store(a: array<Int16>, index: nat, value: Int16)
    modifies a
    ensures index < a.Length ==> a[..] == old(a[..])[index := value]
    ensures index >= a.Length ==> a[..] == old(a[..])
  {
    if index < a.Length {
      a[index] := value;
    }
  }

  /**
   * The channel arrays after the first `m` whole frames have been copied: the first `m` samples of each
   * channel, then the zeros the arrays were created with. Mono never writes the right channel.
   */
  predicate Copied(left: seq<Int16>, right: seq<Int16>, bytes: seq<Byte>, h: WavHeader, m: nat)
    requires Admissible(h, |bytes|)
    requires m <= ChannelLength(h, |bytes|)
  {
    var n := ChannelLength(h, |bytes|);
    && left == LeftChannel(bytes, h)[..m] + Zeros(n - m)
    && right == (if h.channels == 2 then RightChannel(bytes, h)[..m] + Zeros(n - m) else Zeros(n))
  }

  /** Once every whole frame is copied, the arrays hold exactly the two channels. */
  lemma CopiedAll(left: seq<Int16>, right: seq<Int16>, bytes: seq<Byte>, h: WavHeader)
    requires Admissible(h, |bytes|)
    requires Copied(left, right, bytes, h, ChannelLength(h, |bytes|))
    ensures left == LeftChannel(bytes, h) && right == RightChannel(bytes, h)
  {
  }

  /** Storing frame `k`'s samples into arrays that hold the first `k` frames makes them hold the first `k + 1`. */
  lemma CopiedStep(left: seq<Int16>, right: seq<Int16>, bytes: seq<Byte>, h: WavHeader, k: nat)
    requires Admissible(h, |bytes|) && k < ChannelLength(h, |bytes|)
    requires Copied(left, right, bytes, h, k)
    ensures |left| == |right| == ChannelLength(h, |bytes|)
    ensures FrameStart(h, k) + 2 * h.channels <= |bytes|
    ensures
      var start := FrameStart(h, k);
      Copied(left[k := LE16(bytes[start], bytes[start + 1])],
             if h.channels == 2 then right[k := LE16(bytes[start + 2], bytes[start + 3])] else right,
             bytes, h, k + 1)
  {
    var start := FrameStart(h, k);
    FrameInside(h, |bytes|, k);
    ChannelAt(bytes, h, 0, k);
    StoreExtends(LeftChannel(bytes, h), left, k, LE16(bytes[start], bytes[start + 1]));
    if h.channels == 2 {
      ChannelAt(bytes, h, 1, k);
      StoreExtends(RightChannel(bytes, h), right, k, LE16(bytes[start + 2], bytes[start + 3]));
    }
  }

  /**
   * One pass of the loop body, for frame `k` starting inside the buffer: read the left word, store it at
   * `k` (a store past the end of the array is ignored), and for stereo the same for the right word. A read
   * that runs past the buffer throws before anything more is stored.
   */
  method CopyFrame(wav: array<Byte>, header: WavHeader, k: nat, left: array<Int16>, right: array<Int16>)
    returns (rangeError: bool)
    requires Admissible(header, wav.Length)
    requires FrameStart(header, k) < wav.Length
    requires left != right
    requires k <= ChannelLength(header, wav.Length)
    requires Copied(left[..], right[..], wav[..], header, k)
    modifies left, right
    ensures rangeError <==>
      FrameStart(header, k) + 2 > wav.Length || (header.channels == 2 && FrameStart(header, k) + 4 > wav.Length)
    ensures !rangeError && k < ChannelLength(header, wav.Length) ==> Copied(left[..], right[..], wav[..], header, k + 1)
    ensures !rangeError && k == ChannelLength(header, wav.Length) ==> Copied(left[..], right[..], wav[..], header, k)
    ensures header.channels != 2 ==> right[..] == Zeros(right.Length)
  {
    FrameStep(header, wav.Length, k);
    if k < ChannelLength(header, wav.Length) {
      CopiedStep(left[..], right[..], wav[..], header, k);
    }
    var i := FrameStart(header, k);
    var sample := GetInt16(wav, i);
    if sample.RangeError? {
      return true;
    }
    assert sample.value == LE16(wav[i], wav[i + 1]);
    Store(left, k, sample.value);
    if header.channels == 2 {
      var second := GetInt16(wav, i + 2);
      if second.RangeError? {
        return true;
      }
      assert second.value == LE16(wav[i + 2], wav[i + 3]);
      Store(right, k, second.value);
    }
    return false;
  }

  /**
   * The loop of the worker over arrays freshly created with `ChannelLength` zeros: frame after frame, in
   * increasing offset order, the left sample (and for stereo the right sample) is read and stored; the loop
   * stops early with a RangeError when a read runs past the buffer. `frames` counts the loop's iterations:
   * on success one per whole frame, plus one for a trailing partial frame.
   */
  method CopyFrames(wav: array<Byte>, header: WavHeader, left: array<Int16>, right: array<Int16>)
    returns (rangeError: bool, ghost frames: nat)
    requires Admissible(header, wav.Length)
    requires left != right
    requires left.Length == right.Length == ChannelLength(header, wav.Length)
    requires Copied(left[..], right[..], wav[..], header, 0)
    modifies left, right
    ensures rangeError <==> ReadsPastEnd(header, wav.Length)
    ensures !rangeError ==> left[..] == LeftChannel(wav[..], header)
    ensures !rangeError ==> right[..] == RightChannel(wav[..], header)
    ensures header.channels != 2 ==> right[..] == Zeros(right.Length)
    ensures !rangeError ==>
      frames == if PartialBytes(header, wav.Length) == 0
                then ChannelLength(header, wav.Length)
                else ChannelLength(header, wav.Length) + 1
  {
    ghost var bytes := wav[..];
    ghost var channelLength := left.Length;
    ghost var rest := PartialBytes(header, wav.Length);
    ghost var filled := 0;
    var bytesPerSample := header.channels * 2;
    rangeError := false;
    var sampleIndex := 0;
    var i := header.dataOffset;
    while i < wav.Length
      invariant wav[..] == bytes
      invariant i == FrameStart(header, sampleIndex)
      invariant filled == if sampleIndex <= channelLength then sampleIndex else channelLength
      invariant i <= wav.Length ==> sampleIndex <= channelLength
      invariant i > wav.Length ==> sampleIndex == channelLength + 1 && rest >= 2 && header.channels != 2
      invariant Copied(left[..], right[..], bytes, header, filled)
      decreases wav.Length - i
    {
      FrameStep(header, wav.Length, sampleIndex);
      rangeError := CopyFrame(wav, header, sampleIndex, left, right);
      if rangeError {
        break;
      }
      sampleIndex := sampleIndex + 1;
      i := i + bytesPerSample;
      filled := if sampleIndex <= channelLength then sampleIndex else channelLength;
    }
    if !rangeError {
      LoopExit(header, wav.Length, sampleIndex);
      CopiedAll(left[..], right[..], bytes, header);
    }
    frames := sampleIndex;
  }

  /**
   * The de-interleaving step of the worker: both channels are created with the payload's sample count,
   * the payload's byte count halved and divided by the channel count in floating point, truncated once by
   * the Int16Array constructor (the whole-frame count, see HalveThenSplit), and filled by the frame loop.
   */
  method Deinterleave(wav: array<Byte>, header: WavHeader)
    returns (rangeError: bool, left: array<Int16>, right: array<Int16>, ghost frames: nat)
    requires Admissible(header, wav.Length)
    ensures fresh(left) && fresh(right)
    ensures left.Length == right.Length == ChannelLength(header, wav.Length)
    ensures rangeError <==> ReadsPastEnd(header, wav.Length)
    ensures !rangeError ==> left[..] == LeftChannel(wav[..], header)
    ensures !rangeError ==> right[..] == RightChannel(wav[..], header)
    ensures header.channels != 2 ==> right[..] == Zeros(right.Length)
    ensures !rangeError ==>
      frames == if PartialBytes(header, wav.Length) == 0
                then ChannelLength(header, wav.Length)
                else ChannelLength(header, wav.Length) + 1
  {
    var channels := header.channels;
    var numberOfSamples: nat := (wav.Length - header.dataOffset) / 2;
    var channelLength: nat := numberOfSamples / channels;
    HalveThenSplit(wav.Length - header.dataOffset, channels);
    left := new Int16[channelLength](_ => 0);
    right := new Int16[channelLength](_ => 0);
    assert left[..] == Zeros(channelLength) && right[..] == Zeros(channelLength);
    assert LeftChannel(wav[..], header)[..0] + Zeros(channelLength) == Zeros(channelLength);
    assert RightChannel(wav[..], header)[..0] + Zeros(channelLength) == Zeros(channelLength);
    rangeError, frames := CopyFrames(wav, header, left, right);
  }

  /** `target.set(source, offset)` on a Uint8Array: the bytes of `source` replace those from `offset` on. */
  method SetBytes(target: array<Byte>, source: seq<Byte>, offset: nat)
    requires offset + |source| <= target.Length
    modifies target
    ensures target[..] == old(target[..offset]) + source + old(target[offset + |source|..])
  {
    forall j | offset <= j < offset + |source| {
      target[j] := source[j - offset];
    }
  }

  /**
   * The output buffer of the worker: a zero-filled Uint8Array as long as both encoder outputs together,
   * the main output set at offset 0 and the flush output set right after it.
   */
  method CombineOutput(main: seq<Byte>, flush: seq<Byte>) returns (combined: array<Byte>)
    ensures fresh(combined)
    ensures combined.Length == |main| + |flush|
    ensures combined[..|main|] == main
    ensures combined[|main|..] == flush
  {
    combined := new Byte[|main| + |flush|](_ => 0);
    SetBytes(combined, main, 0);
    SetBytes(combined, flush, |main|);
    assert combined[..] == main + flush;
  }

  /** The parameters the MP3 encoder is created with. */
  datatype EncoderConfig = EncoderConfig(channels: nat, sampleRate: nat, kbps: nat)

  /** What the encoder returns: the frames encoded from the samples, then the frames flushed at the end. */
  datatype EncodedMp3 = EncodedMp3(main: seq<Byte>, flush: seq<Byte>)

  /** The MP3 encoder, a foreign library: from its configuration and both channels to its two outputs. */
  type Encoder = (EncoderConfig, seq<Int16>, seq<Int16>) -> EncodedMp3

  /** The bit rate the worker asks the encoder for, in kbps. */
  const Mp3Kbps: nat := 256

  /** The MIME type of the produced blob. */
  const Mp3Mime: string := "audio/mp3"

  /** The outcome of a conversion: the MP3 blob, or the RangeError thrown by a read past the buffer. */
  datatype Conversion = Converted(mp3: Blob) | ReadFailed

  /**
   * The blob the worker produces for a payload that de-interleaves without error: the encoder, configured
   * with the header's channel count and sample rate at 256 kbps, gets both channel arrays (the zero right
   * channel too, for mono), and its main output followed by its flush output is typed as MP3.
   */
  function Mp3Of(bytes: seq<Byte>, h: WavHeader, encode: Encoder): (blob: Blob)
    requires Admissible(h, |bytes|)
    ensures blob.mimeType == Mp3Mime
    ensures
      var out := encode(EncoderConfig(h.channels, h.sampleRate, Mp3Kbps), LeftChannel(bytes, h), RightChannel(bytes, h));
      |blob.bytes| == |out.main| + |out.flush| && blob.bytes[..|out.main|] == out.main && blob.bytes[|out.main|..] == out.flush
  {
    var out := encode(EncoderConfig(h.channels, h.sampleRate, Mp3Kbps), LeftChannel(bytes, h), RightChannel(bytes, h));
    Blob(out.main + out.flush, Mp3Mime)
  }

  /**
   * `wavBlobToMp3Blob` on the bytes of the WAV blob and its parsed header: de-interleave, encode, flush,
   * combine. It fails with a RangeError exactly when de-interleaving reads past the buffer.
   */
  method WavBlobToMp3Blob(wav: array<Byte>, header: WavHeader, encode: Encoder) returns (result: Conversion)
    requires Admissible(header, wav.Length)
    ensures result.ReadFailed? <==> ReadsPastEnd(header, wav.Length)
    ensures result.Converted? ==> result.mp3 == Mp3Of(wav[..], header, encode)
  {
    var rangeError, left, right, _ := Deinterleave(wav, header);
    if rangeError {
      return ReadFailed;
    }
    var out := encode(EncoderConfig(header.channels, header.sampleRate, Mp3Kbps), left[..], right[..]);
    var combined := CombineOutput(out.main, out.flush);
    assert combined[..] == out.main + out.flush by {
      assert combined[..] == combined[..|out.main|] + combined[|out.main|..];
    }
    return Converted(Blob(combined[..], Mp3Mime));
  }

  /** The two little-endian bytes of a sample. */
  function Word(x: Int16): (bytes: seq<Byte>)
    ensures |bytes| == 2 && LE16(bytes[0], bytes[1]) == x
  {
    DecodeEncode(x);
    [EncodeLE16(x).0, EncodeLE16(x).1]
  }

  /** One PCM frame: the left word, then for stereo the right word. */
  function FrameBytes(l: Int16, r: Int16, channels: nat): (frame: seq<Byte>)
    requires 1 <= channels <= 2
    ensures |frame| == 2 * channels
  {
    Word(l) + (if channels == 2 then Word(r) else [])
  }

  /**
   * The PCM payload that interleaves two channels of equal length, frame by frame; a mono payload
   * carries the left channel only. This is the inverse of de-interleaving.
   */
  function Interleave(left: seq<Int16>, right: seq<Int16>, channels: nat): (payload: seq<Byte>)
    requires 1 <= channels <= 2 && |right| == |left|
    ensures |payload| == 2 * channels * |left|
  {
    if left == [] then []
    else
      var n := |left| - 1;
      Interleave(left[..n], right[..n], channels) + FrameBytes(left[n], right[n], channels)
  }

  /** Byte `r` of frame `k` of an interleaved payload is byte `r` of the frame built from sample `k`. */
  lemma {:induction false} InterleaveAt(left: seq<Int16>, right: seq<Int16>, channels: nat, k: nat, r: nat)
    requires 1 <= channels <= 2 && |right| == |left| && k < |left| && r < 2 * channels
    ensures 2 * channels * k + r < |Interleave(left, right, channels)|
    ensures Interleave(left, right, channels)[2 * channels * k + r] == FrameBytes(left[k], right[k], channels)[r]
    decreases |left|
  {
    var n := |left| - 1;
    var init := Interleave(left[..n], right[..n], channels);
    if channels == 1 {
      assert |init| == 2 * n;
    } else {
      assert |init| == 4 * n;
    }
    if k < n {
      InterleaveAt(left[..n], right[..n], channels, k, r);
      if channels == 1 {
        assert 2 * k + r < |init|;
      } else {
        assert 4 * k + r < |init|;
      }
    }
  }

  /** The payload length of an interleaved payload, over its frame width, counts its frames with nothing left over. */
  lemma InterleavedFrames(prefix: seq<Byte>, left: seq<Int16>, right: seq<Int16>, h: WavHeader)
    requires 1 <= h.channels <= 2 && |right| == |left| && h.dataOffset == |prefix|
    ensures Admissible(h, |prefix + Interleave(left, right, h.channels)|)
    ensures ChannelLength(h, |prefix + Interleave(left, right, h.channels)|) == |left|
    ensures PartialBytes(h, |prefix + Interleave(left, right, h.channels)|) == 0
  {
  }

  /** In an interleaved payload after a header, the word of lane `lane` in frame `k` encodes that channel's sample `k`. */
  lemma InterleavedWord(prefix: seq<Byte>, left: seq<Int16>, right: seq<Int16>, h: WavHeader, k: nat, lane: nat)
    requires 1 <= h.channels <= 2 && |right| == |left| && h.dataOffset == |prefix|
    requires k < |left| && lane < h.channels
    ensures FrameStart(h, k) + 2 * lane + 2 <= |prefix + Interleave(left, right, h.channels)|
    ensures
      var bytes, word := prefix + Interleave(left, right, h.channels), Word(if lane == 0 then left[k] else right[k]);
      bytes[FrameStart(h, k) + 2 * lane] == word[0] && bytes[FrameStart(h, k) + 2 * lane + 1] == word[1]
  {
    var payload, j := Interleave(left, right, h.channels), 2 * h.channels * k + 2 * lane;
    FrameStartOffset(h, k);
    assert FrameStart(h, k) + 2 * lane == |prefix| + j;
    InterleaveAt(left, right, h.channels, k, 2 * lane);
    InterleaveAt(left, right, h.channels, k, 2 * lane + 1);
    assert (prefix + payload)[|prefix| + j] == payload[j];
    assert (prefix + payload)[|prefix| + j + 1] == payload[j + 1];
  }

  /** De-interleaving an interleaved payload gives back sample `k` of each channel it carries. */
  lemma InterleavedSample(prefix: seq<Byte>, left: seq<Int16>, right: seq<Int16>, h: WavHeader, k: nat, lane: nat)
    requires 1 <= h.channels <= 2 && |right| == |left| && h.dataOffset == |prefix|
    requires k < |left| && lane < h.channels
    ensures Admissible(h, |prefix + Interleave(left, right, h.channels)|)
    ensures |Channel(prefix + Interleave(left, right, h.channels), h, lane)| == |left|
    ensures Channel(prefix + Interleave(left, right, h.channels), h, lane)[k] == if lane == 0 then left[k] else right[k]
  {
    var bytes := prefix + Interleave(left, right, h.channels);
    InterleavedFrames(prefix, left, right, h);
    ChannelAt(bytes, h, lane, k);
    InterleavedWord(prefix, left, right, h, k, lane);
  }

  /**
   * Round trip from samples: a WAV buffer whose payload interleaves `left` and `right` converts without
   * error, and de-interleaving gives back `left`, and `right` for stereo (zeros for mono).
   */
  lemma DeinterleaveInterleave(prefix: seq<Byte>, left: seq<Int16>, right: seq<Int16>, h: WavHeader)
    requires 1 <= h.channels <= 2 && |right| == |left| && h.dataOffset == |prefix|
    ensures Admissible(h, |prefix + Interleave(left, right, h.channels)|)
    ensures !ReadsPastEnd(h, |prefix + Interleave(left, right, h.channels)|)
    ensures LeftChannel(prefix + Interleave(left, right, h.channels), h) == left
    ensures RightChannel(prefix + Interleave(left, right, h.channels), h) ==
      if h.channels == 2 then right else Zeros(|left|)
  {
    var bytes := prefix + Interleave(left, right, h.channels);
    InterleavedFrames(prefix, left, right, h);
    forall k | 0 <= k < |left|
      ensures LeftChannel(bytes, h)[k] == left[k]
    {
      InterleavedSample(prefix, left, right, h, k, 0);
    }
    if h.channels == 2 {
      forall k | 0 <= k < |left|
        ensures RightChannel(bytes, h)[k] == right[k]
      {
        InterleavedSample(prefix, left, right, h, k, 1);
      }
    }
  }

  /** A payload byte of a whole number of frames lies in some whole frame `k`, at position `r` within it. */
  lemma FramePosition(h: WavHeader, byteLength: nat, t: nat) returns (k: nat, r: nat)
    requires Admissible(h, byteLength) && h.channels <= 2 && PartialBytes(h, byteLength) == 0
    requires h.dataOffset + t < byteLength
    ensures k < ChannelLength(h, byteLength) && r < 2 * h.channels
    ensures t == 2 * h.channels * k + r && FrameStart(h, k) + r == h.dataOffset + t
  {
    var w, n := 2 * h.channels, ChannelLength(h, byteLength);
    k, r := t / w, t % w;
    FramesDivMod(PayloadLength(h, byteLength), w);
    if n <= k {
      StrideBelow(w, n, k);
    }
    FrameStartOffset(h, k);
  }

  /** Byte `r` of the frame built from the two words read at `start` is the byte at `start + r`. */
  lemma FrameByte(bytes: seq<Byte>, start: nat, l: Int16, r: Int16, channels: nat, offset: nat)
    requires 1 <= channels <= 2 && offset < 2 * channels && start + 2 * channels <= |bytes|
    requires l == LE16(bytes[start], bytes[start + 1])
    requires channels == 2 ==> r == LE16(bytes[start + 2], bytes[start + 3])
    ensures FrameBytes(l, r, channels)[offset] == bytes[start + offset]
  {
    EncodeDecode(bytes[start], bytes[start + 1]);
    if channels == 2 {
      EncodeDecode(bytes[start + 2], bytes[start + 3]);
    }
  }

  /** Re-interleaving the channels puts byte `r` of whole frame `k` back where it was read from. */
  lemma ReinterleavedByte(bytes: seq<Byte>, h: WavHeader, k: nat, r: nat)
    requires Admissible(h, |bytes|) && h.channels <= 2 && k < ChannelLength(h, |bytes|) && r < 2 * h.channels
    ensures |RightChannel(bytes, h)| == |LeftChannel(bytes, h)|
    ensures FrameStart(h, k) + r < |bytes|
    ensures
      var payload := Interleave(LeftChannel(bytes, h), RightChannel(bytes, h), h.channels);
      2 * h.channels * k + r < |payload| && payload[2 * h.channels * k + r] == bytes[FrameStart(h, k) + r]
  {
    var left, right, start := LeftChannel(bytes, h), RightChannel(bytes, h), FrameStart(h, k);
    FrameInside(h, |bytes|, k);
    ChannelAt(bytes, h, 0, k);
    assert left[k] == LE16(bytes[start], bytes[start + 1]);
    if h.channels == 2 {
      ChannelAt(bytes, h, 1, k);
      assert right[k] == LE16(bytes[start + 2], bytes[start + 3]);
    }
    FrameByte(bytes, start, left[k], right[k], h.channels, r);
    InterleaveAt(left, right, h.channels, k, r);
  }

  /** Byte `t` of the payload is byte `t` of the interleaving of the channels de-interleaved from it. */
  lemma PayloadByte(bytes: seq<Byte>, h: WavHeader, t: nat)
    requires Admissible(h, |bytes|) && h.channels <= 2 && PartialBytes(h, |bytes|) == 0
    requires h.dataOffset + t < |bytes|
    ensures |RightChannel(bytes, h)| == |LeftChannel(bytes, h)|
    ensures
      var payload := Interleave(LeftChannel(bytes, h), RightChannel(bytes, h), h.channels);
      t < |payload| && payload[t] == bytes[h.dataOffset + t]
  {
    var k, r := FramePosition(h, |bytes|, t);
    ReinterleavedByte(bytes, h, k, r);
  }

  /** A payload with no partial frame is filled exactly by its whole frames. */
  lemma WholeFramesFill(h: WavHeader, byteLength: nat)
    requires Admissible(h, byteLength) && PartialBytes(h, byteLength) == 0
    ensures FrameWidth(h) * ChannelLength(h, byteLength) == byteLength - h.dataOffset
  {
    FramesDivMod(PayloadLength(h, byteLength), FrameWidth(h));
  }

  /**
   * Round trip from bytes: when one- or two-channel de-interleaving succeeds, the payload is exactly the
   * interleaving of the channels it produced, so no payload byte is lost.
   */
  lemma InterleaveDeinterleave(bytes: seq<Byte>, h: WavHeader)
    requires Admissible(h, |bytes|) && h.channels <= 2
    requires !ReadsPastEnd(h, |bytes|)
    ensures |RightChannel(bytes, h)| == |LeftChannel(bytes, h)|
    ensures Interleave(LeftChannel(bytes, h), RightChannel(bytes, h), h.channels) == bytes[h.dataOffset..]
  {
    WholeFramesFill(h, |bytes|);
    var payload, rest := Interleave(LeftChannel(bytes, h), RightChannel(bytes, h), h.channels), bytes[h.dataOffset..];
    assert |payload| == |rest|;
    forall t | 0 <= t < |payload|
      ensures payload[t] == rest[t]
    {
      PayloadByte(bytes, h, t);
    }
  }
}
