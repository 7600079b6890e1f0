/**
 * The WAV recorder hook: one capture session over a microphone stream. Starting acquires the stream,
 * creates a WAV media recorder on it and starts it with a 100 ms timeslice; every non-empty chunk the
 * recorder delivers is accumulated; the recorder's stop event joins the accumulated chunks into one
 * WAV blob for `onComplete`. The callbacks and the calls made on the platform are recorded, in order,
 * as effects.
 */
module WavRecorder {
  import opened Blobs

  datatype Option<T> = None | Some(value: T)

  /** The MIME type of the recorder and of the completed recording. */
  const WavMime: string := "audio/wav"

  /** The timeslice, in milliseconds, the recorder is started with. */
  const Timeslice: nat := 100

  const AlreadyInstantiated: string := "Media recorder already instantiated"
  const RecorderUnavailable: string := "stopRecording: MediaRecorder unavailable."

  /** A microphone stream handed out by `getUserMedia`. */
  datatype MediaStream = MediaStream(id: nat)

  /** A media recorder recording `source` in the format `mimeType`. */
  datatype MediaRecorder = MediaRecorder(source: MediaStream, mimeType: string)

  /**
   * What asking for the microphone does: `getUserMedia` is absent, it resolves with a stream, or it
   * rejects (permission denied or any other failure).
   */
  datatype Acquisition = Unsupported | Granted(stream: MediaStream) | Rejected

  /** A callback invoked by the hook, or a call the hook makes on the recorder or the stream. */
  datatype Effect =
    | Completed(recording: Blob)
    | NotSupportedError
    | NoPermissionError
    | OtherError(message: string)
    | RecorderStarted(timeslice: nat)
    | RecorderStopped
    | TracksStopped(stream: MediaStream)

  /** The stream slot after `getStream`: a granted stream replaces it, anything else leaves it as it was. */
  function StreamAfter(acquire: Acquisition, stream: Option<MediaStream>): (after: Option<MediaStream>)
    ensures after.None? <==> stream.None? && !acquire.Granted?
    ensures after.Some? && after != stream ==> acquire == Granted(after.value)
  {
    if acquire.Granted? then Some(acquire.stream) else stream
  }

  /** Whether `startRecording` gives up after `getStream`: it threw, or no stream is stored. */
  predicate AcquisitionFails(acquire: Acquisition, stream: Option<MediaStream>): (fails: bool)
    ensures fails <==> acquire.Rejected? || (acquire.Unsupported? && stream.None?)
  {
    acquire.Rejected? || StreamAfter(acquire, stream).None?
  }

  class WavAudioRecorder {
    /** The `recording` state exposed to the component. */
    var recording: bool
    /** `mediaRecorder.current`. */
    var recorder: Option<MediaRecorder>
    /** `chunks.current`: the data delivered since the last completed recording. */
    var chunks: seq<seq<Byte>>
    /** `stream.current`: the stream last handed out by `getUserMedia`; never cleared. */
    var stream: Option<MediaStream>
    /** Whether the data handler is attached to the most recently created recorder. */
    var dataListening: bool
    /** Whether the stop handler is attached to the most recently created recorder. */
    var stopListening: bool
    /** Every effect so far, oldest first. */
    var effects: seq<Effect>

    /**
     * A recorder is installed exactly while recording; it records the stored stream in WAV and has both
     * handlers attached; the data handler is attached to nothing else; no empty chunk is accumulated.
     */
    ghost predicate Valid()
      reads this
    {
      && (recording <==> recorder.Some?)
      && (dataListening <==> recorder.Some?)
      && (recorder.Some? ==>
            stopListening && stream.Some? && recorder.value == MediaRecorder(stream.value, WavMime))
      && forall i | 0 <= i < |chunks| :: chunks[i] != []
    }

    /** The refs and the state as the hook first creates them. */
    constructor ()
      ensures Valid()
      ensures !recording && recorder.None? && chunks == [] && stream.None?
      ensures !dataListening && !stopListening && effects == []
    {
      recording := false;
      recorder := None;
      chunks := [];
      stream := None;
      dataListening := false;
      stopListening := false;
      effects := [];
    }

    /**
     * `getStream`: without `getUserMedia`, report that recording is not supported and keep the stored
     * stream; otherwise store the stream it resolves with, or throw when it rejects.
     */
    method GetStream(acquire: Acquisition) returns (threw: bool)
      requires Valid() && recorder.None?
      modifies this
      ensures Valid()
      ensures threw <==> acquire.Rejected?
      ensures stream == StreamAfter(acquire, old(stream))
      ensures effects == old(effects) + (if acquire.Unsupported? then [NotSupportedError] else [])
      ensures recording == old(recording) && recorder == old(recorder) && chunks == old(chunks)
      ensures dataListening == old(dataListening) && stopListening == old(stopListening)
    {
      match acquire
      case Unsupported =>
        effects := effects + [NotSupportedError];
        threw := false;
      case Granted(s) =>
        stream := Some(s);
        threw := false;
      case Rejected =>
        threw := true;
    }

    /** `closeStream`: stop every track of the stored stream, if there is one. */
    method CloseStream()
      modifies this
      ensures effects == old(effects) + (if stream.Some? then [TracksStopped(stream.value)] else [])
      ensures recording == old(recording) && recorder == old(recorder) && chunks == old(chunks)
      ensures stream == old(stream) && dataListening == old(dataListening) && stopListening == old(stopListening)
    {
      if stream.Some? {
        effects := effects + [TracksStopped(stream.value)];
      }
    }

    /** `dataAvailableHandler`: append a chunk that has any data; drop an empty one. */
    method DataAvailableHandler(chunk: seq<Byte>)
      requires Valid()
      modifies this
      ensures Valid()
      ensures chunks == old(chunks) + (if chunk == [] then [] else [chunk])
      ensures recording == old(recording) && recorder == old(recorder) && stream == old(stream)
      ensures dataListening == old(dataListening) && stopListening == old(stopListening) && effects == old(effects)
    {
      if |chunk| != 0 {
        chunks := chunks + [chunk];
      }
    }

    /**
     * `stopHandler`: when data has accumulated, hand all of it, joined in arrival order, to `onComplete`
     * as one WAV blob and start over with no data; with no data, do nothing.
     */
    method StopHandler()
      requires Valid()
      modifies this
      ensures Valid()
      ensures old(chunks) != [] ==> chunks == [] && effects == old(effects) + [Completed(Blob(Join(old(chunks)), WavMime))]
      ensures old(chunks) == [] ==> chunks == [] && effects == old(effects)
      ensures recording == old(recording) && recorder == old(recorder) && stream == old(stream)
      ensures dataListening == old(dataListening) && stopListening == old(stopListening)
    {
      if |chunks| != 0 {
        var blob := Blob(Join(chunks), WavMime);
        chunks := [];
        effects := effects + [Completed(blob)];
      }
    }

    /**
     * `startRecording`: with a recorder already installed, report it and change nothing. Otherwise get
     * the stream; if that throws, or leaves no stream stored, report missing permission. Otherwise
     * install a WAV recorder on the stored stream, attach both handlers, start it with the timeslice and
     * set `recording`.
     */
    method StartRecording(acquire: Acquisition)
      requires Valid()
      modifies this
      ensures Valid()
      ensures old(recorder).Some? ==>
        && effects == old(effects) + [OtherError(AlreadyInstantiated)]
        && recording == old(recording) && recorder == old(recorder) && stream == old(stream)
        && dataListening == old(dataListening) && stopListening == old(stopListening)
      ensures old(recorder).None? ==>
        && stream == StreamAfter(acquire, old(stream))
        && effects == old(effects) + (if acquire.Unsupported? then [NotSupportedError] else []) +
                      (if AcquisitionFails(acquire, old(stream)) then [NoPermissionError] else [RecorderStarted(Timeslice)])
        && (AcquisitionFails(acquire, old(stream)) ==>
              !recording && recorder.None? && dataListening == old(dataListening) && stopListening == old(stopListening))
        && (!AcquisitionFails(acquire, old(stream)) ==>
              recording && recorder == Some(MediaRecorder(stream.value, WavMime)) && dataListening && stopListening)
      ensures chunks == old(chunks)
    {
      if recorder.Some? {
        effects := effects + [OtherError(AlreadyInstantiated)];
        return;
      }
      var threw := GetStream(acquire);
      if threw || stream.None? {
        effects := effects + [NoPermissionError];
        return;
      }
      recorder := Some(MediaRecorder(stream.value, WavMime));
      dataListening := true;
      stopListening := true;
      effects := effects + [RecorderStarted(Timeslice)];
      recording := true;
    }

    /**
     * `stopRecording`: with a recorder installed, stop it, detach the data handler, stop the stream's tracks,
     * clear `recording` and the recorder slot; without one, only report that no recorder is available. The
     * source registers the stop handler a second time rather than removing it; a repeated registration of
     * the same listener is ignored, so with callbacks fixed across renders the stop handler stays attached once. The accumulated data is left
     * for the stop event.
     */
    method StopRecording()
      requires Valid()
      modifies this
      ensures Valid()
      ensures old(recorder).Some? ==>
        && effects == old(effects) + [RecorderStopped, TracksStopped(old(stream).value)]
        && !recording && recorder.None? && !dataListening && stopListening
      ensures old(recorder).None? ==>
        && effects == old(effects) + [OtherError(RecorderUnavailable)]
        && recording == old(recording) && recorder == old(recorder)
        && dataListening == old(dataListening) && stopListening == old(stopListening)
      ensures stream == old(stream) && chunks == old(chunks)
    {
      if recorder.None? {
        effects := effects + [OtherError(RecorderUnavailable)];
        return;
      }
      effects := effects + [RecorderStopped];
      dataListening := false;
      stopListening := true;
      CloseStream();
      recording := false;
      recorder := None;
    }

    /** The most recently created recorder fires `dataavailable`: the data handler runs if it is attached. */
    method DeliverData(chunk: seq<Byte>)
      requires Valid()
      modifies this
      ensures Valid()
      ensures chunks == old(chunks) + (if dataListening && chunk != [] then [chunk] else [])
      ensures recording == old(recording) && recorder == old(recorder) && stream == old(stream)
      ensures dataListening == old(dataListening) && stopListening == old(stopListening) && effects == old(effects)
    {
      if dataListening {
        DataAvailableHandler(chunk);
      }
    }

    /** The most recently created recorder fires `stop`: the stop handler runs if it is attached. */
    method DeliverStop()
      requires Valid()
      modifies this
      ensures Valid()
      ensures stopListening && old(chunks) != [] ==>
        chunks == [] && effects == old(effects) + [Completed(Blob(Join(old(chunks)), WavMime))]
      ensures !(stopListening && old(chunks) != []) ==> chunks == old(chunks) && effects == old(effects)
      ensures recording == old(recording) && recorder == old(recorder) && stream == old(stream)
      ensures dataListening == old(dataListening) && stopListening == old(stopListening)
    {
      if stopListening {
        StopHandler();
      }
    }
  }

  /** The effects of a session that stops with `data` accumulated: one WAV blob of all of it, if there is any. */
  function Completion(data: seq<seq<Byte>>): (effects: seq<Effect>)
    ensures |effects| <= 1
    ensures effects == [] <==> forall i | 0 <= i < |data| :: data[i] == []
    ensures effects != [] ==> effects[0] == Completed(Blob(Join(data), WavMime)) && Join(data) != []
  {
    JoinEmptyIff(data);
    if Join(data) == [] then [] else [Completed(Blob(Join(data), WavMime))]
  }

  /**
   * A whole session on a granted stream: start, the recorder delivers `deliveries` (empty chunks among
   * them), stop, a `late` chunk arrives after the data handler was detached, then the stop event fires
   * once plus `redundantStops` more times. `onComplete` is called once, with every delivered byte in
   * order, unless nothing was delivered; the late chunk and the repeated stop events leave no trace.
   */
  method RecordSession(s: MediaStream, deliveries: seq<seq<Byte>>, late: seq<Byte>, redundantStops: nat)
    returns (effects: seq<Effect>, recording: bool)
    ensures effects == [RecorderStarted(Timeslice), RecorderStopped, TracksStopped(s)] + Completion(deliveries)
    ensures !recording
  {
    var r := new WavAudioRecorder();
    r.StartRecording(Granted(s));
    for j := 0 to |deliveries|
      invariant r.Valid()
      invariant r.chunks == NonEmpty(deliveries[..j])
      invariant r.recorder == Some(MediaRecorder(s, WavMime)) && r.stream == Some(s) && r.dataListening
      invariant r.effects == [RecorderStarted(Timeslice)]
    {
      assert deliveries[..j + 1][..j] == deliveries[..j];
      r.DeliverData(deliveries[j]);
    }
    assert deliveries[..|deliveries|] == deliveries;
    r.StopRecording();
    r.DeliverData(late);
    assert r.effects == [RecorderStarted(Timeslice), RecorderStopped, TracksStopped(s)];
    assert r.stopListening && r.chunks == NonEmpty(deliveries);
    JoinNonEmpty(deliveries);
    NonEmptyIsEmptyIff(deliveries);
    r.DeliverStop();
    for j := 0 to redundantStops
      invariant r.Valid()
      invariant r.chunks == [] && r.recorder.None?
      invariant r.effects == [RecorderStarted(Timeslice), RecorderStopped, TracksStopped(s)] + Completion(deliveries)
    {
      r.DeliverStop();
    }
    effects, recording := r.effects, r.recording;
  }

  /**
   * Starting while recording reports that a recorder is already instantiated and keeps the running
   * session: still recording, on the first stream, with no further call on the platform.
   */
  method StartWhileRecording(s: MediaStream, again: Acquisition)
    returns (effects: seq<Effect>, recording: bool, recorder: Option<MediaRecorder>)
    ensures effects == [RecorderStarted(Timeslice), OtherError(AlreadyInstantiated)]
    ensures recording && recorder == Some(MediaRecorder(s, WavMime))
  {
    var r := new WavAudioRecorder();
    r.StartRecording(Granted(s));
    r.StartRecording(again);
    effects, recording, recorder := r.effects, r.recording, r.recorder;
  }

  /**
   * A first start that cannot get a stream does not record: a rejected request reports missing
   * permission; without `getUserMedia` both "not supported" and then "no permission" are reported.
   */
  method StartWithoutStream(acquire: Acquisition) returns (effects: seq<Effect>, recording: bool)
    requires !acquire.Granted?
    ensures effects == (if acquire.Unsupported? then [NotSupportedError] else []) + [NoPermissionError]
    ensures !recording
  {
    var r := new WavAudioRecorder();
    r.StartRecording(acquire);
    effects, recording := r.effects, r.recording;
  }

  /**
   * Should `getUserMedia` disappear between two sessions, a start after the earlier session reuses the stream
   * stored by that session (whose tracks were stopped): "not supported" is reported and `start(100)` is
   * called on a recorder over the old stream, taken here to return normally.
   */
  method RestartWithoutSupport(s: MediaStream) returns (effects: seq<Effect>, recording: bool, recorder: Option<MediaRecorder>)
    ensures effects == [RecorderStarted(Timeslice), RecorderStopped, TracksStopped(s), NotSupportedError, RecorderStarted(Timeslice)]
    ensures recording && recorder == Some(MediaRecorder(s, WavMime))
  {
    var r := new WavAudioRecorder();
    r.StartRecording(Granted(s));
    r.StopRecording();
    r.StartRecording(Unsupported);
    effects, recording, recorder := r.effects, r.recording, r.recorder;
  }

  /** Stopping when nothing was started only reports that no recorder is available. */
  method StopWithoutRecorder() returns (effects: seq<Effect>, recording: bool)
    ensures effects == [OtherError(RecorderUnavailable)] && !recording
  {
    var r := new WavAudioRecorder();
    r.StopRecording();
    effects, recording := r.effects, r.recording;
  }
}
