/** transcriber.py: which audio files are accepted and how they are routed, and the
    note-event list built from the detector's MIDI output. The detector itself (basic-pitch),
    the audio conversion library and the file system are parameters: whether the file
    exists, whether conversion fails, and what the detector returns. */
module Transcriber {
  import opened Wrappers
  import opened Text
  import opened PurePath

  /** Formats the audio decoder reads natively. */
  const NATIVE_EXTENSIONS: set<string> := {".wav", ".flac", ".ogg"}

  /** Formats accepted after conversion to WAV. */
  const CONVERT_EXTENSIONS: set<string> := {".mp3", ".webm"}

  const SUPPORTED_EXTENSIONS: set<string> := NATIVE_EXTENSIONS + CONVERT_EXTENSIONS

  /** The supported set is the five listed formats, and no format is both native and converted. */
  lemma ExtensionSets()
    ensures SUPPORTED_EXTENSIONS == {".wav", ".flac", ".ogg", ".mp3", ".webm"}
    ensures NATIVE_EXTENSIONS !! CONVERT_EXTENSIONS
  {
  }

  /** One detected note (start and end in seconds, exact). */
  datatype NoteEvent = NoteEvent(startTime: real, endTime: real, midiPitch: int, velocity: int)

  /** A note of the detector's MIDI output, and an instrument track holding such notes. */
  datatype MidiNote = MidiNote(start: real, end: real, pitch: int, velocity: int)
  datatype Instrument = Instrument(notes: seq<MidiNote>)

  datatype Detection = DetectionFailed | Detected(instruments: seq<Instrument>)

  /** What the outside world answers: does the file exist, does the WAV conversion raise,
      and what does the detector return. */
  datatype Backend = Backend(fileExists: bool, conversionFails: bool, detection: Detection)

  datatype ValidationError = FileNotFound(path: string) | UnsupportedFormat(suffix: string)

  datatype TranscribeError =
    | Invalid(reason: ValidationError)
    | ConversionFailed(format: string)
    | DetectionError

  datatype Transcription = Transcription(convertedFrom: Option<string>, events: seq<NoteEvent>)

  /** `validate_audio_path`: a missing file is reported first; otherwise the path is
      accepted exactly when its lower-cased suffix is supported. */
  function ValidateAudioPath(path: string, fileExists: bool): (r: Result<string, ValidationError>)
    ensures !fileExists ==> r == Failure(FileNotFound(path))
    ensures fileExists ==> (r.Success? <==> Lower(Suffix(path)) in SUPPORTED_EXTENSIONS)
    ensures r.Success? ==> r.value == path
    ensures fileExists && r.Failure? ==> r.error == UnsupportedFormat(Suffix(path))
  {
    if !fileExists then Failure(FileNotFound(path))
    else if Lower(Suffix(path)) !in SUPPORTED_EXTENSIONS then Failure(UnsupportedFormat(Suffix(path)))
    else Success(path)
  }

  /** The suffix routing of `transcribe`: converted to WAV first. */
  predicate NeedsConversion(path: string) {
    Lower(Suffix(path)) in CONVERT_EXTENSIONS
  }

  /** `suffix.lstrip(".")`. */
  function StripLeadingDots(s: string): (t: string)
    decreases |s|
  {
    if s != [] && s[0] == '.' then StripLeadingDots(s[1..]) else s
  }

  /** The format name handed to the converter: the suffix without its dots, lower-cased. */
  function ConversionFormat(path: string): string {
    Lower(StripLeadingDots(Suffix(path)))
  }

  /** The format name is the lower-cased suffix less its single leading dot; for the
      converted formats it is "mp3" or "webm". */
  lemma ConversionFormatIsSuffix(path: string)
    requires Suffix(path) != []
    ensures "." + ConversionFormat(path) == Lower(Suffix(path))
    ensures NeedsConversion(path) ==> ConversionFormat(path) in {"mp3", "webm"}
  {
    var ext := Suffix(path);
    var format := ConversionFormat(path);
    assert "." + format == Lower(ext) by {
      assert ext == [ext[0]] + ext[1..];
      assert ext[1..] == [] || ext[1..][0] != '.';
      assert StripLeadingDots(ext) == ext[1..];
      LowerAppend([ext[0]], ext[1..]);
    }
    if NeedsConversion(path) {
      assert format == ("." + format)[1..];
      assert format == ".mp3"[1..] || format == ".webm"[1..];
    }
  }

  /** Acceptance and routing depend on the path only up to letter case. */
  lemma CaseDoesNotMatter(p: string, q: string, fileExists: bool)
    requires Lower(p) == Lower(q)
    ensures ValidateAudioPath(p, fileExists).Success? == ValidateAudioPath(q, fileExists).Success?
    ensures NeedsConversion(p) == NeedsConversion(q)
  {
    SuffixLower(p);
    SuffixLower(q);
  }

  /** Files that are converted are accepted ones, and never native. */
  lemma ConvertedAreSupported(path: string)
    requires NeedsConversion(path)
    ensures ValidateAudioPath(path, true).Success?
    ensures Lower(Suffix(path)) !in NATIVE_EXTENSIONS
  {
  }

  /** The event recorded for one note: times, pitch and velocity copied. */
  function NoteToEvent(note: MidiNote): NoteEvent {
    NoteEvent(note.start, note.end, note.pitch, note.velocity)
  }

  function EventsOf(notes: seq<MidiNote>): seq<NoteEvent> {
    seq(|notes|, i requires 0 <= i < |notes| => NoteToEvent(notes[i]))
  }

  /** The notes of all instruments, instrument after instrument, as events. */
  function ExtractEvents(instruments: seq<Instrument>): seq<NoteEvent>
  {
    if instruments == [] then []
    else ExtractEvents(instruments[..|instruments| - 1]) + EventsOf(instruments[|instruments| - 1].notes)
  }

  /** The number of notes over all instruments. */
  function NoteCount(instruments: seq<Instrument>): nat
  {
    if instruments == [] then 0
    else NoteCount(instruments[..|instruments| - 1]) + |instruments[|instruments| - 1].notes|
  }

  /** One event per note: the event list is as long as the note count, and note j of
      instrument i sits right after the notes of the instruments before it, copied. */
  lemma {:induction false} ExtractEventsAt(instruments: seq<Instrument>, i: nat, j: nat)
    requires i < |instruments| && j < |instruments[i].notes|
    ensures |ExtractEvents(instruments)| == NoteCount(instruments)
    ensures NoteCount(instruments[..i]) + j < NoteCount(instruments)
    ensures ExtractEvents(instruments)[NoteCount(instruments[..i]) + j] == NoteToEvent(instruments[i].notes[j])
    decreases |instruments|
  {
    var last := |instruments| - 1;
    var front := instruments[..last];
    ExtractEventsLength(front);
    if i == last {
      assert instruments[..i] == front;
    } else {
      ExtractEventsAt(front, i, j);
      assert front[..i] == instruments[..i];
      assert front[i] == instruments[i];
    }
  }

  lemma {:induction false} ExtractEventsLength(instruments: seq<Instrument>)
    ensures |ExtractEvents(instruments)| == NoteCount(instruments)
    decreases |instruments|
  {
    if instruments != [] {
      ExtractEventsLength(instruments[..|instruments| - 1]);
    }
  }

  /** The nested loops of `transcribe` that append one event per note. */
  method CollectNoteEvents(instruments: seq<Instrument>) returns (events: seq<NoteEvent>)
    ensures events == ExtractEvents(instruments)
  {
    events := [];
    var i := 0;
    while i < |instruments|
      invariant 0 <= i <= |instruments|
      invariant events == ExtractEvents(instruments[..i])
    {
      var notes := instruments[i].notes;
      var j := 0;
      while j < |notes|
        invariant 0 <= j <= |notes|
        invariant events == ExtractEvents(instruments[..i]) + EventsOf(notes[..j])
      {
        assert EventsOf(notes[..j + 1]) == EventsOf(notes[..j]) + [NoteToEvent(notes[j])];
        events := events + [NoteToEvent(notes[j])];
        j := j + 1;
      }
      assert notes[..j] == notes;
      assert instruments[..i + 1][..i] == instruments[..i];
      i := i + 1;
    }
    assert instruments[..i] == instruments;
  }

  // ---------------------------------------------------------------------------
  // Ordering by (start_time, midi_pitch)
  // ---------------------------------------------------------------------------

  /** The sort key `(n.start_time, n.midi_pitch)`, compared as Python compares tuples. */
  predicate KeyLe(a: NoteEvent, b: NoteEvent) {
    a.startTime < b.startTime || (a.startTime == b.startTime && a.midiPitch <= b.midiPitch)
  }

  predicate SameKey(a: NoteEvent, b: NoteEvent) {
    a.startTime == b.startTime && a.midiPitch == b.midiPitch
  }

  predicate SortedByKey(s: seq<NoteEvent>) {
    forall i, j :: 0 <= i < j < |s| ==> KeyLe(s[i], s[j])
  }

  /** The events of s whose key equals that of e, in their order in s. */
  function WithKeyOf(s: seq<NoteEvent>, e: NoteEvent): seq<NoteEvent>
    decreases |s|
  {
    if s == [] then []
    else (if SameKey(s[0], e) then [s[0]] else []) + WithKeyOf(s[1..], e)
  }

  /** Inserts x before the first element whose key is not smaller, so that x stays ahead
      of the events with its own key (they come later in the input). */
  function InsertByKey(x: NoteEvent, s: seq<NoteEvent>): seq<NoteEvent>
    decreases |s|
  {
    if s == [] then [x]
    else if KeyLe(x, s[0]) then [x] + s
    else [s[0]] + InsertByKey(x, s[1..])
  }

  /** `list.sort(key=...)`: a stable sort by the key. */
  function SortByKey(s: seq<NoteEvent>): seq<NoteEvent>
    decreases |s|
  {
    if s == [] then [] else InsertByKey(s[0], SortByKey(s[1..]))
  }

  lemma {:induction false} InsertByKeyPermutes(x: NoteEvent, s: seq<NoteEvent>)
    ensures multiset(InsertByKey(x, s)) == multiset(s) + multiset{x}
    decreases |s|
  {
    if s != [] && !KeyLe(x, s[0]) {
      InsertByKeyPermutes(x, s[1..]);
      assert s == [s[0]] + s[1..];
    }
  }

  lemma SortedTail(s: seq<NoteEvent>)
    requires SortedByKey(s) && s != []
    ensures SortedByKey(s[1..])
  {
    forall i, j | 0 <= i < j < |s[1..]| ensures KeyLe(s[1..][i], s[1..][j]) {
      assert s[1..][i] == s[i + 1] && s[1..][j] == s[j + 1];
    }
  }

  /** An event no larger than every element of a sorted list can go in front of it. */
  lemma ConsSorted(y: NoteEvent, t: seq<NoteEvent>)
    requires SortedByKey(t)
    requires forall k :: 0 <= k < |t| ==> KeyLe(y, t[k])
    ensures SortedByKey([y] + t)
  {
    var r := [y] + t;
    forall i, j | 0 <= i < j < |r| ensures KeyLe(r[i], r[j]) {
      assert r[j] == t[j - 1];
      if i > 0 {
        assert r[i] == t[i - 1];
      }
    }
  }

  /** The head of a sorted list, when x is not below it, is a lower bound of the list with
      x inserted into its tail. */
  lemma HeadBoundsInsertion(x: NoteEvent, s: seq<NoteEvent>)
    requires SortedByKey(s) && s != [] && !KeyLe(x, s[0])
    ensures forall k :: 0 <= k < |InsertByKey(x, s[1..])| ==> KeyLe(s[0], InsertByKey(x, s[1..])[k])
  {
    var t := InsertByKey(x, s[1..]);
    InsertByKeyPermutes(x, s[1..]);
    forall k | 0 <= k < |t| ensures KeyLe(s[0], t[k]) {
      var y := t[k];
      assert y in multiset(t);
      if y != x {
        assert y in multiset(s[1..]);
        var m :| 0 <= m < |s[1..]| && s[1..][m] == y;
        assert s[m + 1] == y;
      }
    }
  }

  lemma {:induction false} InsertByKeySorted(x: NoteEvent, s: seq<NoteEvent>)
    requires SortedByKey(s)
    ensures SortedByKey(InsertByKey(x, s))
    decreases |s|
  {
    if s == [] {
    } else if KeyLe(x, s[0]) {
      ConsSorted(x, s);
    } else {
      SortedTail(s);
      InsertByKeySorted(x, s[1..]);
      HeadBoundsInsertion(x, s);
      ConsSorted(s[0], InsertByKey(x, s[1..]));
    }
  }

  /** Inserting x adds x in front of the events with x's key and leaves the others' order. */
  lemma {:induction false} InsertByKeyStable(x: NoteEvent, s: seq<NoteEvent>, e: NoteEvent)
    ensures WithKeyOf(InsertByKey(x, s), e) == (if SameKey(x, e) then [x] else []) + WithKeyOf(s, e)
    decreases |s|
  {
    if s == [] {
      assert [x][1..] == [];
    } else if KeyLe(x, s[0]) {
      assert ([x] + s)[1..] == s;
    } else {
      InsertByKeyStable(x, s[1..], e);
      assert ([s[0]] + InsertByKey(x, s[1..]))[1..] == InsertByKey(x, s[1..]);
      assert !(SameKey(s[0], e) && SameKey(x, e));
    }
  }

  lemma {:induction false} SortByKeyFacts(s: seq<NoteEvent>)
    ensures SortedByKey(SortByKey(s))
    ensures multiset(SortByKey(s)) == multiset(s)
    ensures forall e :: WithKeyOf(SortByKey(s), e) == WithKeyOf(s, e)
    decreases |s|
  {
    if s != [] {
      SortByKeyFacts(s[1..]);
      InsertByKeySorted(s[0], SortByKey(s[1..]));
      InsertByKeyPermutes(s[0], SortByKey(s[1..]));
      forall e ensures WithKeyOf(SortByKey(s), e) == WithKeyOf(s, e) {
        InsertByKeyStable(s[0], SortByKey(s[1..]), e);
      }
      assert s == [s[0]] + s[1..];
    }
  }

  // ---------------------------------------------------------------------------
  // transcribe
  // ---------------------------------------------------------------------------

  /** `transcribe` returns normally exactly when validation passes, the WAV conversion (if
      the format needs one) does not raise, and the detector returns. */
  predicate TranscribeSucceeds(path: string, backend: Backend) {
    && ValidateAudioPath(path, backend.fileExists).Success?
    && !(NeedsConversion(path) && backend.conversionFails)
    && backend.detection.Detected?
  }

  /** `transcribe`: validate, convert when the format needs it, detect, then list the
      detected notes sorted stably by (start time, pitch). */
  method Transcribe(audioPath: string, backend: Backend) returns (r: Result<Transcription, TranscribeError>)
    ensures r.Success? <==> TranscribeSucceeds(audioPath, backend)
    ensures ValidateAudioPath(audioPath, backend.fileExists).Failure? ==>
      r == Failure(Invalid(ValidateAudioPath(audioPath, backend.fileExists).error))
    ensures r.Success? ==>
      r.value.convertedFrom == (if NeedsConversion(audioPath) then Some(ConversionFormat(audioPath)) else None)
    ensures r.Success? ==>
      var extracted := ExtractEvents(backend.detection.instruments);
      && SortedByKey(r.value.events)
      && multiset(r.value.events) == multiset(extracted)
      && forall e :: WithKeyOf(r.value.events, e) == WithKeyOf(extracted, e)
  {
    var validated := ValidateAudioPath(audioPath, backend.fileExists);
    if validated.Failure? {
      return Failure(Invalid(validated.error));
    }
    var converted: Option<string> := None;
    if NeedsConversion(audioPath) {
      var format := ConversionFormat(audioPath);
      if backend.conversionFails {
        return Failure(ConversionFailed(format));
      }
      converted := Some(format);
    }
    if backend.detection.DetectionFailed? {
      return Failure(DetectionError);
    }
    var events := CollectNoteEvents(backend.detection.instruments);
    SortByKeyFacts(events);
    events := SortByKey(events);
    return Success(Transcription(converted, events));
  }
}
