# Piano transcriber: a verified model of its deterministic core

The piano transcriber turns a recording of piano music into a MIDI file, and optionally
into ABC notation. You reach it from a command line (`main.py`) or through a small web
server (`server.py`). A neural note detector (basic-pitch) does the audio analysis, and
music21 does the MIDI-to-ABC step. The logic around them is deterministic, and this
project models that logic in Dafny and proves what it promises.

- **Pitch names** (`PitchNames`). A MIDI pitch becomes a letter from the twelve-name table plus the
  octave `pitch // 12 - 1`. Names read back to their pitch, so the naming is injective. The
  named examples C4, C-1, G9 and A4 are proved. Pitches an octave apart share a letter.
  The octave is printed in decimal by `Decimal`, which is proved to round-trip.
- **Paths** (`PurePath`, `Text`). This is the part of POSIX pathlib the core relies on:
  - `name`, `suffix` and `with_suffix`;
  - joining one component;
  - ASCII `str.lower`, `str.rfind` and the substring test.
- **Audio validation and routing** (`Transcriber`).
  - The supported extensions are the native formats plus the formats converted to WAV.
  - Validation reports a missing file before it checks the format.
  - Suffix case does not matter.
  - The conversion format is the suffix without its dot, lower-cased.
- **Note extraction and ordering** (`Transcriber.CollectNoteEvents`, `Transcriber.Transcribe`).
  - The detector's instruments are flattened, one event per note, by a loop.
  - The list is then sorted stably by (start time, pitch).
  - The result is proved sorted, a permutation of the extracted events, and in the original
    order among events with the same key.
- **The summary** (`Server.BuildSummary`). This covers:
  - the note count;
  - the names of the lowest and highest pitch;
  - the span from the earliest start to the latest end.

  The summary is proved independent of event order. Its duration is never negative when
  every note starts no later than it ends.
- **File management** (`Files.FileManager`).
  - An upload is saved as `<job id><suffix>` directly in the uploads directory. The suffix is
    the original name's, lower-cased, so the format is kept.
  - Each job's MIDI, ABC and metadata paths are pairwise distinct, and distinct across jobs.
  - Job ids are eight lower-case hexadecimal characters.
  - The path-traversal guard of `get_output_path` refuses names holding "/", "\\" or "..".
    It only returns existing paths that are the outputs directory or directly inside it.
    The directory itself comes back only for the names "" and ".", because pathlib drops
    those when joining. A job's published file names always pass the guard.
- **The command-line run** (`Cli.RunCli`).
  - The MIDI destination is `-o`, or else the input with ".mid" for its suffix. The default
    never overwrites the input.
  - The ABC destination is set only when `--abc` has a non-empty value.
  - Among the outcomes modelled, the exit code is 1 exactly when validation or transcription
    fails. The ABC outcome never changes the exit code.
  - A failure while writing the MIDI file is not modelled. In the source it escapes `main()`,
    so the run ends with status 1 and no ABC file.

The outside world is passed in as parameters:

- whether the audio file exists;
- whether the WAV conversion raises;
- what the detector returns;
- whether the ABC conversion raises;
- the set of existing output paths;
- the random 128-bit UUID.

Times are exact reals.

## Model

| member | source | states |
|---|---|---|
| PitchNames.MidiPitchToName | server.py:35-39 | the name of every pitch parses back to that pitch (letter from the table, then the decimal octave pitch // 12 - 1) |
| PitchNames.NoteLetter | server.py:37-39 | the letter is always one of the twelve table names (the index pitch % 12 is in range) |
| PitchNames.LetterIndexOfName | server.py:37 | each table name is found at its own position and no other text is found there (the names are distinct) |
| PitchNames.NamedExamples | server.py:37-39 | 60 is "C4", 0 is "C-1", 127 is "G9", 69 is "A4" |
| PitchNames.OctaveApart | server.py:38-39 | pitches 12 apart have the same letter and octaves differing by exactly one; their names begin with that letter and still differ |
| PitchNames.NamesAreInjective | server.py:35-39 | distinct pitches never get the same name |
| Decimal.NatToString | server.py:39 | decimal text of a natural number: non-empty, digits only, no leading zero |
| Decimal.IntToString | server.py:39 | decimal text of an integer: a leading '-' exactly for negative numbers |
| Decimal.ParseIntToString | server.py:39 | reading the decimal text back gives the integer |
| Text.Lower | transcriber.py:45 | lower-casing keeps the length and lower-cases each ASCII letter |
| Text.LastIndex | transcriber.py:45 | the last position of a character, or -1 when it does not occur |
| Text.ContainsChar | file_manager.py:126 | a one-character substring test is membership of that character |
| Text.ContainsDotDot | file_manager.py:126 | ".." occurs exactly when two adjacent characters are dots |
| PurePath.Name | file_manager.py:62 | the final component holds no '/' |
| PurePath.Suffix | transcriber.py:45 | the suffix is empty or a dot followed by at least one non-dot character, and is shorter than the name |
| PurePath.EndsWithSuffix | transcriber.py:45 | a path is its stem followed by its suffix |
| PurePath.SuffixLower | transcriber.py:45 | taking the suffix and lower-casing commute |
| PurePath.WithSuffix | main.py:144 | a result exists exactly when the new suffix is valid and the name is non-empty |
| PurePath.WithSuffixRoundTrip | main.py:144 | after replacing the suffix, the suffix read back is the new one and the stem is kept |
| PurePath.JoinInside | file_manager.py:35-36 | joining a directory and one component gives the directory itself or a path directly inside it; for a component other than "" and ".", the result is directly inside and its name is the component |
| Transcriber.ExtensionSets | transcriber.py:24-29 | the supported set is {.wav, .flac, .ogg, .mp3, .webm}, and native and converted formats are disjoint |
| Transcriber.ValidateAudioPath | transcriber.py:40-50 | a missing file is reported first; an existing file is accepted exactly when its lower-cased suffix is supported, and otherwise refused with that suffix |
| Transcriber.CaseDoesNotMatter | transcriber.py:45 | paths equal up to case are accepted alike and routed alike |
| Transcriber.ConvertedAreSupported | transcriber.py:24-29 | every converted format is accepted and none is native |
| Transcriber.ConversionFormatIsSuffix | transcriber.py:67 | the conversion format is the suffix without its dot, lower-cased, and is "mp3" or "webm" when conversion happens |
| Transcriber.ExtractEventsAt | transcriber.py:123-133 | one event per note across all instruments, in instrument order, with pitch and velocity copied |
| Transcriber.CollectNoteEvents | transcriber.py:123-133 | the nested loop builds exactly the flattened list of events |
| Transcriber.InsertByKeyPermutes | transcriber.py:134 | inserting one event adds exactly that event |
| Transcriber.InsertByKeySorted | transcriber.py:134 | inserting into a sorted list keeps it sorted by (start time, pitch) |
| Transcriber.InsertByKeyStable | transcriber.py:134 | inserting keeps the relative order of events sharing a key |
| Transcriber.SortByKeyFacts | transcriber.py:134 | the sort is sorted by (start time, pitch), a permutation, and stable |
| Transcriber.Transcribe | transcriber.py:76-136 | succeeds exactly when validation passes, conversion (if needed) does not raise and detection returns; validation errors pass through; conversion happens exactly for converted formats; the events are a sorted, stable permutation of the extracted notes |
| Server.MinReal | server.py:61-63 | the least element of a non-empty list, and a member of it |
| Server.MaxReal | server.py:61-63 | the greatest element of a non-empty list, and a member of it |
| Server.MinInt | server.py:56 | the least pitch of a non-empty list, and a member of it |
| Server.MaxInt | server.py:57 | the greatest pitch of a non-empty list, and a member of it |
| Server.BuildSummary | server.py:42-64 | no events give zeros and empty lists; otherwise the count, the names of the lowest and highest pitches (lowest ≤ highest), the earliest start and latest end, and their difference as duration |
| Server.ProjectionExtremes | server.py:52-57 | the minima and maxima of the projected lists are the extremes over the events |
| Server.SummaryIgnoresOrder | server.py:42-64 | two event lists holding the same events give the same summary |
| Server.SummaryDurationNonNegative | server.py:61 | when no note ends before it starts, the duration is not negative |
| Server.PitchRangeReadsBack | server.py:54-62 | both pitch-range names parse back to the lowest and highest pitch |
| Server.AcceptedUploadValidates | server.py:105-106 | an upload passing the route's extension check is accepted by the transcriber once saved, and routed through conversion exactly when its original suffix asks for it |
| Files.Hex | file_manager.py:49 | fixed-width text of lower-case hexadecimal digits |
| Files.FileManager.NewJob | file_manager.py:47-49 | a job id is eight lower-case hexadecimal characters |
| Files.FileManager.UploadKeepsFormat | file_manager.py:62-63 | the upload destination is directly inside the uploads directory and is named `<job id><suffix>`, where the suffix is the original name's, lower-cased; so its own suffix is that lower-cased suffix |
| Files.FileManager.GetOutputPath | file_manager.py:113-135 | names holding "/", "\\" or ".." give None; otherwise the candidate is returned exactly when it exists; anything returned is the outputs directory or directly inside it, and it is the directory itself exactly for the names "" and "." |
| Files.FileManager.CandidateInside | file_manager.py:129-133 | a name passing the character test always passes the prefix test; its candidate is the outputs directory exactly for "" and "." |
| Files.FileManager.OutputsDirServed | file_manager.py:113-135 | the names "" and "." pass the guard and give the outputs directory itself whenever it exists |
| Files.JobNameSafe | file_manager.py:126-127 | a job id followed by a one-dot extension passes the character test |
| Files.FileManager.JobFilesServed | file_manager.py:76-82 | a job's published "<id>.mid" and "<id>.abc" names are served as its MIDI and ABC paths whenever those exist |
| Files.FileManager.JobPathsDistinct | file_manager.py:76-86 | for ids without '/', a job's MIDI, ABC and metadata paths differ, and two jobs share a path only when they are the same job |
| Cli.AbcOutputPath | main.py:146 | the ABC destination is set exactly when `--abc` has a non-empty value, and is that value |
| Cli.MidiOutputChoice | main.py:141-144 | for an accepted input, `-o` is used unchanged; otherwise the input's stem with ".mid", which never equals the input |
| Cli.RunCli | main.py:128-185 | exit code 1 with nothing done on a validation failure; exit code 1 after starting on a transcription failure, with no MIDI written; otherwise exit code 0, MIDI written, then ABC saved or failed when asked, with the exit code independent of the ABC outcome |

## Left out

- The MIDI-to-ABC conversion (`abc_converter.py`, its quantisation strategies). It is a thin wrapper over music21, which is not part of this model. Its outcome is a boolean parameter of `Cli.RunCli`.
- Audio inference and decoding are parameters of `Transcriber.Transcribe`: basic-pitch `predict`, the pydub/ffmpeg conversion, and temporary WAV files and their removal. The thresholds passed to `predict` do not affect the model.
- `save_midi` and its directory creation are not modelled. Writing the MIDI file is recorded as the `MidiSaved` step. A failure while writing is not modelled: the source does not catch it, so it escapes `main()` and the run ends with exit status 1, skipping the ABC step. `Cli.RunCli` has no such path.
- The FastAPI routes, the lifespan hook and the static mount are not modelled. The upload route's extension check appears only in `Server.AcceptedUploadValidates`.
- File system effects are not modelled: directory creation, writing uploads, the glob in `get_upload_path`, `cleanup_job`, and the clock-driven `cleanup_stale`/`cleanup_all`. Existence is a boolean, or the set of existing paths.
- `save_job_meta`/`load_job_meta` (JSON persistence) are left out. Only the metadata path is modelled.
- The random UUID of `new_job` is a parameter, so only the shape of the id is proved.
- All float rounding is left out: `round(..., 2)` in the summary, `round(note.start, 4)` in the extraction, and `:.2f` printing. Times are exact reals, and NaN ordering is not modelled.
- Argument parsing, console printing (including `_print_summary`) and `time.perf_counter` are left out.
- `_midi_pitch_to_name` in main.py:28-32 is a character-for-character copy of server.py:35-39. Both are modelled by the single function `PitchNames.MidiPitchToName`, so their agreement holds by construction.
- Paths are strings already in pathlib's normal form. pathlib would normalise "song.wav/" to "song.wav" and "a//b" to "a/b" before taking `name` or `suffix`; the model does not, so such inputs are outside it. `resolve()` is the identity (an absolute base directory without symbolic links). So symbolic links that could make the prefix test in `get_output_path` fail are not modelled.
- `Text.Lower`: lower-cases ASCII letters only. Python's `str.lower` also maps other Unicode letters.
- Cli.MidiOutputPath: `-o ""` is kept as the empty string, whereas `Path("")` would normalise it to ".".
- Files.FileManager.JobPathsDistinct: stated only for job ids without '/'. Every id from `new_job` qualifies; with a '/' in an id, pathlib would read the joined text as several components.
