/** main.py: the command-line run. Argument parsing, console output and timing are not
    modelled; the run is a method over the parsed arguments and over what the outside world
    answers (the audio back end, and whether the ABC conversion raises). */
module Cli {
  import opened Wrappers
  import opened Text
  import opened PurePath
  import opened Transcriber

  /** The parsed arguments that decide the control flow: the input, `-o` and `--abc`. */
  datatype CliArgs = CliArgs(input: string, output: Option<string>, abc: Option<string>)

  datatype Runtime = Runtime(audio: Backend, abcConversionSucceeds: bool)

  /** The observable steps of a run, in order. */
  datatype Effect =
    | TranscriptionStarted(audioPath: string)
    | MidiSaved(midiPath: string)
    | AbcSaved(midiPath: string, abcPath: string)
    | AbcFailed(midiPath: string, abcPath: string)

  /** The MIDI destination: `-o` when given, otherwise the input with its suffix replaced by
      ".mid" (None where `with_suffix` would raise). */
  function MidiOutputPath(audioPath: string, output: Option<string>): Option<string> {
    if output.Some? then output else WithSuffix(audioPath, ".mid")
  }

  /** The ABC destination: set exactly when `--abc` is given a non-empty value. */
  function AbcOutputPath(abc: Option<string>): (r: Option<string>)
    ensures r.Some? <==> abc.Some? && abc.value != []
    ensures r.Some? ==> r.value == abc.value
  {
    if abc.Some? && abc.value != [] then abc else None
  }

  /** For an accepted input the MIDI destination always exists: `-o` unchanged when given;
      otherwise the input's stem followed by ".mid", which is never the input itself because
      ".mid" is not an accepted audio suffix. */
  lemma MidiOutputChoice(audioPath: string, output: Option<string>)
    requires ValidateAudioPath(audioPath, true).Success?
    ensures MidiOutputPath(audioPath, output).Some?
    ensures output.Some? ==> MidiOutputPath(audioPath, output) == output
    ensures output.None? ==>
      var m := MidiOutputPath(audioPath, output).value;
      && Suffix(m) == ".mid"
      && m == audioPath[..|audioPath| - |Suffix(audioPath)|] + ".mid"
      && m != audioPath
  {
    if output.None? {
      AcceptedSuffixIsNotMidi(audioPath);
      WithSuffixRoundTrip(audioPath, ".mid");
    }
  }

  /** An accepted input has a suffix, so a non-empty name, and that suffix is not ".mid". */
  lemma AcceptedSuffixIsNotMidi(audioPath: string)
    requires ValidateAudioPath(audioPath, true).Success?
    ensures Suffix(audioPath) != [] && Name(audioPath) != []
    ensures Suffix(audioPath) != ".mid"
  {
    var ext := Suffix(audioPath);
    assert Lower(ext) in SUPPORTED_EXTENSIONS;
    assert Lower(".mid") == ".mid";
  }

  /** `main`: returns 1 when validation fails (before anything is transcribed) or when
      transcription raises (before any MIDI is written); otherwise writes the MIDI file,
      attempts the ABC file when asked, and returns 0 whatever the ABC conversion does. */
  method RunCli(args: CliArgs, rt: Runtime) returns (exitCode: int, effects: seq<Effect>)
    ensures exitCode == 0 || exitCode == 1
    ensures exitCode == 0 <==> TranscribeSucceeds(args.input, rt.audio)
    ensures ValidateAudioPath(args.input, rt.audio.fileExists).Failure? ==> effects == []
    ensures ValidateAudioPath(args.input, rt.audio.fileExists).Success? && exitCode == 1 ==>
      effects == [TranscriptionStarted(args.input)]
    ensures exitCode == 0 ==>
      var midi := MidiOutputPath(args.input, args.output);
      var abc := AbcOutputPath(args.abc);
      && midi.Some?
      && |effects| == (if abc.Some? then 3 else 2)
      && effects[0] == TranscriptionStarted(args.input)
      && effects[1] == MidiSaved(midi.value)
      && (abc.Some? ==>
            effects[2] == (if rt.abcConversionSucceeds then AbcSaved(midi.value, abc.value)
                           else AbcFailed(midi.value, abc.value)))
  {
    var validated := ValidateAudioPath(args.input, rt.audio.fileExists);
    if validated.Failure? {
      return 1, [];
    }
    var audioPath := validated.value;
    MidiOutputChoice(audioPath, args.output);
    var midiOutput := MidiOutputPath(audioPath, args.output).value;
    var abcOutput := AbcOutputPath(args.abc);

    effects := [TranscriptionStarted(audioPath)];
    var transcription := Transcribe(audioPath, rt.audio);
    if transcription.Failure? {
      return 1, effects;
    }

    effects := effects + [MidiSaved(midiOutput)];
    if abcOutput.Some? {
      if rt.abcConversionSucceeds {
        effects := effects + [AbcSaved(midiOutput, abcOutput.value)];
      } else {
        effects := effects + [AbcFailed(midiOutput, abcOutput.value)];
      }
    }
    return 0, effects;
  }
}
