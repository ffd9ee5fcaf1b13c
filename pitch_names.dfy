/** MIDI pitch numbers as note names ("C4" for middle C), as server.py and main.py both
    print them: the letter is chosen by `pitch % 12`, the octave is `pitch // 12 - 1`.
    Python's floor `//` and `%` by 12 agree with Dafny's Euclidean `/` and `%`. */
module PitchNames {
  import opened Wrappers
  import Decimal

  const NOTE_NAMES: seq<string> := ["C", "C#", "D", "D#", "E", "F", "F#", "G", "G#", "A", "A#", "B"]

  /** The letter part; indexing NOTE_NAMES by `pitch % 12` is always in range. */
  function NoteLetter(pitch: int): (letter: string)
    ensures letter in NOTE_NAMES
  {
    NOTE_NAMES[pitch % 12]
  }

  function Octave(pitch: int): int {
    pitch / 12 - 1
  }

  /** `_midi_pitch_to_name`: the name reads back, by ParsePitchName, as the pitch it names. */
  function MidiPitchToName(pitch: int): (name: string)
    ensures ParsePitchName(name) == Some(pitch)
  {
    NameParsesBack(pitch);
    NoteLetter(pitch) + Decimal.IntToString(Octave(pitch))
  }

  /** The position in NOTE_NAMES of a natural (unsharpened) letter. */
  function NaturalIndex(c: char): Option<nat> {
    match c
    case 'C' => Some(0)
    case 'D' => Some(2)
    case 'E' => Some(4)
    case 'F' => Some(5)
    case 'G' => Some(7)
    case 'A' => Some(9)
    case 'B' => Some(11)
    case _ => None
  }

  /** The position in NOTE_NAMES of a letter; a '#' raises a natural letter by one, except
      E and B, which have no sharp in the table. */
  function LetterIndex(letter: string): Option<nat> {
    if |letter| == 1 then NaturalIndex(letter[0])
    else if |letter| == 2 && letter[1] == '#' && letter[0] != 'E' && letter[0] != 'B' then
      match NaturalIndex(letter[0])
      case None => None
      case Some(i) => Some(i + 1)
    else None
  }

  /** LetterIndex inverts the table: it finds each name at its own position and nowhere
      else. */
  lemma LetterIndexOfName(k: nat, letter: string)
    requires k < 12
    ensures LetterIndex(letter) == Some(k) <==> letter == NOTE_NAMES[k]
  {
    if letter == NOTE_NAMES[k] {
      assert k == 0 || k == 1 || k == 2 || k == 3 || k == 4 || k == 5 || k == 6 || k == 7
        || k == 8 || k == 9 || k == 10 || k == 11;
    }
    if LetterIndex(letter) == Some(k) {
      if |letter| == 1 {
        assert letter == [letter[0]];
      } else {
        assert letter == [letter[0], '#'];
      }
    }
  }

  /** The length of the letter at the front of a name: two when a '#' follows it. */
  function LetterLength(s: string): nat {
    if |s| >= 2 && s[1] == '#' then 2 else 1
  }

  /** Inverse of MidiPitchToName: a letter from NOTE_NAMES followed by a decimal octave. */
  function ParsePitchName(s: string): Option<int> {
    if s == [] then None
    else PitchOf(LetterIndex(s[..LetterLength(s)]), Decimal.ParseInt(s[LetterLength(s)..]))
  }

  function PitchOf(letter: Option<nat>, octave: Option<int>): Option<int> {
    if letter.Some? && octave.Some? then Some((octave.value + 1) * 12 + letter.value) else None
  }

  /** A letter is one character, or two whose second is '#'. */
  lemma LetterShape(k: nat)
    requires k < 12
    ensures var letter := NOTE_NAMES[k];
      (|letter| == 1 && letter[0] != '#') || (|letter| == 2 && letter[1] == '#')
  {
    assert k == 0 || k == 1 || k == 2 || k == 3 || k == 4 || k == 5 || k == 6 || k == 7
      || k == 8 || k == 9 || k == 10 || k == 11;
  }

  /** Unfolding ParsePitchName once, for a name split at its letter length. */
  lemma ParseSplit(s: string, letter: string, digits: string)
    requires s != [] && s[..LetterLength(s)] == letter && s[LetterLength(s)..] == digits
    ensures ParsePitchName(s) == PitchOf(LetterIndex(letter), Decimal.ParseInt(digits))
  {
  }

  /** A letter followed by text not starting with '#' splits back into the two. */
  lemma SplitComposed(k: nat, digits: string, s: string)
    requires k < 12 && s == NOTE_NAMES[k] + digits
    requires digits != [] && digits[0] != '#'
    ensures s != [] && s[..LetterLength(s)] == NOTE_NAMES[k] && s[LetterLength(s)..] == digits
  {
    var letter := NOTE_NAMES[k];
    LetterShape(k);
    assert LetterLength(s) == |letter| by {
      if |letter| == 1 {
        assert s[1] == digits[0];
      }
    }
    assert s[..|letter|] == letter && s[|letter|..] == digits;
  }

  lemma ParseComposedName(k: nat, octave: int, s: string, pitch: int)
    requires k < 12 && s == NOTE_NAMES[k] + Decimal.IntToString(octave)
    requires pitch == (octave + 1) * 12 + k
    ensures ParsePitchName(s) == Some(pitch)
  {
    var digits := Decimal.IntToString(octave);
    SplitComposed(k, digits, s);
    ParseSplit(s, NOTE_NAMES[k], digits);
    LetterIndexOfName(k, NOTE_NAMES[k]);
    Decimal.ParseIntToString(octave);
  }

  /** The octave and the letter index together recover the pitch. */
  lemma OctaveAndIndex(pitch: int)
    ensures (Octave(pitch) + 1) * 12 + pitch % 12 == pitch
  {
  }

  lemma NameParsesBack(pitch: int)
    ensures ParsePitchName(NoteLetter(pitch) + Decimal.IntToString(Octave(pitch))) == Some(pitch)
  {
    OctaveAndIndex(pitch);
    ParseComposedName(pitch % 12, Octave(pitch), NoteLetter(pitch) + Decimal.IntToString(Octave(pitch)), pitch);
  }

  /** Distinct pitches get distinct names. */
  lemma NamesAreInjective(p: int, q: int)
    ensures MidiPitchToName(p) == MidiPitchToName(q) ==> p == q
  {
    assert ParsePitchName(MidiPitchToName(p)) == Some(p);
    assert ParsePitchName(MidiPitchToName(q)) == Some(q);
  }

  /** Pitches an octave (12 semitones) apart share the letter and differ by one in octave:
      their names begin alike and still differ. */
  lemma OctaveApart(pitch: int)
    ensures NoteLetter(pitch + 12) == NoteLetter(pitch)
    ensures Octave(pitch + 12) == Octave(pitch) + 1
    ensures var n := |NoteLetter(pitch)|;
      MidiPitchToName(pitch + 12)[..n] == MidiPitchToName(pitch)[..n] == NoteLetter(pitch)
    ensures MidiPitchToName(pitch + 12) != MidiPitchToName(pitch)
  {
    var letter := NoteLetter(pitch);
    assert (letter + Decimal.IntToString(Octave(pitch)))[..|letter|] == letter;
    assert (letter + Decimal.IntToString(Octave(pitch) + 1))[..|letter|] == letter;
  }

  /** Middle C, the lowest and the highest MIDI pitch. */
  lemma NamedExamples()
    ensures MidiPitchToName(60) == "C4"
    ensures MidiPitchToName(0) == "C-1"
    ensures MidiPitchToName(127) == "G9"
    ensures MidiPitchToName(69) == "A4"
  {
    assert NoteLetter(60) == "C" && Octave(60) == 4 && Decimal.IntToString(4) == "4";
    assert NoteLetter(0) == "C" && Octave(0) == -1 && Decimal.IntToString(-1) == "-1";
    assert NoteLetter(127) == "G" && Octave(127) == 9 && Decimal.IntToString(9) == "9";
    assert NoteLetter(69) == "A";
  }
}
