/** server.py: the summary returned with every transcription, and the extension check the
    upload route makes before a job is created. The HTTP routes themselves are not modelled. */
module Server {
  import opened Text
  import opened PurePath
  import opened PitchNames
  import opened Transcriber
  import Files

  /** The response's "summary" object; times are exact (rounding is not modelled). */
  datatype Summary = Summary(numNotes: nat, durationSeconds: real, pitchRange: seq<string>, timeSpan: seq<real>)

  function Starts(events: seq<NoteEvent>): seq<real> {
    seq(|events|, i requires 0 <= i < |events| => events[i].startTime)
  }

  function Ends(events: seq<NoteEvent>): seq<real> {
    seq(|events|, i requires 0 <= i < |events| => events[i].endTime)
  }

  function Pitches(events: seq<NoteEvent>): seq<int> {
    seq(|events|, i requires 0 <= i < |events| => events[i].midiPitch)
  }

  /** Python's `min` and `max` over a non-empty list. */
  function MinReal(xs: seq<real>): (m: real)
    requires xs != []
    ensures m in xs && forall i :: 0 <= i < |xs| ==> m <= xs[i]
  {
    if |xs| == 1 then xs[0]
    else
      var rest := MinReal(xs[1..]);
      assert forall i :: 1 <= i < |xs| ==> xs[i] == xs[1..][i - 1];
      if xs[0] <= rest then xs[0] else rest
  }

  function MaxReal(xs: seq<real>): (m: real)
    requires xs != []
    ensures m in xs && forall i :: 0 <= i < |xs| ==> xs[i] <= m
  {
    if |xs| == 1 then xs[0]
    else
      var rest := MaxReal(xs[1..]);
      assert forall i :: 1 <= i < |xs| ==> xs[i] == xs[1..][i - 1];
      if xs[0] >= rest then xs[0] else rest
  }

  function MinInt(xs: seq<int>): (m: int)
    requires xs != []
    ensures m in xs && forall i :: 0 <= i < |xs| ==> m <= xs[i]
  {
    if |xs| == 1 then xs[0]
    else
      var rest := MinInt(xs[1..]);
      assert forall i :: 1 <= i < |xs| ==> xs[i] == xs[1..][i - 1];
      if xs[0] <= rest then xs[0] else rest
  }

  function MaxInt(xs: seq<int>): (m: int)
    requires xs != []
    ensures m in xs && forall i :: 0 <= i < |xs| ==> xs[i] <= m
  {
    if |xs| == 1 then xs[0]
    else
      var rest := MaxInt(xs[1..]);
      assert forall i :: 1 <= i < |xs| ==> xs[i] == xs[1..][i - 1];
      if xs[0] >= rest then xs[0] else rest
  }

  /** t is the start time of some event and no event starts earlier. */
  predicate IsEarliestStart(events: seq<NoteEvent>, t: real) {
    (exists i :: 0 <= i < |events| && events[i].startTime == t) &&
    forall i :: 0 <= i < |events| ==> t <= events[i].startTime
  }

  /** t is the end time of some event and no event ends later. */
  predicate IsLatestEnd(events: seq<NoteEvent>, t: real) {
    (exists i :: 0 <= i < |events| && events[i].endTime == t) &&
    forall i :: 0 <= i < |events| ==> events[i].endTime <= t
  }

  predicate IsLowestPitch(events: seq<NoteEvent>, p: int) {
    (exists i :: 0 <= i < |events| && events[i].midiPitch == p) &&
    forall i :: 0 <= i < |events| ==> p <= events[i].midiPitch
  }

  predicate IsHighestPitch(events: seq<NoteEvent>, p: int) {
    (exists i :: 0 <= i < |events| && events[i].midiPitch == p) &&
    forall i :: 0 <= i < |events| ==> events[i].midiPitch <= p
  }

  /** `_build_summary`: all zeros and empty lists for no events; otherwise the count, the
      names of the lowest and highest pitch, and the span from the earliest start to the
      latest end, whose length is the duration. */
  function BuildSummary(events: seq<NoteEvent>): (s: Summary)
    ensures events == [] ==> s == Summary(0, 0.0, [], [])
    ensures events != [] ==> s.numNotes == |events|
    ensures events != [] ==>
      |s.timeSpan| == 2 && IsEarliestStart(events, s.timeSpan[0]) && IsLatestEnd(events, s.timeSpan[1])
    ensures events != [] ==> s.durationSeconds == s.timeSpan[1] - s.timeSpan[0]
    ensures events != [] ==>
      exists lo, hi :: IsLowestPitch(events, lo) && IsHighestPitch(events, hi) && lo <= hi &&
        s.pitchRange == [MidiPitchToName(lo), MidiPitchToName(hi)]
  {
    if events == [] then Summary(0, 0.0, [], [])
    else
      var starts, ends, pitches := Starts(events), Ends(events), Pitches(events);
      var lowest, highest := MinInt(pitches), MaxInt(pitches);
      var first, last := MinReal(starts), MaxReal(ends);
      ProjectionExtremes(events);
      assert lowest <= pitches[0] <= highest;
      Summary(|events|, last - first,
              [MidiPitchToName(lowest), MidiPitchToName(highest)], [first, last])
  }

  /** The minima and maxima of the projected lists are the extremes over the events. */
  lemma ProjectionExtremes(events: seq<NoteEvent>)
    requires events != []
    ensures IsEarliestStart(events, MinReal(Starts(events)))
    ensures IsLatestEnd(events, MaxReal(Ends(events)))
    ensures IsLowestPitch(events, MinInt(Pitches(events)))
    ensures IsHighestPitch(events, MaxInt(Pitches(events)))
  {
    var starts, ends, pitches := Starts(events), Ends(events), Pitches(events);
    assert forall n :: 0 <= n < |events| ==> starts[n] == events[n].startTime;
    assert forall n :: 0 <= n < |events| ==> ends[n] == events[n].endTime;
    assert forall n :: 0 <= n < |events| ==> pitches[n] == events[n].midiPitch;
    var i :| 0 <= i < |starts| && starts[i] == MinReal(starts);
    assert events[i].startTime == MinReal(starts);
    var j :| 0 <= j < |ends| && ends[j] == MaxReal(ends);
    assert events[j].endTime == MaxReal(ends);
    var k :| 0 <= k < |pitches| && pitches[k] == MinInt(pitches);
    assert events[k].midiPitch == MinInt(pitches);
    var l :| 0 <= l < |pitches| && pitches[l] == MaxInt(pitches);
    assert events[l].midiPitch == MaxInt(pitches);
  }

  /** The extremes do not depend on which of several equal events is picked. */
  lemma ExtremesUnique(a: seq<NoteEvent>, b: seq<NoteEvent>, t: real, u: real, p: int, q: int)
    requires forall e :: e in a <==> e in b
    ensures IsEarliestStart(a, t) && IsEarliestStart(b, u) ==> t == u
    ensures IsLatestEnd(a, t) && IsLatestEnd(b, u) ==> t == u
    ensures IsLowestPitch(a, p) && IsLowestPitch(b, q) ==> p == q
    ensures IsHighestPitch(a, p) && IsHighestPitch(b, q) ==> p == q
  {
    forall i | 0 <= i < |a| ensures exists j :: 0 <= j < |b| && b[j] == a[i] {
      assert a[i] in b;
    }
    forall j | 0 <= j < |b| ensures exists i :: 0 <= i < |a| && a[i] == b[j] {
      assert b[j] in a;
    }
  }

  /** The summary depends only on which events occur and how often, not on their order:
      sorting the events first (as the transcriber does) does not change it. */
  lemma SummaryIgnoresOrder(a: seq<NoteEvent>, b: seq<NoteEvent>)
    requires multiset(a) == multiset(b)
    ensures BuildSummary(a) == BuildSummary(b)
  {
    SameElements(a, b);
    if a != [] {
      ProjectionExtremes(a);
      ProjectionExtremes(b);
      ExtremesUnique(a, b, MinReal(Starts(a)), MinReal(Starts(b)), MinInt(Pitches(a)), MinInt(Pitches(b)));
      ExtremesUnique(a, b, MaxReal(Ends(a)), MaxReal(Ends(b)), MaxInt(Pitches(a)), MaxInt(Pitches(b)));
      SummaryOfExtremes(a);
      SummaryOfExtremes(b);
    }
  }

  /** Lists with the same multiset of events have the same length and the same members. */
  lemma SameElements(a: seq<NoteEvent>, b: seq<NoteEvent>)
    requires multiset(a) == multiset(b)
    ensures |a| == |b| && (a == [] <==> b == [])
    ensures forall e :: e in a <==> e in b
  {
    assert |a| == |multiset(a)| == |multiset(b)| == |b|;
    forall e ensures e in a <==> e in b {
      assert e in a <==> e in multiset(a);
      assert e in b <==> e in multiset(b);
    }
  }

  /** The summary of a non-empty list, in terms of its extremes. */
  lemma SummaryOfExtremes(events: seq<NoteEvent>)
    requires events != []
    ensures BuildSummary(events) ==
      Summary(|events|, MaxReal(Ends(events)) - MinReal(Starts(events)),
              [MidiPitchToName(MinInt(Pitches(events))), MidiPitchToName(MaxInt(Pitches(events)))],
              [MinReal(Starts(events)), MaxReal(Ends(events))])
  {
  }

  /** When every note ends no earlier than it starts, the duration is never negative. */
  lemma SummaryDurationNonNegative(events: seq<NoteEvent>)
    requires forall i :: 0 <= i < |events| ==> events[i].startTime <= events[i].endTime
    ensures BuildSummary(events).durationSeconds >= 0.0
  {
    if events != [] {
      var s := BuildSummary(events);
      assert s.timeSpan[0] <= events[0].startTime <= events[0].endTime <= s.timeSpan[1];
    }
  }

  /** The pitch range names the lowest and highest pitch in a form that reads back. */
  lemma PitchRangeReadsBack(events: seq<NoteEvent>)
    requires events != []
    ensures var r := BuildSummary(events).pitchRange;
      |r| == 2 && ParsePitchName(r[0]).Some? && ParsePitchName(r[1]).Some? &&
      IsLowestPitch(events, ParsePitchName(r[0]).value) &&
      IsHighestPitch(events, ParsePitchName(r[1]).value) &&
      ParsePitchName(r[0]).value <= ParsePitchName(r[1]).value
  {
    var s := BuildSummary(events);
    var lo, hi :| IsLowestPitch(events, lo) && IsHighestPitch(events, hi) && lo <= hi &&
      s.pitchRange == [MidiPitchToName(lo), MidiPitchToName(hi)];
  }

  /** The route's check on the uploaded name (a name is given and its lower-cased suffix is
      supported) is the check the transcriber repeats on the saved copy: a file that passes
      the first always passes the second, and is routed through WAV conversion exactly when
      its original suffix asks for it. */
  lemma AcceptedUploadValidates(fm: Files.FileManager, jobId: string, filename: string)
    requires Files.IsJobId(jobId)
    requires filename != [] && Lower(Suffix(filename)) in SUPPORTED_EXTENSIONS
    ensures ValidateAudioPath(fm.UploadDestination(jobId, filename), true).Success?
    ensures NeedsConversion(fm.UploadDestination(jobId, filename)) <==> Lower(Suffix(filename)) in CONVERT_EXTENSIONS
  {
    fm.UploadKeepsFormat(jobId, filename);
    LowerIdempotent(Suffix(filename));
  }
}
