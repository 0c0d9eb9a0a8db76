/** Where transcribe.py gets its segments from: `check_youtube_transcript`, the record
    conversion in `transcribe_audio`, and the fallback in `main`. Each yt-dlp run is
    reduced to what the code looks at (its exit code and the caption file it leaves),
    and the Whisper engine to the records it returns. */
module Acquisition {
  import opened Wrappers
  import opened Strings
  import opened Timecode
  import opened Transcript
  import opened VttParser
  import opened Serializers

  /** The two subtitle requests, in the order they are made: English subtitles
      (`--write-subs --sub-lang en`), then automatic captions (`--write-auto-subs`). */
  datatype Request = EnglishSubs | AutoSubs

  /** What one yt-dlp subtitle run leaves behind: its exit code, and the text of the
      `.vtt` file picked from the temporary directory, if there is one. */
  datatype Attempt = Attempt(exitCode: int, vtt: Option<string>)

  /** The test a fetched caption file must pass: the run succeeded, a `.vtt` file exists,
      and its stripped text is longer than 10 characters and holds a clock reading. */
  predicate Accepts(a: Attempt) {
    a.exitCode == 0 && a.vtt.Some? && |Strip(a.vtt.value)| > 10 && HasClock(Strip(a.vtt.value))
  }

  /** The caption file `check_youtube_transcript` settles on. */
  function CaptionOf(english: Attempt, auto: Attempt): (caption: Option<string>)
    ensures caption.Some? <==> Accepts(english) || Accepts(auto)
    ensures Accepts(english) ==> caption == english.vtt
    ensures !Accepts(english) ==> caption == (if Accepts(auto) then auto.vtt else None)
    ensures caption.Some? ==> |Strip(caption.value)| > 10 && HasClock(Strip(caption.value))
  {
    if Accepts(english) then english.vtt
    else if Accepts(auto) then auto.vtt
    else None
  }

  /** `check_youtube_transcript`: English subtitles first, automatic captions only when
      those are not accepted. `requests` lists the yt-dlp runs made, in order. */
  method CheckYoutubeTranscript(run: Request -> Attempt) returns (caption: Option<string>, requests: seq<Request>)
    ensures caption == CaptionOf(run(EnglishSubs), run(AutoSubs))
    ensures requests == if Accepts(run(EnglishSubs)) then [EnglishSubs] else [EnglishSubs, AutoSubs]
  {
    requests := [EnglishSubs];
    var english := run(EnglishSubs);
    if english.exitCode == 0 && english.vtt.Some? {
      var content := Strip(english.vtt.value);
      if |content| > 10 && HasClock(content) {
        return english.vtt, requests;
      }
    }
    requests := requests + [AutoSubs];
    var auto := run(AutoSubs);
    if auto.exitCode == 0 && auto.vtt.Some? {
      var content := Strip(auto.vtt.value);
      if |content| > 10 && HasClock(content) {
        return auto.vtt, requests;
      }
    }
    return None, requests;
  }

  /** A file without any digit, such as one holding only the `WEBVTT` header, is never
      accepted. */
  lemma NoDigitsRejected(code: int, content: string)
    requires forall i :: 0 <= i < |content| ==> !IsDigit(content[i])
    ensures !Accepts(Attempt(code, Some(content)))
  {
    var k := StripOffset(content);
  }

  /** A caption file that starts with the `WEBVTT` header line, a blank line and a cue
      timestamp passes the test. */
  lemma HeaderAndStampAccepted(stamp: string, rest: string)
    requires IsVttStamp(stamp)
    ensures Accepts(Attempt(0, Some("WEBVTT\n\n" + stamp + rest)))
  {
    var s := "WEBVTT\n\n" + stamp + rest;
    assert s[..20] == "WEBVTT\n\n" + stamp;
    assert s[0] == 'W' && s[15] == stamp[7];
    StripKeepsPrefix(s, 15);
    var r := Strip(s);
    assert r[8..16] == s[8..16] == stamp[..8];
    assert StartsWithClock(r[8..]);
  }

  /** A file `save_vtt` wrote for at least one segment with a well-formed start time passes
      the test. */
  lemma SavedVttAccepted(segments: seq<Segment>)
    requires segments != [] && IsVttStamp(segments[0].start)
    ensures Accepts(Attempt(0, Some(VttOf(segments))))
  {
    var seg := segments[0];
    var rest := " --> " + seg.end + "\n" + seg.text + "\n\n" + VttBody(segments[1..]);
    assert VttOf(segments) == "WEBVTT\n\n" + seg.start + rest;
    HeaderAndStampAccepted(seg.start, rest);
  }

  // ---------------------------------------------------------------- transcribe_audio

  /** One segment as the Whisper engine reports it, with its times in milliseconds. */
  datatype EngineSegment = EngineSegment(start: nat, end: nat, text: string)

  /** The record `transcribe_audio` builds from one engine segment: times rendered by
      `seconds_to_vtt_time`, text stripped (and kept even when empty). */
  function Converted(r: EngineSegment): Segment {
    Segment(VttTime(r.start), VttTime(r.end), Strip(r.text))
  }

  /** The records `transcribe_audio` returns: one per engine segment, in order. */
  function Transcribed(records: seq<EngineSegment>): (segments: seq<Segment>)
    ensures |segments| == |records|
  {
    if records == [] then []
    else Transcribed(records[..|records| - 1]) + [Converted(records[|records| - 1])]
  }

  /** The `i`-th record comes from the `i`-th engine segment. */
  lemma TranscribedAt(records: seq<EngineSegment>)
    ensures forall i :: 0 <= i < |records| ==> Transcribed(records)[i] == Converted(records[i])
  {
    forall i | 0 <= i < |records| ensures Transcribed(records)[i] == Converted(records[i]) {
      TranscribedIndex(records, i);
    }
  }

  lemma {:induction false} TranscribedIndex(records: seq<EngineSegment>, i: nat)
    requires i < |records|
    ensures Transcribed(records)[i] == Converted(records[i])
    decreases |records|
  {
    if i < |records| - 1 {
      var init := records[..|records| - 1];
      TranscribedIndex(init, i);
      assert init[i] == records[i];
    }
  }

  /** One turn of the loop in `transcribe_audio`. */
  lemma TranscribeStep(records: seq<EngineSegment>, i: nat)
    requires i < |records|
    ensures Transcribed(records[..i + 1]) == Transcribed(records[..i]) + [Converted(records[i])]
  {
    assert records[..i + 1] == records[..i] + [records[i]];
    TranscribedSnoc(records[..i], records[i]);
  }

  lemma TranscribedSnoc(init: seq<EngineSegment>, r: EngineSegment)
    ensures Transcribed(init + [r]) == Transcribed(init) + [Converted(r)]
  {
    assert (init + [r])[..|init|] == init;
  }

  method TranscribeAudio(records: seq<EngineSegment>) returns (segments: seq<Segment>)
    ensures segments == Transcribed(records)
    ensures forall i :: 0 <= i < |records| ==>
      ParseStamp(segments[i].start) == Some(records[i].start)
      && ParseStamp(segments[i].end) == Some(records[i].end)
  {
    segments := [];
    var i := 0;
    while i < |records|
      invariant i <= |records|
      invariant segments == Transcribed(records[..i])
    {
      var r := records[i];
      var seg := Segment(VttTime(r.start), VttTime(r.end), Strip(r.text));
      TranscribeStep(records, i);
      segments := segments + [seg];
      i := i + 1;
    }
    assert records[..i] == records;
    TranscribedTimesReadBack(records);
  }

  /** `time_to_seconds` reads every transcribed time back as the engine's time. */
  lemma TranscribedTimesReadBack(records: seq<EngineSegment>)
    ensures forall i :: 0 <= i < |records| ==>
      ParseStamp(Transcribed(records)[i].start) == Some(records[i].start)
      && ParseStamp(Transcribed(records)[i].end) == Some(records[i].end)
  {
    TranscribedAt(records);
    forall i | 0 <= i < |records|
      ensures ParseStamp(Transcribed(records)[i].start) == Some(records[i].start)
      ensures ParseStamp(Transcribed(records)[i].end) == Some(records[i].end)
    {
      ParseVttTime(records[i].start);
      ParseVttTime(records[i].end);
    }
  }

  /** Transcribed times below 100 hours are cue timestamps `parse_vtt` recognises. */
  lemma TranscribedStamps(records: seq<EngineSegment>)
    requires forall r :: r in records ==> r.start < 100 * 3_600_000 && r.end < 100 * 3_600_000
    ensures forall seg :: seg in Transcribed(records) ==> IsVttStamp(seg.start) && IsVttStamp(seg.end)
  {
    var segments := Transcribed(records);
    TranscribedAt(records);
    forall seg | seg in segments ensures IsVttStamp(seg.start) && IsVttStamp(seg.end) {
      var i :| 0 <= i < |segments| && segments[i] == seg;
      assert records[i] in records;
      VttTimeIsStamp(records[i].start);
      VttTimeIsStamp(records[i].end);
    }
  }

  // ---------------------------------------------------------------- main

  /** Where `main` takes its segments from, or the exit when the audio download fails. */
  datatype Acquired = FromCaptions(segments: seq<Segment>) | FromAudio(segments: seq<Segment>) | DownloadFailed

  /** The audio path: `download_audio` exits with status 1 when yt-dlp fails, otherwise
      the engine's records are converted. */
  function FromAudioTrack(downloadExit: int, records: seq<EngineSegment>): Acquired {
    if downloadExit != 0 then DownloadFailed else FromAudio(Transcribed(records))
  }

  /** The segments `main` goes on with. */
  function Acquire(english: Attempt, auto: Attempt, downloadExit: int, records: seq<EngineSegment>): (r: Acquired)
    ensures !r.FromCaptions? <==> CaptionOf(english, auto).None? || Scan(CaptionOf(english, auto).value) == []
    ensures r.FromCaptions? ==> r.segments == Scan(CaptionOf(english, auto).value) && r.segments != []
    ensures r.DownloadFailed? <==> !r.FromCaptions? && downloadExit != 0
    ensures r.FromAudio? ==> r.segments == Transcribed(records)
  {
    match CaptionOf(english, auto)
    case None => FromAudioTrack(downloadExit, records)
    case Some(c) =>
      if Scan(c) == [] then FromAudioTrack(downloadExit, records) else FromCaptions(Scan(c))
  }

  /** The acquisition steps of `main`: look for captions, parse them, and fall back to
      the audio when there are none or they yield no segment. */
  method ObtainSegments(run: Request -> Attempt, downloadExit: int, records: seq<EngineSegment>)
    returns (result: Acquired)
    ensures result == Acquire(run(EnglishSubs), run(AutoSubs), downloadExit, records)
  {
    var caption, _ := CheckYoutubeTranscript(run);
    if caption.Some? {
      var segments := ParseVtt(caption.value);
      if |segments| == 0 {
        if downloadExit != 0 {
          return DownloadFailed;
        }
        segments := TranscribeAudio(records);
        return FromAudio(segments);
      }
      return FromCaptions(segments);
    }
    if downloadExit != 0 {
      return DownloadFailed;
    }
    var segments := TranscribeAudio(records);
    return FromAudio(segments);
  }
}
