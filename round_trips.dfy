/** How the files transcribe.py writes read back: `parse_vtt` applied to what `save_vtt`
    wrote gives the segments back. */
module RoundTrips {
  import opened Strings
  import opened Timecode
  import opened Transcript
  import opened VttParser
  import opened Serializers

  /** A cue text `parse_vtt` reads back unchanged: one non-empty line (no carriage return
      either, which reading in text mode would turn into a line break), no surrounding
      whitespace, nothing the tag substitution would remove. */
  predicate IsPlainLine(t: string) {
    t != [] && IsStripped(t) && '\n' !in t && '\r' !in t && RemoveTags(t) == t
  }

  /** A segment `save_vtt` can write and `parse_vtt` read back as it was. */
  predicate Writable(seg: Segment) {
    IsVttStamp(seg.start) && IsVttStamp(seg.end) && IsPlainLine(seg.text)
  }

  /** Text without digits holds no timing line: the scanner passes over it. */
  lemma {:induction false} SkipNoDigits(a: string, r: string)
    requires forall i :: 0 <= i < |a| ==> !IsDigit(a[i])
    ensures Matches(a + r) == Matches(r)
    decreases |a|
  {
    if a != [] {
      var s := a + r;
      if 30 <= |s| {
        assert s[..12][0] == a[0];
        assert !IsVttStamp(s[..12]);
      }
      assert !CueAt(s);
      assert s[1..] == a[1..] + r;
      assert Matches(s) == Matches(s[1..]);
      SkipNoDigits(a[1..], r);
    } else {
      assert a + r == r;
    }
  }

  /** A timing line `start --> end` and its newline, as `save_vtt` writes it, is where the
      pattern matches. */
  lemma TimingLine(start: string, end: string, rest: string)
    requires IsVttStamp(start) && IsVttStamp(end)
    ensures var s := start + " --> " + end + "\n" + rest;
      CueAt(s) && s[..12] == start && s[17..29] == end && s[30..] == rest
  {
    var s := start + " --> " + end + "\n" + rest;
    assert s[..12] == start;
    assert s[12..17] == " --> ";
    assert s[17..29] == end;
    assert s[30..] == rest;
  }

  /** In a one-line text followed by a newline, the first newline is the one after it. */
  lemma FirstNewline(text: string, rest: string)
    requires '\n' !in text
    ensures FindFrom(text + "\n" + rest, '\n', 0) == |text|
  {
    var s := text + "\n" + rest;
    assert s[|text|] == '\n';
    assert forall k :: 0 <= k < |text| ==> s[k] == text[k];
  }

  /** A cue block as `save_vtt` writes it is one match of the pattern, ending at the blank
      line that follows the text. */
  lemma CueOfBlock(seg: Segment, r: string)
    requires IsVttStamp(seg.start) && IsVttStamp(seg.end) && '\n' !in seg.text
    ensures CueAt(VttCue(seg) + r)
    ensures MatchAt(VttCue(seg) + r) == Match(seg.start, seg.end, seg.text)
    ensures (VttCue(seg) + r)[CueEnd(VttCue(seg) + r)..] == "\n\n" + r
  {
    var body := seg.text + "\n" + ("\n" + r);
    assert VttCue(seg) + r == seg.start + " --> " + seg.end + "\n" + body;
    CueOfTimed(VttCue(seg) + r, seg.start, seg.end, seg.text, r);
  }

  lemma CueOfTimed(s: string, start: string, end: string, text: string, r: string)
    requires IsVttStamp(start) && IsVttStamp(end) && '\n' !in text
    requires s == start + " --> " + end + "\n" + (text + "\n" + ("\n" + r))
    ensures CueAt(s) && MatchAt(s) == Match(start, end, text) && s[CueEnd(s)..] == "\n\n" + r
  {
    var timing := start + " --> " + end + "\n";
    var body := text + "\n" + ("\n" + r);
    assert s == timing + body;
    TimingLine(start, end, body);
    FirstNewline(text, "\n" + r);
    FindFromShift(timing, body, '\n', 0);
    var n := 30 + |text|;
    assert CueEnd(s) == n;
    assert s[30..][..|text|] == body[..|text|] == text;
    assert s[30..n] == text;
    assert s[n..] == body[|text|..] == "\n\n" + r;
  }

  /** One written cue block reads back as its segment, and scanning goes on after it. */
  lemma ReadBackCue(seg: Segment, rest: string)
    requires Writable(seg)
    ensures KeepCues(Matches(VttCue(seg) + rest)) == [seg] + KeepCues(Matches(rest))
  {
    var s := VttCue(seg) + rest;
    var m := Match(seg.start, seg.end, seg.text);
    CueOfBlock(seg, rest);
    assert Matches(s) == [m] + Matches("\n\n" + rest);
    SkipNoDigits("\n\n", rest);
    StripStripped(seg.text);
    assert CleanText(m.raw) == seg.text;
    KeepCuesCons(m, Matches(rest));
  }

  /** The cue blocks read back as the segments they were written from. */
  lemma {:induction false} BodyReadsBack(segments: seq<Segment>)
    requires forall seg :: seg in segments ==> Writable(seg)
    ensures KeepCues(Matches(VttBody(segments))) == segments
  {
    if segments == [] {
      assert VttBody(segments) == [];
    } else {
      assert segments[0] in segments;
      ReadBackCue(segments[0], VttBody(segments[1..]));
      BodyReadsBack(segments[1..]);
      assert segments == [segments[0]] + segments[1..];
    }
  }

  /** `parse_vtt(save_vtt(S)) == S` for times in `HH:MM:SS.mmm` form and texts that are
      single plain lines: reading the written file in text mode gives it back unchanged,
      and the scanner finds every cue in it. */
  lemma VttRoundTrip(segments: seq<Segment>)
    requires forall seg :: seg in segments ==> Writable(seg)
    ensures TextModeRead(VttOf(segments)) == VttOf(segments)
    ensures Scan(TextModeRead(VttOf(segments))) == segments
  {
    VttWithoutReturn(segments);
    SkipNoDigits("WEBVTT\n\n", VttBody(segments));
    BodyReadsBack(segments);
  }
}
