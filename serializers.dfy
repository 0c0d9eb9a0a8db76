/** The writers of transcribe.py, `save_txt`, `save_vtt`, `save_srt` and `save_json`,
    each modelled as the text (or JSON value) written to the output file. */
module Serializers {
  import opened Wrappers
  import opened Strings
  import opened Timecode
  import opened Transcript

  // ---------------------------------------------------------------- save_txt

  /** What `save_txt` writes: each segment's text followed by a newline. */
  function TxtOf(segments: seq<Segment>): string {
    if segments == [] then [] else segments[0].text + "\n" + TxtOf(segments[1..])
  }

  method SaveTxt(segments: seq<Segment>) returns (out: string)
    ensures out == TxtOf(segments)
  {
    out := [];
    var i := 0;
    while i < |segments|
      invariant i <= |segments|
      invariant out + TxtOf(segments[i..]) == TxtOf(segments)
    {
      SuffixCons(segments, i);
      Associative(out, segments[i].text + "\n", TxtOf(segments[i + 1..]));
      out := out + segments[i].text + "\n";
      i := i + 1;
    }
  }

  /** One text per line: splitting the file at newlines gives back the texts, then the
      empty remainder after the final newline. */
  lemma {:induction false} TxtLines(segments: seq<Segment>)
    requires forall i :: 0 <= i < |segments| ==> '\n' !in segments[i].text
    ensures Split(TxtOf(segments), '\n') == Texts(segments) + [[]]
  {
    if segments != [] {
      TxtLines(segments[1..]);
      SplitCons(segments[0].text, '\n', TxtOf(segments[1..]));
      assert Texts(segments) == [segments[0].text] + Texts(segments[1..]);
    }
  }

  // ---------------------------------------------------------------- save_vtt

  /** One cue block as `save_vtt` writes it. */
  function VttCue(seg: Segment): string {
    seg.start + " --> " + seg.end + "\n" + seg.text + "\n\n"
  }

  function VttBody(segments: seq<Segment>): string {
    if segments == [] then [] else VttCue(segments[0]) + VttBody(segments[1..])
  }

  /** What `save_vtt` writes: the `WEBVTT` header and a blank line, then the cues. */
  function VttOf(segments: seq<Segment>): string {
    "WEBVTT\n\n" + VttBody(segments)
  }

  method SaveVtt(segments: seq<Segment>) returns (out: string)
    ensures out == VttOf(segments)
  {
    out := "WEBVTT\n\n";
    var i := 0;
    while i < |segments|
      invariant i <= |segments|
      invariant out + VttBody(segments[i..]) == VttOf(segments)
    {
      var seg := segments[i];
      ghost var before := out;
      SuffixCons(segments, i);
      Associative(before, VttCue(seg), VttBody(segments[i + 1..]));
      out := out + (seg.start + " --> " + seg.end + "\n");
      out := out + (seg.text + "\n\n");
      assert out == before + VttCue(seg);
      i := i + 1;
    }
  }

  // ---------------------------------------------------------------- save_srt

  /** One numbered cue block as `save_srt` writes it, from the times in milliseconds. */
  function SrtCue(n: nat, start: nat, end: nat, text: string): string {
    Decimal(n) + "\n" + SrtTime(start) + " --> " + SrtTime(end) + "\n" + text + "\n\n"
  }

  /** What `save_srt` writes for `segments` when the first of them is numbered `n`: each
      time is read with `time_to_seconds` and re-rendered with `seconds_to_srt_time`.
      None stands for the error `time_to_seconds` raises on a time it cannot read. */
  function SrtFrom(segments: seq<Segment>, n: nat): Option<string> {
    if segments == [] then Some([])
    else
      var start, end := ParseStamp(segments[0].start), ParseStamp(segments[0].end);
      if start.None? || end.None? then None
      else match SrtFrom(segments[1..], n + 1)
        case None => None
        case Some(rest) => Some(SrtCue(n, start.value, end.value, segments[0].text) + rest)
  }

  /** `save_srt`: numbering starts at 1. */
  function SrtOf(segments: seq<Segment>): Option<string> {
    SrtFrom(segments, 1)
  }

  /** `prefix` written ahead of the outcome `o`. */
  function After(prefix: string, o: Option<string>): Option<string> {
    match o
    case None => None
    case Some(r) => Some(prefix + r)
  }

  method SaveSrt(segments: seq<Segment>) returns (out: Option<string>)
    ensures out == SrtOf(segments)
  {
    var written := [];
    var i := 0;
    assert segments[0..] == segments;
    AfterNothing(SrtOf(segments));
    while i < |segments|
      invariant i <= |segments|
      invariant After(written, SrtFrom(segments[i..], i + 1)) == SrtOf(segments)
    {
      var seg := segments[i];
      var start := ParseStamp(seg.start);
      var end := ParseStamp(seg.end);
      if start.None? || end.None? {
        SrtStepFails(segments, i, written);
        return None;
      }
      var block := SrtCue(i + 1, start.value, end.value, seg.text);
      SrtStep(segments, i, written);
      written := written + block;
      i := i + 1;
    }
    assert segments[i..] == [];
    assert After(written, SrtFrom([], i + 1)) == Some(written + []);
    assert written + [] == written;
    return Some(written);
  }

  lemma AfterNothing(o: Option<string>)
    ensures After([], o) == o
  {
    match o
    case None =>
    case Some(r) => assert [] + r == r;
  }

  lemma SrtStepFails(segments: seq<Segment>, i: nat, written: string)
    requires i < |segments|
    requires ParseStamp(segments[i].start).None? || ParseStamp(segments[i].end).None?
    ensures After(written, SrtFrom(segments[i..], i + 1)) == None
  {
    SuffixCons(segments, i);
  }

  lemma SrtStep(segments: seq<Segment>, i: nat, written: string)
    requires i < |segments|
    requires ParseStamp(segments[i].start).Some? && ParseStamp(segments[i].end).Some?
    ensures After(written, SrtFrom(segments[i..], i + 1))
         == After(written + SrtCue(i + 1, ParseStamp(segments[i].start).value,
                                   ParseStamp(segments[i].end).value, segments[i].text),
                  SrtFrom(segments[i + 1..], i + 2))
  {
    SuffixCons(segments, i);
    var block := SrtCue(i + 1, ParseStamp(segments[i].start).value,
                        ParseStamp(segments[i].end).value, segments[i].text);
    match SrtFrom(segments[i + 1..], i + 2)
    case None =>
    case Some(rest) => Associative(written, block, rest);
  }

  /** `save_srt` fails exactly when some start or end time cannot be read. */
  lemma {:induction false} SrtDefinedIff(segments: seq<Segment>, n: nat)
    ensures SrtFrom(segments, n).Some?
        <==> forall seg :: seg in segments ==> ParseStamp(seg.start).Some? && ParseStamp(seg.end).Some?
  {
    if segments != [] {
      SrtDefinedIff(segments[1..], n + 1);
      assert segments == [segments[0]] + segments[1..];
    }
  }

  /** A cue time whose minute and second fields are below 60, as every time that
      `seconds_to_vtt_time` produces below 100 hours is. */
  predicate IsCanonicalStamp(t: string) {
    IsVttStamp(t) && DigitsValue(t[3..5]) < 60 && DigitsValue(t[6..8]) < 60
  }

  /** The same time with `,` in place of `.` before the milliseconds. */
  function CommaStamp(t: string): string
    requires IsVttStamp(t)
  {
    t[..8] + "," + t[9..]
  }

  /** Reference for `save_srt` on canonical times: blocks numbered `n`, `n + 1`, … in
      order, each time copied with its `.` turned into `,`. */
  function SrtCanonical(segments: seq<Segment>, n: nat): string
    requires forall seg :: seg in segments ==> IsCanonicalStamp(seg.start) && IsCanonicalStamp(seg.end)
  {
    if segments == [] then []
    else
      assert segments[0] in segments;
      assert IsCanonicalStamp(segments[0].start) && IsCanonicalStamp(segments[0].end);
      Decimal(n) + "\n" + CommaStamp(segments[0].start) + " --> " + CommaStamp(segments[0].end) + "\n"
      + segments[0].text + "\n\n" + SrtCanonical(segments[1..], n + 1)
  }

  /** With canonical times, `save_srt` numbers the blocks consecutively from 1 and writes
      each time as its VTT text with `,` for `.`. */
  lemma {:induction false} SrtOfCanonical(segments: seq<Segment>, n: nat)
    requires forall seg :: seg in segments ==> IsCanonicalStamp(seg.start) && IsCanonicalStamp(seg.end)
    ensures SrtFrom(segments, n) == Some(SrtCanonical(segments, n))
  {
    if segments != [] {
      var seg := segments[0];
      SrtCanonicalCue(seg, n);
      SrtOfCanonical(segments[1..], n + 1);
    }
  }

  lemma SrtCanonicalCue(seg: Segment, n: nat)
    requires IsCanonicalStamp(seg.start) && IsCanonicalStamp(seg.end)
    ensures ParseStamp(seg.start) == Some(StampValue(seg.start))
    ensures ParseStamp(seg.end) == Some(StampValue(seg.end))
    ensures SrtCue(n, StampValue(seg.start), StampValue(seg.end), seg.text)
         == Decimal(n) + "\n" + CommaStamp(seg.start) + " --> " + CommaStamp(seg.end) + "\n" + seg.text + "\n\n"
  {
    StampValueParses(seg.start);
    StampValueParses(seg.end);
    SrtTimeOfCanonical(seg.start);
    SrtTimeOfCanonical(seg.end);
  }

  // ---------------------------------------------------------------- carriage returns

  /** A cue timestamp holds no carriage return. */
  lemma StampWithoutReturn(s: string)
    requires IsVttStamp(s)
    ensures '\r' !in s
  {
    assert forall k :: 0 <= k < |s| ==> s[k] != '\r';
  }

  /** `save_txt` writes a carriage return only where a text holds one. */
  lemma {:induction false} TxtWithoutReturn(segments: seq<Segment>)
    requires forall seg :: seg in segments ==> '\r' !in seg.text
    ensures '\r' !in TxtOf(segments)
  {
    if segments != [] {
      assert segments[0] in segments;
      TxtWithoutReturn(segments[1..]);
    }
  }

  /** `save_vtt` writes a carriage return only where a text holds one. */
  lemma {:induction false} VttWithoutReturn(segments: seq<Segment>)
    requires forall seg :: seg in segments ==> IsVttStamp(seg.start) && IsVttStamp(seg.end) && '\r' !in seg.text
    ensures '\r' !in VttBody(segments) && '\r' !in VttOf(segments)
  {
    if segments != [] {
      assert segments[0] in segments;
      StampWithoutReturn(segments[0].start);
      StampWithoutReturn(segments[0].end);
      VttWithoutReturn(segments[1..]);
    }
  }

  /** `seconds_to_srt_time` writes no carriage return. */
  lemma SrtTimeWithoutReturn(t: nat)
    ensures '\r' !in SrtTime(t)
  {
    var s := SrtTime(t);
    FormatStampShape(t, ',');
    FormattedChars(s, ',');
    forall k | 0 <= k < |s| ensures s[k] != '\r' {
      assert IsDigit(s[k]) || s[k] == ':' || s[k] == ',';
    }
  }

  /** One SRT cue holds a carriage return only where its text does. */
  lemma SrtCueWithoutReturn(n: nat, start: nat, end: nat, text: string)
    requires '\r' !in text
    ensures '\r' !in SrtCue(n, start, end, text)
  {
    var number, a, b := Decimal(n), SrtTime(start), SrtTime(end);
    SrtTimeWithoutReturn(start);
    SrtTimeWithoutReturn(end);
    assert forall k :: 0 <= k < |number| ==> IsDigit(number[k]);
    assert '\r' !in number;
    assert SrtCue(n, start, end, text) == number + "\n" + a + " --> " + b + "\n" + text + "\n\n";
  }

  /** `save_srt` writes a carriage return only where a text holds one. */
  lemma {:induction false} SrtWithoutReturn(segments: seq<Segment>, n: nat, out: string)
    requires SrtFrom(segments, n) == Some(out)
    requires forall seg :: seg in segments ==> '\r' !in seg.text
    ensures '\r' !in out
  {
    if segments != [] {
      var seg := segments[0];
      assert seg in segments;
      var rest := SrtFrom(segments[1..], n + 1).value;
      SrtWithoutReturn(segments[1..], n + 1, rest);
      SrtCueWithoutReturn(n, ParseStamp(seg.start).value, ParseStamp(seg.end).value, seg.text);
    }
  }

  // ---------------------------------------------------------------- save_json

  /** A decoded JSON array element: an object whose values are strings, or anything else. */
  datatype JsonItem = JObject(fields: map<string, string>) | JOther

  /** A decoded JSON document: an array, or any other value together with its Python
      `str()` rendering. */
  datatype JsonDoc = JArray(items: seq<JsonItem>) | JScalar(repr: string)

  function SegmentObject(seg: Segment): JsonItem {
    JObject(map["start" := seg.start, "end" := seg.end, "text" := seg.text])
  }

  /** What `save_json` writes, as a JSON value: the list of segment records as they are. */
  function JsonOf(segments: seq<Segment>): (doc: JsonDoc)
    ensures doc.JArray? && |doc.items| == |segments|
    ensures forall i :: 0 <= i < |segments| ==> doc.items[i] == SegmentObject(segments[i])
  {
    if segments == [] then JArray([])
    else JArray([SegmentObject(segments[0])] + JsonOf(segments[1..]).items)
  }
}
