/** `parse_transcript_file` of summarize.py: the plain text it extracts from a transcript
    file, chosen by the file's suffix. JSON decoding is a parameter: a partial function
    from the file's text to the decoded document, None standing for `JSONDecodeError`. */
module Extractor {
  import opened Wrappers
  import opened Strings
  import opened Timecode
  import opened Transcript
  import opened Serializers

  // ---------------------------------------------------------------- line filtering

  /** The `lines` list a line filter builds: what `keep` retains of each line, in order. */
  function Collect(lines: seq<string>, keep: string -> seq<string>): seq<string> {
    if lines == [] then [] else keep(lines[0]) + Collect(lines[1..], keep)
  }

  lemma CollectCons(line: string, rest: seq<string>, keep: string -> seq<string>)
    ensures Collect([line] + rest, keep) == keep(line) + Collect(rest, keep)
  {
    assert ([line] + rest)[1..] == rest;
  }

  /** Filtering goes line by line: it distributes over concatenation. */
  lemma {:induction false} CollectAppend(a: seq<string>, b: seq<string>, keep: string -> seq<string>)
    ensures Collect(a + b, keep) == Collect(a, keep) + Collect(b, keep)
    decreases |a|
  {
    if a != [] {
      assert (a + b)[1..] == a[1..] + b;
      CollectAppend(a[1..], b, keep);
      Associative(keep(a[0]), Collect(a[1..], keep), Collect(b, keep));
    } else {
      assert a + b == b;
    }
  }

  /** One turn of a line-filtering loop: appending what `keep` retains of line `i`. */
  lemma CollectStep(lines: seq<string>, i: nat, kept: seq<string>, next: seq<string>, keep: string -> seq<string>)
    requires i < |lines|
    requires kept + Collect(lines[i..], keep) == Collect(lines, keep)
    requires next == kept + keep(lines[i])
    ensures next + Collect(lines[i + 1..], keep) == Collect(lines, keep)
  {
    SuffixCons(lines, i);
    Associative(kept, keep(lines[i]), Collect(lines[i + 1..], keep));
  }

  /** A kept line comes from some line of the input. */
  lemma {:induction false} CollectFrom(lines: seq<string>, keep: string -> seq<string>, x: string)
    requires x in Collect(lines, keep)
    ensures exists i :: 0 <= i < |lines| && x in keep(lines[i])
    decreases |lines|
  {
    if x in keep(lines[0]) {
      assert 0 < |lines|;
    } else {
      CollectFrom(lines[1..], keep, x);
      var i :| 0 <= i < |lines[1..]| && x in keep(lines[1..][i]);
      assert lines[1..][i] == lines[i + 1];
    }
  }

  /** Everything `keep` retains of some input line is kept. */
  lemma {:induction false} CollectHas(lines: seq<string>, keep: string -> seq<string>, i: nat, x: string)
    requires i < |lines| && x in keep(lines[i])
    ensures x in Collect(lines, keep)
    decreases i
  {
    if i > 0 {
      assert lines[1..][i - 1] == lines[i];
      CollectHas(lines[1..], keep, i - 1, x);
    }
  }

  /** A line of text as the writers put it out: not empty, no surrounding whitespace, no
      line break, and no carriage return, which reading in text mode would turn into one. */
  predicate IsLine(t: string) {
    t != [] && IsStripped(t) && '\n' !in t && '\r' !in t
  }

  lemma RemoveTagsKeepsOut(s: string, c: char)
    requires c !in s
    ensures c !in RemoveTags(s)
    decreases |s|
  {
    if s != [] {
      if s[0] == '<' && 2 <= FindFrom(s, '>', 1) < |s| {
        RemoveTagsKeepsOut(s[FindFrom(s, '>', 1) + 1..], c);
      } else {
        RemoveTagsKeepsOut(s[1..], c);
      }
    }
  }

  lemma StripKeepsOut(s: string, c: char)
    requires c !in s
    ensures c !in Strip(s)
  {
    var k := StripOffset(s);
  }

  // ---------------------------------------------------------------- .vtt

  /** A stripped line of a `.vtt` file that is cue text: not empty, not the `WEBVTT`
      header, not starting with a clock reading, without `-->`, and not a cue number. */
  predicate IsVttTextLine(line: string) {
    && line != []
    && !StartsWith(line, "WEBVTT")
    && !StartsWithClock(line)
    && !Contains(line, "-->")
    && !IsNumeral(line)
  }

  /** What the `.vtt` branch keeps of one line: the stripped line without its tags, when it
      is cue text and something is left. */
  function VttLine(line: string): seq<string> {
    var l := Strip(line);
    if IsVttTextLine(l) && RemoveTags(l) != [] then [RemoveTags(l)] else []
  }

  function VttText(content: string): string {
    Join(Collect(Split(content, '\n'), VttLine), '\n')
  }

  /** The `.vtt` branch of `parse_transcript_file`. */
  method ExtractVtt(content: string) returns (text: string)
    ensures text == VttText(content)
  {
    var lines := Split(content, '\n');
    var kept: seq<string> := [];
    var i := 0;
    while i < |lines|
      invariant i <= |lines|
      invariant kept + Collect(lines[i..], VttLine) == Collect(lines, VttLine)
    {
      ghost var before := kept;
      var line := Strip(lines[i]);
      if line != [] && !StartsWith(line, "WEBVTT") && !StartsWithClock(line)
        && !Contains(line, "-->") && !IsNumeral(line)
      {
        line := RemoveTags(line);
        if line != [] {
          kept := kept + [line];
        }
      }
      assert kept == before + VttLine(lines[i]);
      CollectStep(lines, i, before, kept, VttLine);
      i := i + 1;
    }
    assert lines[i..] == [];
    assert kept + [] == kept;
    text := Join(kept, '\n');
  }

  /** Every line of the `.vtt` result is the tag-free text of a cue text line of the file,
      not empty and without a line break. */
  lemma VttKeptLines(content: string)
    ensures var lines := Split(content, '\n');
      forall x :: x in Collect(lines, VttLine) ==>
        && x != [] && '\n' !in x
        && (exists i :: 0 <= i < |lines| && IsVttTextLine(Strip(lines[i])) && x == RemoveTags(Strip(lines[i])))
  {
    var lines := Split(content, '\n');
    forall x | x in Collect(lines, VttLine)
      ensures x != [] && '\n' !in x
      ensures exists i :: 0 <= i < |lines| && IsVttTextLine(Strip(lines[i])) && x == RemoveTags(Strip(lines[i]))
    {
      CollectFrom(lines, VttLine, x);
      var i :| 0 <= i < |lines| && x in VttLine(lines[i]);
      VttLineKept(lines[i], x);
    }
  }

  /** What the `.vtt` filter keeps of one line. */
  lemma VttLineKept(line: string, x: string)
    requires x in VttLine(line) && '\n' !in line
    ensures x != [] && '\n' !in x && IsVttTextLine(Strip(line)) && x == RemoveTags(Strip(line))
  {
    StripKeepsOut(line, '\n');
    RemoveTagsKeepsOut(Strip(line), '\n');
  }

  /** Conversely, the tag-free text of every cue text line is in the result unless the tag
      removal left nothing. */
  lemma VttKeepsTextLines(content: string)
    ensures var lines := Split(content, '\n');
      forall i :: 0 <= i < |lines| && IsVttTextLine(Strip(lines[i])) && RemoveTags(Strip(lines[i])) != []
        ==> RemoveTags(Strip(lines[i])) in Collect(lines, VttLine)
  {
    var lines := Split(content, '\n');
    forall i | 0 <= i < |lines| && IsVttTextLine(Strip(lines[i])) && RemoveTags(Strip(lines[i])) != []
      ensures RemoveTags(Strip(lines[i])) in Collect(lines, VttLine)
    {
      CollectHas(lines, VttLine, i, RemoveTags(Strip(lines[i])));
    }
  }

  /** Splitting the `.vtt` result at newlines gives back the kept lines. */
  lemma VttTextSplitsBack(content: string)
    requires Collect(Split(content, '\n'), VttLine) != []
    ensures Split(VttText(content), '\n') == Collect(Split(content, '\n'), VttLine)
  {
    var kept := Collect(Split(content, '\n'), VttLine);
    VttKeptLines(content);
    assert forall i :: 0 <= i < |kept| ==> kept[i] in kept;
    SplitJoin(kept, '\n');
  }

  // ---------------------------------------------------------------- .srt

  /** A stripped line of a `.srt` file that is cue text: not empty, not a sequence number,
      not starting with a clock reading, and without `-->`. */
  predicate IsSrtTextLine(line: string) {
    && line != []
    && !IsNumeral(line)
    && !StartsWithClock(line)
    && !Contains(line, "-->")
  }

  /** What the `.srt` branch keeps of one line: the stripped line, tags and all. */
  function SrtLine(line: string): seq<string> {
    var l := Strip(line);
    if IsSrtTextLine(l) then [l] else []
  }

  function SrtText(content: string): string {
    Join(Collect(Split(content, '\n'), SrtLine), '\n')
  }

  /** The `.srt` branch of `parse_transcript_file`. */
  method ExtractSrt(content: string) returns (text: string)
    ensures text == SrtText(content)
  {
    var lines := Split(content, '\n');
    var kept: seq<string> := [];
    var i := 0;
    while i < |lines|
      invariant i <= |lines|
      invariant kept + Collect(lines[i..], SrtLine) == Collect(lines, SrtLine)
    {
      ghost var before := kept;
      var line := Strip(lines[i]);
      if line != [] && !IsNumeral(line) && !StartsWithClock(line) && !Contains(line, "-->") {
        kept := kept + [line];
      }
      assert kept == before + SrtLine(lines[i]);
      CollectStep(lines, i, before, kept, SrtLine);
      i := i + 1;
    }
    assert lines[i..] == [];
    assert kept + [] == kept;
    text := Join(kept, '\n');
  }

  /** Every line of the `.srt` result is a stripped cue text line of the file, tags kept,
      without a line break. */
  lemma SrtKeptLines(content: string)
    ensures var lines := Split(content, '\n');
      forall x :: x in Collect(lines, SrtLine) ==>
        && '\n' !in x && IsSrtTextLine(x)
        && (exists i :: 0 <= i < |lines| && x == Strip(lines[i]))
  {
    var lines := Split(content, '\n');
    forall x | x in Collect(lines, SrtLine)
      ensures '\n' !in x && IsSrtTextLine(x) && exists i :: 0 <= i < |lines| && x == Strip(lines[i])
    {
      CollectFrom(lines, SrtLine, x);
      var i :| 0 <= i < |lines| && x in SrtLine(lines[i]);
      StripKeepsOut(lines[i], '\n');
    }
  }

  /** Conversely, every stripped cue text line is in the result. */
  lemma SrtKeepsTextLines(content: string)
    ensures var lines := Split(content, '\n');
      forall i :: 0 <= i < |lines| && IsSrtTextLine(Strip(lines[i])) ==> Strip(lines[i]) in Collect(lines, SrtLine)
  {
    var lines := Split(content, '\n');
    forall i | 0 <= i < |lines| && IsSrtTextLine(Strip(lines[i]))
      ensures Strip(lines[i]) in Collect(lines, SrtLine)
    {
      CollectHas(lines, SrtLine, i, Strip(lines[i]));
    }
  }

  /** Splitting the `.srt` result at newlines gives back the kept lines. */
  lemma SrtTextSplitsBack(content: string)
    requires Collect(Split(content, '\n'), SrtLine) != []
    ensures Split(SrtText(content), '\n') == Collect(Split(content, '\n'), SrtLine)
  {
    var kept := Collect(Split(content, '\n'), SrtLine);
    SrtKeptLines(content);
    assert forall i :: 0 <= i < |kept| ==> kept[i] in kept;
    SplitJoin(kept, '\n');
  }

  // ---------------------------------------------------------------- .json

  /** `seg.get('text', '')` for an object `seg`. */
  function FieldText(fields: map<string, string>): string {
    if "text" in fields then fields["text"] else []
  }

  /** `[seg.get('text', '') for seg in data if isinstance(seg, dict)]`. */
  function ObjectTexts(items: seq<JsonItem>): (texts: seq<string>)
    ensures |texts| <= |items|
  {
    if items == [] then []
    else
      var here := match items[0]
        case JObject(fields) => [FieldText(fields)]
        case JOther => [];
      here + ObjectTexts(items[1..])
  }

  /** The texts of two lists of items, one after the other. */
  lemma {:induction false} ObjectTextsAppend(a: seq<JsonItem>, b: seq<JsonItem>)
    ensures ObjectTexts(a + b) == ObjectTexts(a) + ObjectTexts(b)
  {
    if a == [] {
      assert a + b == b;
    } else {
      assert (a + b)[0] == a[0];
      assert (a + b)[1..] == a[1..] + b;
      ObjectTextsAppend(a[1..], b);
    }
  }

  /** Wherever it stands in the list, an item that is not an object adds no text. */
  lemma OtherAddsNoText(a: seq<JsonItem>, b: seq<JsonItem>)
    ensures ObjectTexts(a + [JOther] + b) == ObjectTexts(a + b)
  {
    ObjectTextsAppend(a, [JOther] + b);
    ObjectTextsAppend(a, b);
    assert a + [JOther] + b == a + ([JOther] + b);
    assert ([JOther] + b)[1..] == b;
  }

  /** Wherever it stands in the list, an object adds exactly its `text`, or an empty line
      when it has none. */
  lemma ObjectAddsItsText(a: seq<JsonItem>, fields: map<string, string>, b: seq<JsonItem>)
    ensures ObjectTexts(a + [JObject(fields)] + b) == ObjectTexts(a) + [FieldText(fields)] + ObjectTexts(b)
  {
    ObjectTextsAppend(a, [JObject(fields)] + b);
    assert a + [JObject(fields)] + b == a + ([JObject(fields)] + b);
    assert ([JObject(fields)] + b)[1..] == b;
  }

  /** The text of a decoded `.json` file: the joined texts of an array, `str(data)` of
      anything else. */
  function JsonText(doc: JsonDoc): string {
    match doc
    case JArray(items) => Join(ObjectTexts(items), '\n')
    case JScalar(repr) => repr
  }

  // ---------------------------------------------------------------- dispatch

  /** What `parse_transcript_file` returns for a file with this suffix and content. */
  function TranscriptText(suffix: string, content: string, decode: string -> Option<JsonDoc>): (text: string)
    ensures suffix !in [".vtt", ".srt", ".json"] ==> text == Strip(content)
    ensures suffix == ".json" && decode(content).None? ==> text == content
  {
    if suffix == ".txt" then Strip(content)
    else if suffix == ".vtt" then VttText(content)
    else if suffix == ".srt" then SrtText(content)
    else if suffix == ".json" then
      match decode(content)
      case None => content
      case Some(doc) => JsonText(doc)
    else Strip(content)
  }

  method ParseTranscriptFile(suffix: string, content: string, decode: string -> Option<JsonDoc>)
    returns (text: string)
    ensures text == TranscriptText(suffix, content, decode)
  {
    if suffix == ".txt" {
      return Strip(content);
    } else if suffix == ".vtt" {
      text := ExtractVtt(content);
    } else if suffix == ".srt" {
      text := ExtractSrt(content);
    } else if suffix == ".json" {
      match decode(content)
      case None => return content;
      case Some(doc) => return JsonText(doc);
    } else {
      return Strip(content);
    }
  }

  // ---------------------------------------------------------------- files the writers produce

  /** A timing line `a --> b` between two times that begin and end with digits: no line
      break, and both line filters drop it, since it holds `-->`. */
  lemma TimingLineDropped(a: string, b: string)
    requires a != [] && b != [] && IsDigit(a[0]) && IsDigit(b[|b| - 1]) && '\n' !in a && '\n' !in b
    ensures '\n' !in a + " --> " + b
    ensures VttLine(a + " --> " + b) == [] && SrtLine(a + " --> " + b) == []
  {
    var t := a + " --> " + b;
    assert t[0] == a[0] && t[|t| - 1] == b[|b| - 1];
    StripStripped(t);
    assert t[|a| + 1] == '-' && t[|a| + 2] == '-' && t[|a| + 3] == '>';
    assert t[|a| + 1..][..3] == "-->";
    assert StartsWith(t[|a| + 1..], "-->");
  }

  lemma VttStampFacts(s: string)
    requires IsVttStamp(s)
    ensures s != [] && IsDigit(s[0]) && IsDigit(s[|s| - 1]) && '\n' !in s && '\r' !in s
  {
    assert forall k :: 0 <= k < |s| ==> s[k] != '\n' && s[k] != '\r';
  }

  lemma SrtTimeFacts(ms: nat)
    ensures var s := SrtTime(ms); s != [] && IsDigit(s[0]) && IsDigit(s[|s| - 1]) && '\n' !in s && '\r' !in s
  {
    FormatStampShape(ms, ',');
    FormattedFacts(SrtTime(ms), ',');
  }

  /** A formatted time begins and ends with a digit and holds no line break. */
  lemma FormattedFacts(s: string, sep: char)
    requires IsFormattedStamp(s, sep) && sep != '\n' && sep != '\r'
    ensures s != [] && IsDigit(s[0]) && IsDigit(s[|s| - 1]) && '\n' !in s && '\r' !in s
  {
    var n := |s|;
    FormattedChars(s, sep);
    assert s[..n - 10][0] == s[0];
    assert s[n - 3..][2] == s[n - 1];
    forall k | 0 <= k < n ensures s[k] != '\n' && s[k] != '\r' {
      assert IsDigit(s[k]) || s[k] == ':' || s[k] == sep;
    }
  }

  /** A cue text the `.vtt` branch gives back unchanged. */
  predicate IsVttExtractable(t: string) {
    IsLine(t) && IsVttTextLine(t) && RemoveTags(t) == t
  }

  lemma EmptyLineDropped()
    ensures VttLine([]) == [] && SrtLine([]) == []
  {
    assert |Strip([])| == 0;
  }

  lemma VttTextLineKept(t: string)
    requires IsVttExtractable(t)
    ensures VttLine(t) == [t]
  {
    StripStripped(t);
  }

  lemma SrtTextLineKept(t: string)
    requires IsLine(t) && IsSrtTextLine(t)
    ensures SrtLine(t) == [t]
  {
    StripStripped(t);
  }

  lemma HeaderDropped()
    ensures VttLine("WEBVTT") == []
  {
    StripStripped("WEBVTT");
    assert StartsWith("WEBVTT", "WEBVTT");
  }

  lemma NumberDropped(n: nat)
    ensures SrtLine(Decimal(n)) == [] && '\n' !in Decimal(n)
  {
    NumeralStripped(Decimal(n));
    StripStripped(Decimal(n));
  }

  /** Two one-line texts, each followed by a line break, then an empty line. */
  lemma {:induction false} SplitTwoLinesAndBlank(a: string, b: string, rest: string)
    requires '\n' !in a && '\n' !in b
    ensures Split(a + "\n" + b + "\n\n" + rest, '\n') == [a, b, []] + Split(rest, '\n')
  {
    var tail := [] + ['\n'] + rest;
    var middle := b + ['\n'] + tail;
    assert a + "\n" + b + "\n\n" + rest == a + ['\n'] + middle;
    SplitCons(a, '\n', middle);
    SplitCons(b, '\n', tail);
    SplitCons([], '\n', rest);
  }

  /** A block of three lines of which the filter keeps only the middle one. */
  lemma CollectBlock(lines: seq<string>, a: string, b: string, c: string, rest: seq<string>, keep: string -> seq<string>)
    requires lines == [a, b, c] + rest
    requires keep(a) == [] && keep(b) == [b] && keep(c) == []
    ensures Collect(lines, keep) == [b] + Collect(rest, keep)
  {
    assert lines == [a] + ([b] + ([c] + rest));
    CollectCons(a, [b] + ([c] + rest), keep);
    CollectCons(b, [c] + rest, keep);
    CollectCons(c, rest, keep);
  }

  /** The lines of one block `save_vtt` wrote. */
  lemma VttCueSplit(seg: Segment, rest: string)
    requires IsVttStamp(seg.start) && IsVttStamp(seg.end) && '\n' !in seg.text
    ensures Split(VttCue(seg) + rest, '\n') == [seg.start + " --> " + seg.end, seg.text, []] + Split(rest, '\n')
  {
    var timing := seg.start + " --> " + seg.end;
    VttStampFacts(seg.start);
    VttStampFacts(seg.end);
    TimingLineDropped(seg.start, seg.end);
    assert VttCue(seg) + rest == timing + "\n" + seg.text + "\n\n" + rest;
    SplitTwoLinesAndBlank(timing, seg.text, rest);
  }

  /** One block `save_vtt` wrote: its timing line and blank line are dropped, its text kept. */
  lemma VttCueLines(seg: Segment, rest: string)
    requires IsVttStamp(seg.start) && IsVttStamp(seg.end) && IsVttExtractable(seg.text)
    ensures Collect(Split(VttCue(seg) + rest, '\n'), VttLine) == [seg.text] + Collect(Split(rest, '\n'), VttLine)
  {
    VttCueSplit(seg, rest);
    VttCueKeeps(seg);
    CollectBlock(Split(VttCue(seg) + rest, '\n'), seg.start + " --> " + seg.end, seg.text, [], Split(rest, '\n'), VttLine);
  }

  /** What the `.vtt` filter keeps of the lines of one block `save_vtt` wrote. */
  lemma VttCueKeeps(seg: Segment)
    requires IsVttStamp(seg.start) && IsVttStamp(seg.end) && IsVttExtractable(seg.text)
    ensures VttLine(seg.start + " --> " + seg.end) == [] && VttLine(seg.text) == [seg.text] && VttLine([]) == []
  {
    VttStampFacts(seg.start);
    VttStampFacts(seg.end);
    TimingLineDropped(seg.start, seg.end);
    VttTextLineKept(seg.text);
    EmptyLineDropped();
  }

  lemma {:induction false} VttBodyLines(segments: seq<Segment>)
    requires forall seg :: seg in segments ==>
      IsVttStamp(seg.start) && IsVttStamp(seg.end) && IsVttExtractable(seg.text)
    ensures Collect(Split(VttBody(segments), '\n'), VttLine) == Texts(segments)
  {
    if segments == [] {
      assert Split([], '\n') == [[]];
      EmptyLineDropped();
    } else {
      assert segments[0] in segments;
      VttCueLines(segments[0], VttBody(segments[1..]));
      VttBodyLines(segments[1..]);
    }
  }

  /** The header line and the blank line after it. */
  lemma VttHeaderSplit(body: string)
    ensures Split("WEBVTT\n\n" + body, '\n') == ["WEBVTT", []] + Split(body, '\n')
  {
    assert "WEBVTT\n\n" + body == "WEBVTT" + ['\n'] + ([] + ['\n'] + body);
    SplitCons("WEBVTT", '\n', [] + ['\n'] + body);
    SplitCons([], '\n', body);
  }

  /** Two lines the filter drops. */
  lemma CollectDropTwo(lines: seq<string>, a: string, b: string, rest: seq<string>, keep: string -> seq<string>)
    requires lines == [a, b] + rest && keep(a) == [] && keep(b) == []
    ensures Collect(lines, keep) == Collect(rest, keep)
  {
    assert lines == [a] + ([b] + rest);
    CollectCons(a, [b] + rest, keep);
    CollectCons(b, rest, keep);
  }

  /** Summarising a file `save_vtt` wrote, as reading it in text mode gives it back, yields
      the segment texts, one per line, when each text is a single line the `.vtt` filter
      keeps as it is. */
  lemma VttFileText(segments: seq<Segment>, decode: string -> Option<JsonDoc>)
    requires forall seg :: seg in segments ==>
      IsVttStamp(seg.start) && IsVttStamp(seg.end) && IsVttExtractable(seg.text)
    ensures TranscriptText(".vtt", TextModeRead(VttOf(segments)), decode) == Join(Texts(segments), '\n')
  {
    VttWithoutReturn(segments);
    var body := VttBody(segments);
    VttHeaderSplit(body);
    HeaderDropped();
    EmptyLineDropped();
    CollectDropTwo(Split(VttOf(segments), '\n'), "WEBVTT", [], Split(body, '\n'), VttLine);
    VttBodyLines(segments);
  }

  /** The timing line `save_srt` writes has no line break and the `.srt` filter drops it. */
  lemma SrtTimingDropped(start: nat, end: nat)
    ensures '\n' !in SrtTime(start) + " --> " + SrtTime(end)
    ensures SrtLine(SrtTime(start) + " --> " + SrtTime(end)) == []
  {
    SrtTimeFacts(start);
    SrtTimeFacts(end);
    TimingLineDropped(SrtTime(start), SrtTime(end));
  }

  /** A number line, a timing line `b --> c`, a text line and a blank line. */
  lemma SplitNumberedBlock(a: string, b: string, c: string, d: string, rest: string)
    requires '\n' !in a && '\n' !in b + " --> " + c && '\n' !in d
    ensures Split(a + "\n" + b + " --> " + c + "\n" + d + "\n\n" + rest, '\n')
         == [a] + ([b + " --> " + c, d, []] + Split(rest, '\n'))
  {
    var timing := b + " --> " + c;
    var tail := timing + "\n" + d + "\n\n" + rest;
    assert a + "\n" + b + " --> " + c + "\n" + d + "\n\n" + rest == a + ['\n'] + tail;
    SplitCons(a, '\n', tail);
    SplitTwoLinesAndBlank(timing, d, rest);
  }

  /** The lines of one block `save_srt` wrote. */
  lemma SrtCueSplit(n: nat, start: nat, end: nat, text: string, rest: string)
    requires '\n' !in text
    ensures Split(SrtCue(n, start, end, text) + rest, '\n')
         == [Decimal(n)] + ([SrtTime(start) + " --> " + SrtTime(end), text, []] + Split(rest, '\n'))
  {
    NumberDropped(n);
    SrtTimingDropped(start, end);
    SplitNumberedBlock(Decimal(n), SrtTime(start), SrtTime(end), text, rest);
  }

  /** What the `.srt` filter keeps of the lines of one block `save_srt` wrote. */
  lemma SrtCueKeeps(n: nat, start: nat, end: nat, text: string)
    requires IsLine(text) && IsSrtTextLine(text)
    ensures SrtLine(Decimal(n)) == [] && SrtLine(SrtTime(start) + " --> " + SrtTime(end)) == []
    ensures SrtLine(text) == [text] && SrtLine([]) == []
  {
    NumberDropped(n);
    SrtTimingDropped(start, end);
    SrtTextLineKept(text);
    EmptyLineDropped();
  }

  /** One block `save_srt` wrote: its number, timing line and blank line are dropped, its
      text kept. */
  lemma SrtCueLines(n: nat, start: nat, end: nat, text: string, rest: string)
    requires IsLine(text) && IsSrtTextLine(text)
    ensures Collect(Split(SrtCue(n, start, end, text) + rest, '\n'), SrtLine)
         == [text] + Collect(Split(rest, '\n'), SrtLine)
  {
    var block := [SrtTime(start) + " --> " + SrtTime(end), text, []] + Split(rest, '\n');
    SrtCueSplit(n, start, end, text, rest);
    SrtCueKeeps(n, start, end, text);
    CollectCons(Decimal(n), block, SrtLine);
    CollectBlock(block, SrtTime(start) + " --> " + SrtTime(end), text, [], Split(rest, '\n'), SrtLine);
  }

  lemma {:induction false} SrtBodyLines(segments: seq<Segment>, n: nat, out: string)
    requires SrtFrom(segments, n) == Some(out)
    requires forall seg :: seg in segments ==> IsLine(seg.text) && IsSrtTextLine(seg.text)
    ensures Collect(Split(out, '\n'), SrtLine) == Texts(segments)
  {
    if segments == [] {
      assert Split([], '\n') == [[]];
      assert SrtLine([]) == [];
    } else {
      var seg := segments[0];
      assert seg in segments;
      var rest := SrtFrom(segments[1..], n + 1).value;
      SrtCueLines(n, ParseStamp(seg.start).value, ParseStamp(seg.end).value, seg.text, rest);
      SrtBodyLines(segments[1..], n + 1, rest);
    }
  }

  /** Summarising a file `save_srt` wrote, as reading it in text mode gives it back, yields
      the segment texts, one per line, when each text is a single line the `.srt` filter
      keeps. */
  lemma SrtFileText(segments: seq<Segment>, out: string, decode: string -> Option<JsonDoc>)
    requires SrtOf(segments) == Some(out)
    requires forall seg :: seg in segments ==> IsLine(seg.text) && IsSrtTextLine(seg.text)
    ensures TranscriptText(".srt", TextModeRead(out), decode) == Join(Texts(segments), '\n')
  {
    SrtWithoutReturn(segments, 1, out);
    SrtBodyLines(segments, 1, out);
  }

  lemma {:induction false} JoinIsStripped(parts: seq<string>, sep: char)
    requires |parts| >= 1 && forall i :: 0 <= i < |parts| ==> parts[i] != [] && IsStripped(parts[i])
    ensures Join(parts, sep) != [] && IsStripped(Join(parts, sep))
    decreases |parts|
  {
    if |parts| > 1 {
      JoinIsStripped(parts[1..], sep);
      var j := Join(parts[1..], sep);
      assert (parts[0] + [sep] + j)[0] == parts[0][0];
      assert (parts[0] + [sep] + j)[|parts[0] + [sep] + j| - 1] == j[|j| - 1];
    }
  }

  /** What `save_txt` wrote is the texts joined by newlines, plus a final newline. */
  lemma {:induction false} TxtOfJoin(segments: seq<Segment>)
    requires segments != []
    ensures TxtOf(segments) == Join(Texts(segments), '\n') + "\n"
  {
    var texts := Texts(segments);
    if |segments| > 1 {
      TxtOfJoin(segments[1..]);
      assert texts[1..] == Texts(segments[1..]);
    }
  }

  /** Summarising a file `save_txt` wrote, as reading it in text mode gives it back, yields
      the segment texts, one per line. */
  lemma TxtFileText(segments: seq<Segment>, decode: string -> Option<JsonDoc>)
    requires forall seg :: seg in segments ==> seg.text != [] && IsStripped(seg.text) && '\r' !in seg.text
    ensures TranscriptText(".txt", TextModeRead(TxtOf(segments)), decode) == Join(Texts(segments), '\n')
  {
    TxtWithoutReturn(segments);
    if segments != [] {
      var texts := Texts(segments);
      forall i | 0 <= i < |texts| ensures texts[i] != [] && IsStripped(texts[i]) {
        assert segments[i] in segments;
      }
      JoinIsStripped(texts, '\n');
      TxtOfJoin(segments);
      assert [] + Join(texts, '\n') + "\n" == TxtOf(segments);
      StripOfPadded([], Join(texts, '\n'), "\n");
    }
  }

  /** `save_json`'s records give their texts back, in order. */
  lemma {:induction false} ObjectTextsOfSegments(segments: seq<Segment>)
    ensures ObjectTexts(JsonOf(segments).items) == Texts(segments)
  {
    if segments != [] {
      var items := JsonOf(segments).items;
      assert items == [SegmentObject(segments[0])] + JsonOf(segments[1..]).items;
      assert items[1..] == JsonOf(segments[1..]).items;
      ObjectTextsOfSegments(segments[1..]);
    }
  }

  /** Summarising a file `save_json` wrote, whatever the texts, reads them back one per
      line. */
  lemma JsonFileText(segments: seq<Segment>, content: string, decode: string -> Option<JsonDoc>)
    requires decode(content) == Some(JsonOf(segments))
    ensures TranscriptText(".json", content, decode) == Join(Texts(segments), '\n')
  {
    ObjectTextsOfSegments(segments);
  }

  /** An example of the two rules above: `[{"text": "a"}, 7, {}, {"text": "b"}]` gives `a`,
      an empty line, `b`. */
  lemma JsonMixedList()
    ensures JsonText(JArray([JObject(map["text" := "a"]), JOther, JObject(map[]), JObject(map["text" := "b"])]))
         == "a\n\nb"
  {
    var items := [JObject(map["text" := "a"]), JOther, JObject(map[]), JObject(map["text" := "b"])];
    assert items[1..][1..][1..][1..] == [];
    assert ObjectTexts(items) == ["a", "", "b"];
  }
}
