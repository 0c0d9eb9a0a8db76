/** `parse_vtt` (transcribe.py): the cue scanner behind
    `re.finditer(r'(TS) --> (TS)\n(.*?)(?=\n\n|\n\d{2}:|$)', content, re.MULTILINE | re.DOTALL)`
    with `TS = \d{2}:\d{2}:\d{2}\.\d{3}`.

    Because `$` under `re.MULTILINE` holds just before every newline, the lazy group 3
    stops at the first newline after the timing line (or at the end of the text): the
    captured cue text is one line. A match is not anchored to a line start, and the end
    time must be followed by the newline at once, so a timing line with cue settings
    never matches. After a match, the search resumes where the match ended; the scanner
    below follows the text that is still to be searched. */
module VttParser {
  import opened Strings
  import opened Timecode
  import opened Transcript

  /** The pattern's timing part matches at the start of `s`: `TS --> TS` and a newline. */
  predicate CueAt(s: string) {
    && 30 <= |s|
    && IsVttStamp(s[..12])
    && s[12..17] == " --> "
    && IsVttStamp(s[17..29])
    && s[29] == '\n'
  }

  /** Where a match at the start of `s` ends: the first newline after the timing line,
      or the end of the text. */
  function CueEnd(s: string): (e: nat)
    requires CueAt(s)
    ensures 30 <= e <= |s|
  {
    FindFrom(s, '\n', 30)
  }

  /** What one match captures: group 1, group 2 and the raw group 3. */
  datatype Match = Match(start: string, end: string, raw: string)

  /** The match at the start of `s`. */
  function MatchAt(s: string): (m: Match)
    requires CueAt(s)
    ensures IsVttStamp(m.start) && IsVttStamp(m.end) && '\n' !in m.raw
  {
    Match(s[..12], s[17..29], s[30..CueEnd(s)])
  }

  /** The text a match spans. */
  function Matched(m: Match): string {
    m.start + " --> " + m.end + "\n" + m.raw
  }

  /** The matches `re.finditer` yields in `s`, in order. */
  function Matches(s: string): (ms: seq<Match>)
    ensures |ms| * 30 <= |s|
    decreases |s|
  {
    if s == [] then []
    else if CueAt(s) then [MatchAt(s)] + Matches(s[CueEnd(s)..])
    else Matches(s[1..])
  }

  /** The cue text `parse_vtt` keeps from a raw group 3: stripped, then tags removed. */
  function CleanText(raw: string): (text: string)
    ensures |text| <= |raw|
    ensures '<' !in raw ==> text == Strip(raw)
  {
    RemoveTags(Strip(raw))
  }

  /** The loop of `parse_vtt` over the matches: a segment for each match whose cleaned
      text is non-empty. */
  function KeepCues(ms: seq<Match>): (segments: seq<Segment>)
    ensures |segments| <= |ms|
  {
    if ms == [] then []
    else
      var text := CleanText(ms[0].raw);
      (if text == [] then [] else [Segment(ms[0].start, ms[0].end, text)]) + KeepCues(ms[1..])
  }

  /** What `parse_vtt` returns for the text `c` of a file. */
  function Scan(c: string): (segments: seq<Segment>)
    ensures |segments| * 30 <= |c|
  {
    KeepCues(Matches(c))
  }

  lemma KeepCuesCons(m: Match, rest: seq<Match>)
    ensures KeepCues([m] + rest)
      == (if CleanText(m.raw) == [] then [] else [Segment(m.start, m.end, CleanText(m.raw))]) + KeepCues(rest)
  {
    assert ([m] + rest)[1..] == rest;
  }

  /** `parse_vtt` on the text of the file. */
  method ParseVtt(content: string) returns (segments: seq<Segment>)
    ensures segments == Scan(content)
  {
    segments := [];
    var rest := content;
    while rest != []
      invariant segments + KeepCues(Matches(rest)) == Scan(content)
      decreases |rest|
    {
      if CueAt(rest) {
        var e := FindFrom(rest, '\n', 30);
        var text := RemoveTags(Strip(rest[30..e]));
        var found := if text == [] then [] else [Segment(rest[..12], rest[17..29], text)];
        KeepCuesCons(MatchAt(rest), Matches(rest[e..]));
        Associative(segments, found, KeepCues(Matches(rest[e..])));
        segments := segments + found;
        rest := rest[e..];
      } else {
        rest := rest[1..];
      }
    }
  }

  /** The text no match covers before each match, and after the last one. */
  function Gaps(s: string): (gaps: seq<string>)
    ensures |gaps| == |Matches(s)| + 1
    decreases |s|
  {
    if s == [] then [[]]
    else if CueAt(s) then [[]] + Gaps(s[CueEnd(s)..])
    else
      var g := Gaps(s[1..]);
      [[s[0]] + g[0]] + g[1..]
  }

  /** The gaps and matched texts, interleaved. */
  function Weave(gaps: seq<string>, ms: seq<Match>): string
    requires |gaps| == |ms| + 1
  {
    if ms == [] then gaps[0] else gaps[0] + Matched(ms[0]) + Weave(gaps[1..], ms[1..])
  }

  /** A match spans its timing line and the rest of the following line. */
  lemma MatchedPrefix(s: string)
    requires CueAt(s)
    ensures s == Matched(MatchAt(s)) + s[CueEnd(s)..]
  {
    var e := CueEnd(s);
    assert s == s[..12] + s[12..17] + s[17..29] + [s[29]] + s[30..e] + s[e..];
  }

  /** Document order: the file text is exactly the matches, verbatim and in order,
      separated by the text between them; matches therefore never overlap. */
  lemma {:induction false} MatchesInOrder(s: string)
    ensures Weave(Gaps(s), Matches(s)) == s
    decreases |s|
  {
    if s == [] {
    } else if CueAt(s) {
      MatchesInOrder(s[CueEnd(s)..]);
      WeaveAtCue(s);
    } else {
      MatchesInOrder(s[1..]);
      WeavePast(s);
    }
  }

  lemma WeaveAtCue(s: string)
    requires CueAt(s)
    requires Weave(Gaps(s[CueEnd(s)..]), Matches(s[CueEnd(s)..])) == s[CueEnd(s)..]
    ensures Weave(Gaps(s), Matches(s)) == s
  {
    var e := CueEnd(s);
    MatchedPrefix(s);
    WeaveHead(MatchAt(s), Gaps(s[e..]), Matches(s[e..]));
  }

  lemma WeaveHead(m: Match, gaps: seq<string>, ms: seq<Match>)
    requires |gaps| == |ms| + 1
    ensures Weave([[]] + gaps, [m] + ms) == Matched(m) + Weave(gaps, ms)
  {
    var gs, ns := [[]] + gaps, [m] + ms;
    assert gs[1..] == gaps && ns[1..] == ms;
  }

  lemma WeavePast(s: string)
    requires s != [] && !CueAt(s)
    requires Weave(Gaps(s[1..]), Matches(s[1..])) == s[1..]
    ensures Weave(Gaps(s), Matches(s)) == s
  {
    var g := Gaps(s[1..]);
    assert Matches(s) == Matches(s[1..]);
    assert Gaps(s) == [[s[0]] + g[0]] + g[1..];
    WeaveCons(s[0], g, Matches(s));
    assert [s[0]] + s[1..] == s;
  }

  lemma WeaveCons(x: char, gaps: seq<string>, ms: seq<Match>)
    requires |gaps| == |ms| + 1
    ensures Weave([[x] + gaps[0]] + gaps[1..], ms) == [x] + Weave(gaps, ms)
  {
    var gs := [[x] + gaps[0]] + gaps[1..];
    assert gs[1..] == gaps[1..];
  }

  /** Every match carries two `HH:MM:SS.mmm` times and a one-line raw text. */
  lemma {:induction false} MatchesWellFormed(s: string)
    ensures forall m :: m in Matches(s) ==> IsVttStamp(m.start) && IsVttStamp(m.end) && '\n' !in m.raw
    decreases |s|
  {
    if s != [] {
      if CueAt(s) {
        MatchesWellFormed(s[CueEnd(s)..]);
      } else {
        MatchesWellFormed(s[1..]);
      }
    }
  }

  /** The segments kept from matches with well-formed times have well-formed times and a
      non-empty text, which is the match's raw text stripped and without tags. */
  lemma {:induction false} KeptSegmentsWellFormed(ms: seq<Match>)
    requires forall m :: m in ms ==> IsVttStamp(m.start) && IsVttStamp(m.end)
    ensures forall seg :: seg in KeepCues(ms) ==>
      IsVttStamp(seg.start) && IsVttStamp(seg.end) && seg.text != []
      && exists m :: m in ms && seg == Segment(m.start, m.end, CleanText(m.raw))
  {
    if ms != [] {
      KeptSegmentsWellFormed(ms[1..]);
      KeepCuesCons(ms[0], ms[1..]);
      assert ms == [ms[0]] + ms[1..];
    }
  }

  /** Every segment `parse_vtt` returns has two `HH:MM:SS.mmm` times, taken verbatim from
      one match, and a non-empty text. */
  lemma ScannedSegmentsWellFormed(c: string)
    ensures forall seg :: seg in Scan(c) ==>
      IsVttStamp(seg.start) && IsVttStamp(seg.end) && seg.text != []
      && exists m :: m in Matches(c) && seg == Segment(m.start, m.end, CleanText(m.raw))
  {
    MatchesWellFormed(c);
    KeptSegmentsWellFormed(Matches(c));
  }
}
