# yt-transcribe, modelled in Dafny

yt-transcribe turns a YouTube video into transcript files. `transcribe.py` first asks
yt-dlp for the video's English captions, then for its automatic captions. It parses the
first usable WebVTT caption file into timed segments. When there is none, or it yields no
segment, it has Whisper transcribe the downloaded audio instead. The segments are then
saved as `.vtt`, and on request also as `.txt`, `.srt` and `.json`, under
`output/<title>_<id>`. `summarize.py` lists the saved transcripts and keeps one file per
base name. It lets the user pick one, and reads that file back into plain text.

This project models both scripts on values. Every loop of theirs becomes a `method` whose
`while` loop is proved against a specification function. The properties the scripts rely
on are proved as lemmas about those functions.

Times are whole milliseconds (`nat`) instead of Python floats. A time string is
`HH:MM:SS.mmm` (`VttTime`) or `HH:MM:SS,mmm` (`SrtTime`), each field zero-padded as
Python's `:02d` / `:03d` do. Strings are `seq<char>`, and Python's `str.strip` whitespace
set is written out. The outside world enters as parameters:

- what yt-dlp returns (exit code, output, caption file);
- the segments Whisper produces;
- the JSON decoder;
- the user's replies.

Modules:

- `Wrappers`: `Option`.
- `Strings`: the `str` operations the scripts use: `strip`, `split`, `join`, `str(int)`, and the tag-removing `re.sub`.
- `Timecode`: the time formats, `time_to_seconds`, `seconds_to_srt_time` and `seconds_to_vtt_time`.
- `Transcript`: the segment record `{start, end, text}`.
- `VttParser`: `parse_vtt`, as a scanner that follows its regular expression.
- `Serializers`: `save_txt`, `save_vtt`, `save_srt` and `save_json`.
- `RoundTrips`: what `parse_vtt` reads back from a file `save_vtt` wrote.
- `Acquisition`: `check_youtube_transcript`, `transcribe_audio`, and the fallback in `main`.
- `VideoOptions`: `get_video_info`, the format set and the output file names in `main`.
- `Extractor`: `parse_transcript_file` of `summarize.py`.
- `FileChoice`: `list_transcript_files` and `select_transcript_file` of `summarize.py`.

## Model

| member | source | states |
|---|---|---|
| VideoOptions.ReplaceUnsafe | transcribe.py:66 | Each of `<>:"/\|?*` becomes `_`; every other character and the length are kept. |
| VideoOptions.SanitizeTitle | transcribe.py:65-67 | The result is the first 100 characters with the unsafe ones replaced, so no unsafe character remains. |
| VideoOptions.FindIdFrom | transcribe.py:53 | Finds the first position from `i` where `[?&]v=` is followed by 11 ID characters; `None` when there is no such position. |
| VideoOptions.VideoIdFromUrl | transcribe.py:53-54 | The ID is the 11 characters after the leftmost match, or `unknown` when nothing matches. |
| VideoOptions.VideoIdShape | transcribe.py:53-54 | An ID taken from a URL is `unknown` or 11 characters from `[a-zA-Z0-9_-]`. |
| VideoOptions.UnknownIsSafe | transcribe.py:63-67 | Sanitising leaves the placeholder title `unknown` unchanged. |
| VideoOptions.VideoInfo | transcribe.py:43-69 | Title: sanitised first output line, or `unknown` after a failed or silent run. ID: second output line, or taken from the URL with one line or a failed run. The title is at most 100 safe characters. |
| VideoOptions.FormatsToSave | transcribe.py:298-310 | `vtt` is always saved. `all` gives every format; otherwise exactly the named formats plus `vtt`. `txt` is saved iff `--txt`, `-f txt` or `-f all` was given. |
| VideoOptions.OutputName | transcribe.py:339-343 | The output name is `<title>_<id>` when `-o` keeps its default `transcript`, and the given name otherwise. Its properties are stated by `DottedTitleLosesId` and `SavedNamesKeepId`. |
| VideoOptions.LastIndexBefore | transcribe.py:346 | Returns the position of the last `c` before `j`, or -1; nothing after it up to `j` is `c`. |
| VideoOptions.ComponentStart | transcribe.py:346 | The last path component starts right after the last `/`: no `/` from there on. |
| VideoOptions.WholeComponent | transcribe.py:346 | A name without `/` is a single path component. |
| VideoOptions.Suffix | transcribe.py:346 | `PurePath.suffix` is a tail of the last path component: empty, or a `.` that is not the component's first character, followed by at least one character without `.` or `/`. |
| VideoOptions.WithSuffix | transcribe.py:350 | `with_suffix(ext)` ends with `ext` and keeps the directories before the last component. |
| VideoOptions.WrittenName | transcribe.py:349-363 | Each file the script writes ends with its format's extension. |
| VideoOptions.UndottedComponentKept | transcribe.py:346-350 | When the last component has no `.`, `with_suffix` just appends the extension: the name is kept whole. |
| VideoOptions.DottedTitleLosesId | transcribe.py:339-350 | As written, the name for a title `a.b` and ID `id` (no `/`, as sanitised titles have none) is `a` plus the extension: the ID is lost. |
| VideoOptions.DottedTitlesCollide | transcribe.py:339-363 | As written, two videos whose titles (without `/`) share the text before the last dot are saved to the same files. |
| VideoOptions.SavedName | transcribe.py:345-363 | The intended file name is the output name followed by the format's extension. |
| VideoOptions.SavedNamesKeepId | transcribe.py:339-363 | With intended names, videos whose IDs differ but have the same length (as all 11-character YouTube IDs do) never share a file. |
| VideoOptions.SavedFilesDistinct | transcribe.py:345-363 | Different formats are saved to different files. |
| Acquisition.CaptionOf | transcribe.py:89-126 | A caption file is accepted iff the run exited with 0 and the stripped file is over 10 characters long and holds `\d{2}:\d{2}:\d{2}`. The English attempt wins, then the automatic one; otherwise there is none. |
| Acquisition.Accepts | transcribe.py:89-98 | The acceptance test: exit code 0, a caption file, and stripped content over 10 characters holding `\d{2}:\d{2}:\d{2}`. Its consequences are `NoDigitsRejected`, `HeaderAndStampAccepted` and `SavedVttAccepted`. |
| Acquisition.CheckYoutubeTranscript | transcribe.py:72-126 | Returns `CaptionOf` of the two attempts. The automatic-caption request is made only when the English one is rejected. |
| Acquisition.NoDigitsRejected | transcribe.py:98 | A caption file without digits is never accepted. |
| Acquisition.HeaderAndStampAccepted | transcribe.py:98 | `WEBVTT` followed by a timing line is accepted. |
| Acquisition.SavedVttAccepted | transcribe.py:98 | A file written by `save_vtt` for at least one segment whose first start time has the `\d{2}:\d{2}:\d{2}\.\d{3}` shape passes the acceptance test. |
| Acquisition.Transcribed | transcribe.py:245-253 | There is one segment per Whisper segment. |
| Acquisition.Converted | transcribe.py:247-251 | One Whisper segment becomes VTT start and end times and its stripped text. Its properties are stated by `TranscribedAt` and `TranscribedTimesReadBack`. |
| Acquisition.TranscribedAt | transcribe.py:245-253 | Segment `i` holds the VTT times and the stripped text of Whisper segment `i`. |
| Acquisition.TranscribeAudio | transcribe.py:245-253 | The loop builds exactly `Transcribed(records)`, and every written time parses back to the engine's time. |
| Acquisition.TranscribedTimesReadBack | transcribe.py:245-262 | `time_to_seconds` of each written start and end gives the engine's time back. |
| Acquisition.TranscribedStamps | transcribe.py:245-262 | Times under 100 hours are written in the exact shape `parse_vtt` matches. |
| Acquisition.Acquire | transcribe.py:316-332 | Captions are used iff one was accepted and parsed to at least one segment. Otherwise the audio is transcribed, and a failed download ends the run. |
| Acquisition.ObtainSegments | transcribe.py:316-332 | Returns `Acquire` of what the tools returned. |
| VttParser.CueEnd | transcribe.py:136 | A cue match spans at least the 30 characters of its timing line. |
| VttParser.Matches | transcribe.py:136-137 | The matches of the cue pattern, leftmost first; each takes at least 30 characters, so there are at most a thirtieth as many as characters. |
| VttParser.CleanText | transcribe.py:142-144 | The stripped, untagged group text is never longer than the raw text, and is just the stripped text when there is no `<`. |
| VttParser.KeepCues | transcribe.py:139-150 | At most one segment per match. |
| VttParser.Scan | transcribe.py:136-152 | At most one segment per 30 characters of the file. |
| VttParser.MatchAt | transcribe.py:136-142 | A match's two times have the `\d{2}:\d{2}:\d{2}\.\d{3}` shape; its text is the rest of the line after the timing line. |
| VttParser.ParseVtt | transcribe.py:129-152 | The loop returns `Scan(content)`: matches in order, text stripped and untagged, empty texts dropped. |
| VttParser.Gaps | transcribe.py:136-137 | There is one gap more than there are matches. |
| VttParser.MatchedPrefix | transcribe.py:136 | A match is exactly the text it spans. |
| VttParser.MatchesInOrder | transcribe.py:136-139 | Weaving the gaps and the matched texts gives back the whole file: matches are disjoint, in order, and nothing is skipped unaccounted. |
| VttParser.MatchesWellFormed | transcribe.py:136 | Every match has well-formed times and a one-line text. |
| VttParser.KeptSegmentsWellFormed | transcribe.py:139-150 | Kept segments have well-formed times and non-empty text. |
| VttParser.ScannedSegmentsWellFormed | transcribe.py:129-152 | Each returned segment comes from a match of the file, with well-formed times and non-empty text. |
| Timecode.Pad2 | transcribe.py:170 | `:02d` gives at least two characters, and exactly two below 100. |
| Timecode.Pad3 | transcribe.py:170 | `:03d` of a value below 1000 gives three characters. |
| Timecode.Pad2Value | transcribe.py:170 | `:02d` gives digits whose value is the number. |
| Timecode.Pad3Value | transcribe.py:170 | `:03d` gives digits whose value is the number. |
| Timecode.FormatStamp | transcribe.py:164-170 | A formatted time has at least 12 characters, exactly 12 below 100 hours. |
| Timecode.VttTime | transcribe.py:256-262 | `seconds_to_vtt_time` gives at least 12 characters with `.` before the last three, exactly 12 below 100 hours. |
| Timecode.SrtTime | transcribe.py:164-170 | `seconds_to_srt_time` gives at least 12 characters with `,` before the last three, exactly 12 below 100 hours. |
| Timecode.FormattedChars | transcribe.py:164-170 | A formatted time holds only digits, `:` and its separator. |
| Timecode.FormatStampShape | transcribe.py:256-262 | A formatted time is `hours:MM:SS<sep>mmm`, with minutes and seconds below 60. |
| Timecode.VttSrtDifferOnlyInSeparator | transcribe.py:164-170 | The VTT and SRT forms of a time have the same length and differ only at the separator before the milliseconds. |
| Timecode.SecondsFieldOf | transcribe.py:160 | `float('SS.mmm')` is `SS` seconds and `mmm` milliseconds. |
| Timecode.SecondsField | transcribe.py:160 | `float()` of a plain numeral is that many seconds. |
| Timecode.ParseStamp | transcribe.py:155-161 | `time_to_seconds`: `None` where the source raises. Its properties are `ParseVttTime` and `StampValueParses`. |
| Timecode.SplitStamp | transcribe.py:157 | `split(':')` of `h:m:s.f` gives the three fields. |
| Timecode.ParseVttTime | transcribe.py:155-161 | `time_to_seconds(seconds_to_vtt_time(t)) == t` for every time. |
| Timecode.VttTimeIsStamp | transcribe.py:256-262 | Times under 100 hours are written as `\d{2}:\d{2}:\d{2}\.\d{3}`. |
| Timecode.StampValueParses | transcribe.py:155-161 | A time the parser matched parses to the value of its digits. |
| Timecode.FieldsOfTime | transcribe.py:257-260 | The hour, minute, second and millisecond fields are recovered from the time they make up. |
| Timecode.FormatOfFields | transcribe.py:164-170 | Formatting a time built from fields prints those fields. |
| Timecode.SrtTimeOfCanonical | transcribe.py:155-170 | A VTT time with minutes and seconds below 60 converts to SRT by swapping `.` for `,`. |
| Timecode.SrtTimeKeepsTextIff | transcribe.py:193-196 | The same, for the conversion `save_srt` does. |
| Serializers.SaveTxt | transcribe.py:173-177 | The loop writes `TxtOf(segments)`: each text followed by a newline. |
| Serializers.TxtOf | transcribe.py:173-177 | The text `save_txt` writes. Its properties are `TxtLines` and `TxtFileText`. |
| Serializers.TxtWithoutReturn | transcribe.py:173-177 | `save_txt` writes a carriage return only where a text holds one. |
| Serializers.TxtLines | transcribe.py:173-177 | Split at newlines, the `.txt` file is the segment texts followed by one empty line. |
| Serializers.SaveVtt | transcribe.py:180-186 | The loop writes `WEBVTT`, a blank line, then `start --> end`, the text and a blank line for each segment. |
| Serializers.VttOf | transcribe.py:180-186 | The text `save_vtt` writes. Its properties are `VttRoundTrip`, `VttFileText` and `SavedVttAccepted`. |
| Serializers.VttWithoutReturn | transcribe.py:180-186 | With well-formed times, `save_vtt` writes a carriage return only where a text holds one. |
| Serializers.SaveSrt | transcribe.py:189-197 | The loop writes `SrtOf(segments)`, or fails (`None`) where `time_to_seconds` raises. |
| Serializers.SrtFrom | transcribe.py:192-197 | The cues `save_srt` writes from number `n` on, or `None` where `time_to_seconds` raises. Its properties are `SrtDefinedIff` and `SrtOfCanonical`. |
| Serializers.SrtOf | transcribe.py:189-197 | The text `save_srt` writes, numbering from 1. |
| Serializers.SrtTimeWithoutReturn | transcribe.py:164-170 | `seconds_to_srt_time` writes no carriage return. |
| Serializers.SrtCueWithoutReturn | transcribe.py:195-197 | One SRT cue holds a carriage return only where its text does. |
| Serializers.SrtWithoutReturn | transcribe.py:189-197 | `save_srt` writes a carriage return only where a text holds one. |
| Serializers.SrtDefinedIff | transcribe.py:189-197 | `save_srt` completes iff every start and end parses as a time. |
| Serializers.SrtOfCanonical | transcribe.py:189-197 | With canonical times, `save_srt` writes numbered cues whose times are the VTT times with `,` for `.`. |
| Serializers.SrtCanonicalCue | transcribe.py:193-197 | One cue of `save_srt` for a canonical segment. |
| Serializers.JsonOf | transcribe.py:200-203 | The JSON document is an array with one object of `start`, `end` and `text` per segment, in order. |
| RoundTrips.ReadBackCue | transcribe.py:136-150 | `parse_vtt` reads a cue written by `save_vtt` back as that segment, then goes on with the rest, for a segment with well-formed times and a stripped one-line text without tags or carriage return. |
| RoundTrips.CueOfBlock | transcribe.py:185-186 | A written cue is a match, and its text is the segment's text. |
| RoundTrips.BodyReadsBack | transcribe.py:136-150 | Every cue `save_vtt` wrote is read back, in order, when every segment has well-formed times and a stripped one-line text without tags or carriage return. |
| RoundTrips.VttRoundTrip | transcribe.py:129-152 | For segments with well-formed times and stripped one-line texts without tags or carriage return, reading the `save_vtt` file in text mode gives it back unchanged, and `parse_vtt` of that gives the segments back. |
| Extractor.ExtractVtt | summarize.py:48-63 | The loop returns the joined kept lines of a `.vtt` file. |
| Extractor.VttText | summarize.py:48-63 | The text read from a `.vtt` file. Its properties are `VttKeptLines`, `VttKeepsTextLines` and `VttFileText`. |
| Extractor.VttKeptLines | summarize.py:50-63 | Every kept line is non-empty and has no line break. It is the stripped, untagged form of a source line that is not a header, timing line or number. |
| Extractor.VttLineKept | summarize.py:52-62 | The same for one line. |
| Extractor.VttKeepsTextLines | summarize.py:50-63 | Every text line that stays non-empty without its tags is kept. |
| Extractor.VttTextSplitsBack | summarize.py:63 | Split at newlines, the returned text gives back the kept lines. |
| Extractor.ExtractSrt | summarize.py:65-77 | The loop returns the joined kept lines of a `.srt` file. |
| Extractor.SrtText | summarize.py:65-77 | The text read from a `.srt` file. Its properties are `SrtKeptLines`, `SrtKeepsTextLines` and `SrtFileText`. |
| Extractor.SrtKeptLines | summarize.py:67-77 | Every kept line is a stripped source line that is not a number, clock or timing line. |
| Extractor.SrtKeepsTextLines | summarize.py:67-77 | Every such text line is kept. |
| Extractor.SrtTextSplitsBack | summarize.py:77 | Split at newlines, the returned text gives back the kept lines. |
| Extractor.ObjectTexts | summarize.py:85 | There is at most one text per array item. |
| Extractor.FieldText | summarize.py:85 | `seg.get('text', '')`: the `text` value, or empty. |
| Extractor.ObjectTextsAppend | summarize.py:85 | The texts of two concatenated lists are the texts of the first then those of the second. |
| Extractor.OtherAddsNoText | summarize.py:85 | A list item that is not an object adds no text. |
| Extractor.ObjectAddsItsText | summarize.py:85 | An object item adds exactly its `text` value (or empty), in its place. |
| Extractor.JsonText | summarize.py:82-88 | A decoded list gives its objects' texts joined by newlines; another document gives its printed form. |
| Extractor.TranscriptText | summarize.py:39-94 | Unknown suffixes and `.txt` give the stripped content; an undecodable `.json` gives the content as it is. |
| Extractor.ParseTranscriptFile | summarize.py:39-94 | The method returns `TranscriptText` for the file's suffix and content. |
| Extractor.CollectAppend | summarize.py:51-62 | Line filtering distributes over concatenation. |
| Extractor.TimingLineDropped | summarize.py:56-57 | A written timing line is dropped by both readers. |
| Extractor.HeaderDropped | summarize.py:55 | The `WEBVTT` header is dropped. |
| Extractor.NumberDropped | summarize.py:72 | An SRT cue number is dropped. |
| Extractor.VttCueLines | summarize.py:50-63 | Of a written VTT cue, only its text is kept. |
| Extractor.SrtCueLines | summarize.py:67-77 | Of a written SRT cue, only its text is kept. |
| Extractor.VttBodyLines | summarize.py:50-63 | Of the written cues, exactly the texts are kept, in order. |
| Extractor.SrtBodyLines | summarize.py:67-77 | Of the written SRT cues, exactly the texts are kept, in order. |
| Extractor.VttFileText | summarize.py:48-63 | Reading back in text mode a `.vtt` file `save_vtt` wrote gives the segment texts joined by newlines, for well-formed times and texts that are one stripped line without carriage return, tags, header, clock or digits-only shape. |
| Extractor.SrtFileText | summarize.py:65-77 | Reading back in text mode a `.srt` file `save_srt` wrote gives the segment texts joined by newlines, for texts that are one stripped line without carriage return, number, clock or `-->`. |
| Extractor.TxtFileText | summarize.py:44-46 | Reading back in text mode a `.txt` file `save_txt` wrote gives the segment texts joined by newlines, for non-empty stripped texts without carriage return. |
| Extractor.ObjectTextsOfSegments | summarize.py:85 | The texts of the objects `save_json` writes are the segment texts. |
| Extractor.JsonFileText | summarize.py:79-86 | Reading back a `.json` file `save_json` wrote gives the segment texts joined by newlines. |
| Extractor.JsonMixedList | summarize.py:85-86 | One example: the list `[{text: a}, 1, {}, {text: b}]` gives `a`, an empty line, `b`. The general rule is `OtherAddsNoText` and `ObjectAddsItsText`. |
| FileChoice.Stems | summarize.py:105-114 | The stem set holds exactly the stems of the files. |
| FileChoice.DedupByStem | summarize.py:105-114 | The loop returns `Unique(files, {})`. |
| FileChoice.Unique | summarize.py:106-112 | The loop's result: files whose stem was not seen before, in order; never more than the input. Its properties are the `Unique...` lemmas below. |
| FileChoice.UniqueStemsDistinct | summarize.py:105-114 | The kept files have pairwise distinct stems, none of them already seen. |
| FileChoice.UniqueStems | summarize.py:105-114 | The kept files' stems are exactly the input's stems minus those already seen: no stem is lost. |
| FileChoice.UniqueKeepsFirst | summarize.py:108-112 | Each kept file is the first file with its stem. |
| FileChoice.UniqueIsSubsequence | summarize.py:108-112 | The kept files are a subsequence of the input, in its order. |
| FileChoice.ParseInt | summarize.py:136 | `int()` succeeds iff the text is digits with an optional sign. |
| FileChoice.ParseDecimal | summarize.py:127-136 | `int()` of a printed number gives the number. |
| FileChoice.SelectTranscriptFile | summarize.py:117-145 | The prompt loop returns `Selection(files, replies)`. |
| FileChoice.Answer | summarize.py:131-145 | One reply: `q` or `Q` (after stripping) and Ctrl-C end with no file, end of input is an uncaught error, a number from 1 to the list's length chooses that file, anything else asks again. |
| FileChoice.Selection | summarize.py:121-145 | No file when the list is empty; otherwise the first reply that ends the loop decides, and the prompt is still waiting when none does. Its properties are `ChosenIsListed`, `QuitChoosesNothing`, `NumberChooses` and `OtherAnswersAskAgain`. |
| FileChoice.ChosenIsListed | summarize.py:136-138 | A chosen file is the listed file at the 1-based number the user typed. |
| FileChoice.QuitChoosesNothing | summarize.py:133-134 | `q` or `Q` ends the selection with no file. |
| FileChoice.NumberChooses | summarize.py:136-138 | Typing `n` with `1 <= n <= len(files)` chooses `files[n-1]`. |
| FileChoice.OtherAnswersAskAgain | summarize.py:136-142 | A non-number or out-of-range number asks again. |
| Transcript.Texts | summarize.py:85 | There is one text per segment, in order. |
| Strings.Strip | summarize.py:52 | `strip` never lengthens a string. |
| Strings.TextModeRead | summarize.py:41 | Text-mode reading, where `\r\n` and a lone `\r` become `\n`: never longer, no carriage return left, and text without one is unchanged. |
| Strings.ReturnNewlineReadsAsNewline | summarize.py:41 | A `\r\n` pair between return-free texts reads as one newline. |
| Strings.ReadPrefix | summarize.py:41 | Text without a carriage return is read as written, whatever follows it. |
| Strings.ReturnReadsAsNewline | summarize.py:41 | A lone carriage return between return-free texts reads as a newline. |
| Strings.StripShape | summarize.py:52 | `strip` leaves no surrounding whitespace, and gives the empty string iff the input is all whitespace. |
| Strings.StripOfPadded | summarize.py:52 | Stripping whitespace-padded stripped text gives that text. |
| Strings.StripStripped | summarize.py:46 | `strip` of stripped text changes nothing. |
| Strings.Split | summarize.py:51 | `split('\n')` gives at least one part, none holding the separator. |
| Strings.SplitJoin | summarize.py:51-63 | `'\n'.join` then `split('\n')` gives back parts without newlines. |
| Strings.JoinSplit | summarize.py:51-63 | `split` then `join` with the same separator gives back the string. |
| Strings.FindFrom | transcribe.py:136 | Finds the first occurrence of a character at or after `i`. |
| Strings.RemoveTags | transcribe.py:144 | `re.sub(r'<[^>]+>', '', s)` never lengthens a string and changes nothing without `<`. |
| Strings.Decimal | transcribe.py:195 | `str(n)` is a numeral without a leading zero. |
| Strings.DecimalValue | transcribe.py:195 | `str(n)` has value `n`. |

## Left out

- Running yt-dlp, the `glob` that picks `vtt_files[0]`, the audio download and Whisper are not modelled. Their results are parameters: an exit code and file content per caption attempt, the download's exit code, and Whisper's segments.
- Console output (`print`), `argparse`, `sys.exit`, the temporary directory and the `output/` directory are left out. Writing files is modelled as the text written.
- Only the parts of `summarize.py` that read and choose transcripts are modelled. Chunking and the OpenAI summary are outside this model.
- Whisper's times are floats. The model takes them as whole milliseconds, so the truncations in `seconds_to_srt_time` / `seconds_to_vtt_time` are exact and float rounding is not modelled.
- Timecode.ParseStamp: accepts only ASCII digit fields with at most three fraction digits. Python's `float()` also accepts signs, spaces, exponents, longer fractions, `inf` and `nan`; those are `None` here, as if they raised.
- Extractor.TranscriptText: `json.loads` is a parameter. Object values are strings, so a non-string `text` (a `TypeError` in `join`) is not modelled. `str(data)` of a non-list document is an opaque string.
- Serializers.JsonOf: the document is modelled, not `json.dump`'s indentation or escaping.
- FileChoice.ParseInt: `int()` here takes ASCII digits with an optional sign after stripping. Underscores and non-ASCII digits are not accepted.
- FileChoice.DedupByStem: the input is taken as already in `sorted(files)` order; `Path` ordering is not modelled.
- FileChoice.SelectTranscriptFile: running out of replies stands for waiting on `input()` (`StillPrompting`). Ctrl-C ends it with no file, as the source does. End of input (`EOFError`), which the source does not catch, ends the loop as an error outcome.
- The `else` at transcribe.py:56-58 cannot be reached, because `split` always returns at least one part. `VideoInfo` has no such case.
- Files are read in text mode, which turns `\r\n` and a lone `\r` into `\n` (`Strings.TextModeRead`). The round-trip lemmas hold for texts without `\r`; a segment text holding `\r` is not read back as written.
- VideoOptions.WithSuffix: `PurePath` normalisation is not modelled: trailing or repeated `/`, `.` components, and the `ValueError` for an empty last component.
- Serializers.SaveSrt: when `time_to_seconds` raises, the cues already written stay in the file; the model returns `None` for the whole file.
- VideoOptions.OutputName, Timecode.ParseStamp, Serializers.TxtOf, Serializers.VttOf, Serializers.SrtFrom, Serializers.SrtOf, Acquisition.Converted, Extractor.VttText, Extractor.SrtText, Extractor.JsonText, Extractor.FieldText, FileChoice.Answer and FileChoice.Selection are specification functions without an `ensures` of their own; their properties are the lemmas and method contracts named in their rows.
- Strings.IsSpace is the whitespace set of `str.strip` written out. Other Unicode handling (case folding in `lower()`, Unicode digits for `isdigit`) is limited to ASCII.

## Findings

| source | as written | input that shows it | evidently intended | confidence | as-written member | corrected member |
|---|---|---|---|---|---|---|
| transcribe.py:345-363 | `output_base.with_suffix('.vtt')` replaces everything from the last `.` of the file name `<title>_<id>`, and titles keep their dots | title `Intro. Part 1`, ID `abcdefghijk`: the files are `Intro.vtt` and so on; `Intro. Part 2` overwrites them | `<title>_<id>.vtt`, keeping title and ID | not executed | VideoOptions.DottedTitleLosesId | VideoOptions.SavedNamesKeepId |
