/** The naming and option logic of transcribe.py: the title and ID of `get_video_info`,
    the set of formats `main` saves, and the names of the files it writes. */
module VideoOptions {
  import opened Wrappers
  import opened Strings

  // ---------------------------------------------------------------- get_video_info

  /** The characters `re.sub(r'[<>:"/\\|?*]', '_', title)` replaces. */
  predicate IsUnsafe(c: char) {
    c in "<>:\"/\\|?*"
  }

  /** Each unsafe character of `s` replaced by `_`. */
  function ReplaceUnsafe(s: string): (r: string)
    ensures |r| == |s|
    ensures forall i :: 0 <= i < |s| ==> r[i] == if IsUnsafe(s[i]) then '_' else s[i]
  {
    if s == [] then []
    else [if IsUnsafe(s[0]) then '_' else s[0]] + ReplaceUnsafe(s[1..])
  }

  /** The title as it goes into file names: unsafe characters replaced, then cut to its
      first 100 characters. */
  function SanitizeTitle(title: string): (r: string)
    ensures |r| == if |title| < 100 then |title| else 100
    ensures forall i :: 0 <= i < |r| ==> r[i] == if IsUnsafe(title[i]) then '_' else title[i]
    ensures forall i :: 0 <= i < |r| ==> !IsUnsafe(r[i])
  {
    var replaced := ReplaceUnsafe(title);
    if |replaced| <= 100 then replaced else replaced[..100]
  }

  /** The characters of `[a-zA-Z0-9_-]`. */
  predicate IsIdChar(c: char) {
    ('a' <= c <= 'z') || ('A' <= c <= 'Z') || ('0' <= c <= '9') || c == '_' || c == '-'
  }

  /** `[?&]v=([a-zA-Z0-9_-]{11})` matches at index `i` of `url`. */
  predicate IdMatchAt(url: string, i: nat) {
    && i + 14 <= |url|
    && (url[i] == '?' || url[i] == '&')
    && url[i + 1] == 'v' && url[i + 2] == '='
    && forall k :: i + 3 <= k < i + 14 ==> IsIdChar(url[k])
  }

  /** The leftmost match at or after `i`, as `re.search` finds it. */
  function FindIdFrom(url: string, i: nat): (r: Option<nat>)
    ensures r.Some? ==> i <= r.value && IdMatchAt(url, r.value)
    ensures r.Some? ==> forall j :: i <= j < r.value ==> !IdMatchAt(url, j)
    ensures r.None? ==> forall j :: i <= j ==> !IdMatchAt(url, j)
    decreases |url| - i
  {
    if |url| < i + 14 then None
    else if IdMatchAt(url, i) then Some(i)
    else FindIdFrom(url, i + 1)
  }

  /** The video ID taken from the URL: the eleven characters after the first `?v=` or
      `&v=` that starts a full ID, or `unknown`. */
  function VideoIdFromUrl(url: string): (id: string)
    ensures (forall i: nat :: !IdMatchAt(url, i)) ==> id == "unknown"
    ensures forall i: nat :: (IdMatchAt(url, i) && (forall j: nat :: j < i ==> !IdMatchAt(url, j))
      ==> id == url[i + 3..i + 14])
  {
    match FindIdFrom(url, 0)
    case None => "unknown"
    case Some(i) => url[i + 3..i + 14]
  }

  /** Sanitising leaves the placeholder title `unknown` as it is. */
  lemma UnknownIsSafe()
    ensures SanitizeTitle("unknown") == "unknown"
  {
    var t := "unknown";
    assert forall i :: 0 <= i < |t| ==> !IsUnsafe(t[i]);
  }

  /** A found ID has eleven ID characters. */
  lemma VideoIdShape(url: string)
    ensures var id := VideoIdFromUrl(url);
      id == "unknown" || (|id| == 11 && forall k :: 0 <= k < 11 ==> IsIdChar(id[k]))
  {
    match FindIdFrom(url, 0)
    case None =>
    case Some(i) =>
      var id := url[i + 3..i + 14];
      assert forall k :: 0 <= k < 11 ==> id[k] == url[i + 3 + k];
  }

  /** `get_video_info` after yt-dlp printed `stdout` and exited with `exitCode`: the title
      and the ID, taken from the first two output lines when there are two, else the title
      from the only line and the ID from the URL; when the run failed or printed nothing,
      the title is `unknown` and the ID comes from the URL. */
  function VideoInfo(url: string, exitCode: int, stdout: string): (info: (string, string))
    ensures |info.0| <= 100 && forall i :: 0 <= i < |info.0| ==> !IsUnsafe(info.0[i])
    ensures exitCode != 0 || Strip(stdout) == [] ==> info == ("unknown", VideoIdFromUrl(url))
    ensures exitCode == 0 && Strip(stdout) != []
      ==> info.0 == SanitizeTitle(Strip(Split(Strip(stdout), '\n')[0]))
    ensures exitCode == 0 && Strip(stdout) != [] && |Split(Strip(stdout), '\n')| >= 2
      ==> info.1 == Strip(Split(Strip(stdout), '\n')[1])
    ensures exitCode == 0 && Strip(stdout) != [] && |Split(Strip(stdout), '\n')| == 1
      ==> info.1 == VideoIdFromUrl(url)
  {
    if exitCode == 0 && Strip(stdout) != [] then
      var lines := Split(Strip(stdout), '\n');
      if |lines| >= 2 then (SanitizeTitle(Strip(lines[0])), Strip(lines[1]))
      else (SanitizeTitle(Strip(lines[0])), VideoIdFromUrl(url))
    else
      UnknownIsSafe();
      ("unknown", VideoIdFromUrl(url))
  }

  // ---------------------------------------------------------------- formats

  /** The output formats. */
  datatype Format = Vtt | Txt | Srt | Json

  /** The values `-f/--format` accepts. */
  datatype FormatArg = TxtArg | SrtArg | JsonArg | AllArg

  function Named(a: FormatArg): Format
    requires a != AllArg
  {
    match a
    case TxtArg => Txt
    case SrtArg => Srt
    case JsonArg => Json
  }

  /** `formats_to_save` in `main`, from the `-f` values given (in order, possibly none)
      and the `--txt` flag. */
  method FormatsToSave(given: seq<FormatArg>, txtFlag: bool) returns (formats: set<Format>)
    ensures Vtt in formats
    ensures AllArg in given ==> formats == {Vtt, Txt, Srt, Json}
    ensures AllArg !in given ==> forall f :: f in formats <==>
      f == Vtt || (f == Txt && txtFlag) || exists a :: a in given && Named(a) == f
    ensures Txt in formats <==> txtFlag || TxtArg in given || AllArg in given
  {
    if |given| > 0 {
      if AllArg in given {
        formats := {Vtt, Txt, Srt, Json};
      } else {
        formats := set a | a in given :: Named(a);
        formats := formats + {Vtt};
      }
    } else {
      formats := {Vtt};
    }
    if txtFlag {
      formats := formats + {Txt};
    }
    if AllArg !in given && TxtArg in given {
      assert Named(TxtArg) == Txt;
    }
  }

  /** The extension each format's file gets. */
  function Extension(f: Format): string {
    match f
    case Vtt => ".vtt"
    case Txt => ".txt"
    case Srt => ".srt"
    case Json => ".json"
  }

  // ---------------------------------------------------------------- output file names

  /** The output name before the extension: `<title>_<id>` when `-o` keeps its default
      `transcript`, the given prefix otherwise. */
  function OutputName(output: string, title: string, id: string): string {
    if output == "transcript" then title + "_" + id else output
  }

  /** Index of the last `c` before index `j`, or -1. */
  function LastIndexBefore(s: string, c: char, j: nat): (r: int)
    requires j <= |s|
    ensures -1 <= r < j
    ensures r >= 0 ==> s[r] == c
    ensures forall k :: r < k < j ==> s[k] != c
  {
    if j == 0 then -1 else if s[j - 1] == c then j - 1 else LastIndexBefore(s, c, j - 1)
  }

  /** Where the last path component of `name` starts: just after its last `/`. */
  function ComponentStart(name: string): (d: nat)
    ensures d <= |name|
    ensures forall k :: d <= k < |name| ==> name[k] != '/'
    ensures d > 0 ==> name[d - 1] == '/'
  {
    LastIndexBefore(name, '/', |name|) + 1
  }

  /** `PurePath.suffix`: within the last path component, from its last `.` on, when that
      dot is neither the component's first nor its last character; empty otherwise. */
  function Suffix(name: string): (x: string)
    ensures |x| <= |name| - ComponentStart(name) && x == name[|name| - |x|..]
    ensures x != [] ==> x[0] == '.' && |x| >= 2 && '.' !in x[1..] && '/' !in x
    ensures x != [] ==> ComponentStart(name) < |name| - |x|
  {
    var i := LastIndexBefore(name, '.', |name|);
    if ComponentStart(name) < i < |name| - 1 then
      assert forall k :: 0 <= k < |name[i..]| ==> name[i..][k] == name[i + k];
      name[i..]
    else []
  }

  /** `PurePath.with_suffix(ext)`: the suffix of the last component, if any, is replaced;
      the directories before it are kept. */
  function WithSuffix(name: string, ext: string): (r: string)
    ensures |r| >= |ext| && r[|r| - |ext|..] == ext
    ensures ComponentStart(name) <= |r| - |ext| && r[..ComponentStart(name)] == name[..ComponentStart(name)]
  {
    name[..|name| - |Suffix(name)|] + ext
  }

  /** The name `main` writes a format's file under: `output_base.with_suffix(ext)`. */
  function WrittenName(name: string, f: Format): (file: string)
    ensures |file| >= |Extension(f)| && file[|file| - |Extension(f)|..] == Extension(f)
  {
    WithSuffix(name, Extension(f))
  }

  /** A last component without a dot just gets the extension appended, whatever dots the
      directories before it hold: `runs.v2/out` is written as `runs.v2/out.vtt`. */
  lemma UndottedComponentKept(name: string, f: Format)
    requires forall k :: ComponentStart(name) <= k < |name| ==> name[k] != '.'
    ensures WrittenName(name, f) == name + Extension(f)
  {
    assert Suffix(name) == [];
  }

  /** As written, a title with a `.` in it loses everything from its last dot on, the
      video ID included: the file of `a.b` with ID `id` is `a` plus the extension. */
  /** A name without `/` is one path component. */
  lemma WholeComponent(name: string)
    requires '/' !in name
    ensures ComponentStart(name) == 0
  {
    assert forall k :: 0 <= k < |name| ==> name[k] != '/';
  }

  lemma {:induction false} DottedTitleLosesId(head: string, tail: string, id: string, f: Format)
    requires head != [] && '.' !in tail && '.' !in id
    requires '/' !in head && '/' !in tail && '/' !in id
    ensures WrittenName(OutputName("transcript", head + "." + tail, id), f) == head + Extension(f)
  {
    var name := head + "." + tail + "_" + id;
    assert OutputName("transcript", head + "." + tail, id) == name;
    assert '/' !in name;
    WholeComponent(name);
    var i := |head|;
    assert name[i] == '.';
    assert forall k :: i < k < |name| ==> name[k] != '.' by {
      forall k | i < k < |name| ensures name[k] != '.' {
        if k <= i + |tail| {
          assert name[k] == tail[k - i - 1];
        } else if k > i + |tail| + 1 {
          assert name[k] == id[k - i - |tail| - 2];
        }
      }
    }
    assert LastIndexBefore(name, '.', |name|) == i;
    assert name[..i] == head;
  }

  /** So two videos whose titles share the text before the last dot are written to the
      same files, whatever their IDs. */
  lemma DottedTitlesCollide(head: string, tail1: string, id1: string, tail2: string, id2: string, f: Format)
    requires head != [] && '.' !in tail1 && '.' !in id1 && '.' !in tail2 && '.' !in id2
    requires '/' !in head && '/' !in tail1 && '/' !in id1 && '/' !in tail2 && '/' !in id2
    ensures WrittenName(OutputName("transcript", head + "." + tail1, id1), f)
         == WrittenName(OutputName("transcript", head + "." + tail2, id2), f)
  {
    DottedTitleLosesId(head, tail1, id1, f);
    DottedTitleLosesId(head, tail2, id2, f);
  }

  /** The evidently intended file name: the output name followed by the extension. */
  function SavedName(name: string, f: Format): (file: string)
    ensures StartsWith(file, name) && file[|name|..] == Extension(f)
  {
    name + Extension(f)
  }

  /** The files `main` saves for a format set, one per format. */
  function SavedFiles(formats: set<Format>, name: string): set<string> {
    set f | f in formats :: SavedName(name, f)
  }

  /** Intended names keep the title and the ID: two videos with different IDs of the same
      length get different files for every format. */
  lemma SavedNamesKeepId(title1: string, id1: string, title2: string, id2: string, f: Format)
    requires |id1| == |id2| && id1 != id2
    ensures SavedName(OutputName("transcript", title1, id1), f)
         != SavedName(OutputName("transcript", title2, id2), f)
  {
    var a := SavedName(OutputName("transcript", title1, id1), f);
    var b := SavedName(OutputName("transcript", title2, id2), f);
    var e := |Extension(f)|;
    assert a[|a| - e - |id1|..|a| - e] == id1;
    assert b[|b| - e - |id2|..|b| - e] == id2;
  }

  /** One file per format: different formats never share a file. */
  lemma SavedFilesDistinct(name: string, f: Format, g: Format)
    requires f != g
    ensures SavedName(name, f) != SavedName(name, g)
  {
    assert SavedName(name, f)[|name|..] == Extension(f);
    assert SavedName(name, g)[|name|..] == Extension(g);
  }
}
