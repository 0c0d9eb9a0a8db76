/** Choosing the transcript to summarise in summarize.py: the de-duplication of the listed
    files by stem in `list_transcript_files`, and the reading of the user's answers in
    `select_transcript_file`. The directory listing and its sort are inputs: the list
    arrives already sorted. */
module FileChoice {
  import opened Wrappers
  import opened Strings

  /** A transcript file, by the parts of its path the code looks at: its stem (the name
      without the extension) and its extension. */
  datatype FileRef = FileRef(stem: string, suffix: string)

  // ---------------------------------------------------------------- list_transcript_files

  /** The files of `files` kept by the de-duplication when the stems in `seen` are already
      taken: each file whose stem is neither taken nor shared with an earlier file. */
  function Unique(files: seq<FileRef>, seen: set<string>): (unique: seq<FileRef>)
    ensures |unique| <= |files|
  {
    if files == [] then []
    else if files[0].stem in seen then Unique(files[1..], seen)
    else [files[0]] + Unique(files[1..], seen + {files[0].stem})
  }

  /** The stems of the files. */
  function Stems(files: seq<FileRef>): (stems: set<string>)
    ensures forall i :: 0 <= i < |files| ==> files[i].stem in stems
    ensures forall x :: x in stems ==> exists i :: 0 <= i < |files| && files[i].stem == x
  {
    if files == [] then {}
    else
      var rest := Stems(files[1..]);
      assert forall i :: 1 <= i < |files| ==> files[i] == files[1..][i - 1];
      assert forall x :: x in rest ==> exists i :: 1 <= i < |files| && files[i].stem == x by {
        forall x | x in rest ensures exists i :: 1 <= i < |files| && files[i].stem == x {
          var j :| 0 <= j < |files[1..]| && files[1..][j].stem == x;
          assert files[j + 1] == files[1..][j];
        }
      }
      {files[0].stem} + rest
  }

  /** The de-duplication loop of `list_transcript_files` over the sorted list. */
  method DedupByStem(files: seq<FileRef>) returns (unique: seq<FileRef>)
    ensures unique == Unique(files, {})
  {
    var seen: set<string> := {};
    unique := [];
    var i := 0;
    while i < |files|
      invariant i <= |files|
      invariant unique + Unique(files[i..], seen) == Unique(files, {})
    {
      var f := files[i];
      var base := f.stem;
      DedupStep(files, i, seen);
      if base !in seen {
        ghost var later := Unique(files[i + 1..], seen + {base});
        assert unique + ([f] + later) == (unique + [f]) + later;
        seen := seen + {base};
        unique := unique + [f];
      }
      i := i + 1;
    }
    assert Unique(files[i..], seen) == [];
    assert unique + [] == unique;
  }

  lemma DedupStep(files: seq<FileRef>, i: nat, seen: set<string>)
    requires i < |files|
    ensures Unique(files[i..], seen) == if files[i].stem in seen then Unique(files[i + 1..], seen)
      else [files[i]] + Unique(files[i + 1..], seen + {files[i].stem})
  {
    assert files[i..][0] == files[i] && files[i..][1..] == files[i + 1..];
  }

  /** Kept files have stems not already taken, pairwise different. */
  lemma {:induction false} UniqueStemsDistinct(files: seq<FileRef>, seen: set<string>)
    ensures forall i :: 0 <= i < |Unique(files, seen)| ==> Unique(files, seen)[i].stem !in seen
    ensures forall i, j :: 0 <= i < j < |Unique(files, seen)| ==> Unique(files, seen)[i].stem != Unique(files, seen)[j].stem
  {
    if files != [] {
      var next := if files[0].stem in seen then seen else seen + {files[0].stem};
      var rest := Unique(files[1..], next);
      UniqueStemsDistinct(files[1..], next);
      if files[0].stem !in seen {
        var u := [files[0]] + rest;
        assert Unique(files, seen) == u;
        assert forall i :: 0 < i < |u| ==> u[i] == rest[i - 1];
      }
    }
  }

  /** Every stem not already taken is kept, and no other. */
  lemma {:induction false} UniqueStems(files: seq<FileRef>, seen: set<string>)
    ensures Stems(Unique(files, seen)) == Stems(files) - seen
  {
    if files != [] {
      if files[0].stem in seen {
        UniqueStems(files[1..], seen);
      } else {
        var rest := Unique(files[1..], seen + {files[0].stem});
        UniqueStems(files[1..], seen + {files[0].stem});
        assert ([files[0]] + rest)[1..] == rest;
      }
    }
  }

  /** Each kept file is the first file of the list with its stem. */
  lemma {:induction false} UniqueKeepsFirst(files: seq<FileRef>, seen: set<string>)
    ensures forall f :: f in Unique(files, seen) ==>
      exists i :: 0 <= i < |files| && files[i] == f && forall j :: 0 <= j < i ==> files[j].stem != f.stem
  {
    if files != [] {
      var next := if files[0].stem in seen then seen else seen + {files[0].stem};
      UniqueKeepsFirst(files[1..], next);
      UniqueStemsDistinct(files[1..], next);
      forall f | f in Unique(files, seen)
        ensures exists i :: 0 <= i < |files| && files[i] == f && forall j :: 0 <= j < i ==> files[j].stem != f.stem
      {
        if f == files[0] && files[0].stem !in seen {
          assert files[0] == f;
        } else {
          assert f in Unique(files[1..], next);
          var k :| 0 <= k < |files[1..]| && files[1..][k] == f
            && forall j :: 0 <= j < k ==> files[1..][j].stem != f.stem;
          var u := Unique(files[1..], next);
          var m :| 0 <= m < |u| && u[m] == f;
          assert f.stem !in next;
          assert files[0].stem != f.stem;
          assert files[k + 1] == f;
          forall j | 0 <= j < k + 1 ensures files[j].stem != f.stem {
            if j > 0 {
              assert files[j] == files[1..][j - 1];
            }
          }
        }
      }
    }
  }

  /** `a` is `b` with some elements left out, the rest in their order. */
  predicate IsSubsequence<T(==)>(a: seq<T>, b: seq<T>)
    decreases |b|
  {
    if a == [] then true
    else if b == [] then false
    else if a[0] == b[0] then IsSubsequence(a[1..], b[1..])
    else IsSubsequence(a, b[1..])
  }

  /** The kept files appear in the order of the list. */
  lemma {:induction false} UniqueIsSubsequence(files: seq<FileRef>, seen: set<string>)
    ensures IsSubsequence(Unique(files, seen), files)
  {
    if files != [] {
      if files[0].stem in seen {
        UniqueIsSubsequence(files[1..], seen);
        SubsequenceOfTail(Unique(files[1..], seen), files);
      } else {
        UniqueIsSubsequence(files[1..], seen + {files[0].stem});
        var u := [files[0]] + Unique(files[1..], seen + {files[0].stem});
        assert u[0] == files[0] && u[1..] == Unique(files[1..], seen + {files[0].stem});
      }
    }
  }

  /** A subsequence of the tail is one of the whole list. */
  lemma {:induction false} SubsequenceOfTail<T>(a: seq<T>, b: seq<T>)
    requires b != [] && IsSubsequence(a, b[1..])
    ensures IsSubsequence(a, b)
    decreases |b|, 0
  {
    if a != [] && a[0] == b[0] {
      SubsequenceDropHead(a, b[1..]);
    }
  }

  /** Leaving out the first element keeps a subsequence. */
  lemma {:induction false} SubsequenceDropHead<T>(a: seq<T>, c: seq<T>)
    requires a != [] && IsSubsequence(a, c)
    ensures IsSubsequence(a[1..], c)
    decreases |c|, 1
  {
    if a[0] == c[0] {
      SubsequenceOfTail(a[1..], c);
    } else {
      SubsequenceDropHead(a, c[1..]);
      SubsequenceOfTail(a[1..], c);
    }
  }

  // ---------------------------------------------------------------- select_transcript_file

  /** What one call of `input` brings: a typed line, Ctrl-C, or the end of the input. */
  datatype Reply = Typed(line: string) | Interrupted | EndOfInput

  /** How the selection ends: a file, no file (quit, Ctrl-C or nothing to choose from),
      an uncaught `EOFError`, or still prompting when the replies run out. */
  datatype Outcome = Chosen(file: FileRef) | NoFile | EndOfInputError | StillPrompting

  /** `int(s)` on a stripped string: an optional sign followed by digits. */
  function ParseInt(s: string): (r: Option<int>)
    ensures r.Some? <==> IsNumeral(s) || (|s| > 1 && (s[0] == '+' || s[0] == '-') && IsNumeral(s[1..]))
  {
    if IsNumeral(s) then Some(DigitsValue(s))
    else if |s| > 1 && s[0] == '+' && IsNumeral(s[1..]) then Some(DigitsValue(s[1..]))
    else if |s| > 1 && s[0] == '-' && IsNumeral(s[1..]) then Some(0 - DigitsValue(s[1..]))
    else None
  }

  /** `int` reads back what `str` writes for a number. */
  lemma ParseDecimal(n: nat)
    ensures ParseInt(Decimal(n)) == Some(n)
  {
    DecimalValue(n);
  }

  /** One answer to the prompt: the outcome it settles, or None when the prompt is repeated. */
  function Answer(files: seq<FileRef>, reply: Reply): Option<Outcome> {
    match reply
    case Interrupted => Some(NoFile)
    case EndOfInput => Some(EndOfInputError)
    case Typed(line) =>
      var choice := Strip(line);
      if choice == "q" || choice == "Q" then Some(NoFile)
      else match ParseInt(choice)
        case None => None
        case Some(n) => if 1 <= n <= |files| then Some(Chosen(files[n - 1])) else None
  }

  /** The outcome of `select_transcript_file` on the de-duplicated list and the answers the
      user gives, in order. */
  function Selection(files: seq<FileRef>, replies: seq<Reply>): Outcome {
    if files == [] then NoFile
    else if replies == [] then StillPrompting
    else match Answer(files, replies[0])
      case Some(o) => o
      case None => Selection(files, replies[1..])
  }

  /** The prompt loop of `select_transcript_file`. */
  method SelectTranscriptFile(files: seq<FileRef>, replies: seq<Reply>) returns (outcome: Outcome)
    ensures outcome == Selection(files, replies)
  {
    if |files| == 0 {
      return NoFile;
    }
    var i := 0;
    while i < |replies|
      invariant i <= |replies|
      invariant Selection(files, replies[i..]) == Selection(files, replies)
    {
      assert replies[i..][0] == replies[i] && replies[i..][1..] == replies[i + 1..];
      match replies[i]
      case Interrupted =>
        return NoFile;
      case EndOfInput =>
        return EndOfInputError;
      case Typed(line) =>
        var choice := Strip(line);
        if choice == "q" || choice == "Q" {
          return NoFile;
        }
        var index := ParseInt(choice);
        if index.Some? {
          var k := index.value - 1;
          if 0 <= k < |files| {
            return Chosen(files[k]);
          }
        }
      i := i + 1;
    }
    assert replies[i..] == [];
    return StillPrompting;
  }

  /** `reply` is a typed number `n` with 1 <= n <= |files|, and `f` is `files[n - 1]`. */
  predicate Picks(files: seq<FileRef>, reply: Reply, f: FileRef) {
    && reply.Typed?
    && ParseInt(Strip(reply.line)).Some?
    && 1 <= ParseInt(Strip(reply.line)).value <= |files|
    && f == files[ParseInt(Strip(reply.line)).value - 1]
  }

  /** A chosen file is on the list, at the position the user typed. */
  lemma {:induction false} ChosenIsListed(files: seq<FileRef>, replies: seq<Reply>)
    requires Selection(files, replies).Chosen?
    ensures exists k :: 0 <= k < |replies| && Picks(files, replies[k], Selection(files, replies).file)
  {
    var f := Selection(files, replies).file;
    match Answer(files, replies[0])
    case Some(o) =>
      assert Picks(files, replies[0], f);
    case None =>
      ChosenIsListed(files, replies[1..]);
      var k :| 0 <= k < |replies[1..]| && Picks(files, replies[1..][k], f);
      assert replies[k + 1] == replies[1..][k];
  }

  /** Typing `q` or `Q`, with any surrounding whitespace, ends the selection without a file. */
  lemma QuitChoosesNothing(files: seq<FileRef>, line: string, rest: seq<Reply>)
    requires Strip(line) == "q" || Strip(line) == "Q"
    ensures Selection(files, [Typed(line)] + rest) == NoFile
  {
  }

  /** Typing a listed position chooses that file. */
  lemma NumberChooses(files: seq<FileRef>, n: nat, rest: seq<Reply>)
    requires 1 <= n <= |files|
    ensures Selection(files, [Typed(Decimal(n))] + rest) == Chosen(files[n - 1])
  {
    ParseDecimal(n);
    NumeralStripped(Decimal(n));
    StripStripped(Decimal(n));
  }

  /** Any other typed answer (a number off the list, or not a number) asks again. */
  lemma OtherAnswersAskAgain(files: seq<FileRef>, line: string, rest: seq<Reply>)
    requires files != []
    requires Strip(line) != "q" && Strip(line) != "Q"
    requires ParseInt(Strip(line)).None? || !(1 <= ParseInt(Strip(line)).value <= |files|)
    ensures Selection(files, [Typed(line)] + rest) == Selection(files, rest)
  {
    assert ([Typed(line)] + rest)[1..] == rest;
  }
}
