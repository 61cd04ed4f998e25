/** Comparing sources up to line endings and trailing blanks (src/lib/verifyWrite.ts, `normalizeSource` and
    `verifySourceWritten`; src/lib/adt/secondarySystem.ts, `normalizeForComparison`, is the same chain). */
module SourceNormalisation {
  import opened Sequences
  import opened Text

  // ---------- The chain of string operations ----------

  /** `s.split('\n')`. */
  function Split(s: string): (lines: seq<string>)
    ensures |lines| > 0
  {
    if |s| == 0 then [""]
    else if s[0] == '\n' then [""] + Split(s[1..])
    else Prepend(s[0], Split(s[1..]))
  }

  function Prepend(c: char, lines: seq<string>): (r: seq<string>)
    requires |lines| > 0
    ensures |r| == |lines|
  {
    [[c] + lines[0]] + lines[1..]
  }

  /** `lines.join('\n')`. */
  function Join(lines: seq<string>): string {
    if |lines| == 0 then "" else if |lines| == 1 then lines[0] else lines[0] + "\n" + Join(lines[1..])
  }

  predicate IsBlank(c: char) {
    c == ' ' || c == '\t'
  }

  /** `line.replace(/[ \t]+$/, '')`. */
  function TrimRight(line: string): (r: string)
    ensures r <= line && (|r| > 0 ==> !IsBlank(r[|r| - 1]))
  {
    if |line| != 0 && IsBlank(line[|line| - 1]) then TrimRight(line[..|line| - 1]) else line
  }

  /** `s.replace(/\n+$/, '')`. */
  function StripNewlines(s: string): string {
    if |s| != 0 && s[|s| - 1] == '\n' then StripNewlines(s[..|s| - 1]) else s
  }

  function UnixEndings(source: string): string {
    ReplaceAll(ReplaceAll(source, "\r\n", "\n"), "\r", "\n")
  }

  function NormalizeSource(source: string): string {
    StripNewlines(Join(Map(TrimRight, Split(UnixEndings(source)))))
  }

  // ---------- Lines ----------

  /** The lines of a text, ended by CRLF, CR or LF. */
  function Lines(s: string): (lines: seq<string>)
    ensures |lines| > 0
  {
    if |s| == 0 then [""]
    else if "\r\n" <= s then [""] + Lines(s[2..])
    else if s[0] == '\r' || s[0] == '\n' then [""] + Lines(s[1..])
    else Prepend(s[0], Lines(s[1..]))
  }

  function DropEmptyTail(lines: seq<string>): seq<string> {
    if |lines| != 0 && lines[|lines| - 1] == "" then DropEmptyTail(lines[..|lines| - 1]) else lines
  }

  /** What of a text survives normalisation: its lines, trimmed, without empty lines at the end. */
  function Content(s: string): seq<string> {
    DropEmptyTail(Map(TrimRight, Lines(s)))
  }

  ghost predicate Plain(line: string) {
    forall c :: c in line ==> c != '\r' && c != '\n'
  }

  lemma {:induction false} LinesPlain(s: string)
    ensures forall l :: l in Lines(s) ==> Plain(l)
  {
    if |s| != 0 {
      if "\r\n" <= s {
        LinesPlain(s[2..]);
      } else {
        LinesPlain(s[1..]);
        if s[0] != '\r' && s[0] != '\n' {
          var rest := Lines(s[1..]);
          assert rest[0] in rest;
          forall l | l in Lines(s) ensures Plain(l) {
            assert l == [s[0]] + rest[0] || l in rest;
          }
        }
      }
    }
  }

  /** The two global replacements turn every line ending into a line feed. */
  lemma {:induction false} EndingsThenSplit(s: string)
    ensures Split(UnixEndings(s)) == Lines(s)
  {
    if |s| != 0 {
      if "\r\n" <= s {
        EndingsThenSplit(s[2..]);
        assert ReplaceAll(s, "\r\n", "\n") == "\n" + ReplaceAll(s[2..], "\r\n", "\n");
        StepPast('\n', ReplaceAll(s[2..], "\r\n", "\n"), "\r", "\n");
        SplitAfterNewline(UnixEndings(s[2..]));
      } else {
        EndingsThenSplit(s[1..]);
        var rest := ReplaceAll(s[1..], "\r\n", "\n");
        assert ReplaceAll(s, "\r\n", "\n") == [s[0]] + rest;
        if s[0] == '\r' {
          MatchReplaced(rest, "\r", "\n");
          assert ['\r'] + rest == "\r" + rest;
          SplitAfterNewline(UnixEndings(s[1..]));
        } else {
          StepPast(s[0], rest, "\r", "\n");
          SplitAfterChar(s[0], UnixEndings(s[1..]));
        }
      }
    }
  }

  lemma SplitAfterNewline(s: string)
    ensures Split("\n" + s) == [""] + Split(s)
  {
    assert ("\n" + s)[1..] == s;
  }

  lemma SplitAfterChar(c: char, s: string)
    ensures Split([c] + s) == if c == '\n' then [""] + Split(s) else Prepend(c, Split(s))
  {
    assert ([c] + s)[1..] == s;
  }

  // ---------- Joining and splitting ----------

  lemma {:induction false} SplitLine(line: string, rest: string)
    requires Plain(line)
    ensures Split(line + "\n" + rest) == [line] + Split(rest)
    ensures Split(line) == [line]
  {
    if |line| == 0 {
      assert line + "\n" + rest == "\n" + rest;
      SplitAfterNewline(rest);
    } else {
      assert line[0] in line && forall c :: c in line[1..] ==> c in line;
      SplitLine(line[1..], rest);
      assert line + "\n" + rest == [line[0]] + (line[1..] + "\n" + rest);
      SplitAfterChar(line[0], line[1..] + "\n" + rest);
      assert line == [line[0]] + line[1..];
      SplitAfterChar(line[0], line[1..]);
    }
  }

  lemma {:induction false} SplitJoin(lines: seq<string>)
    requires |lines| > 0 && forall l :: l in lines ==> Plain(l)
    ensures Split(Join(lines)) == lines
  {
    assert lines[0] in lines;
    if |lines| == 1 {
      SplitLine(lines[0], "");
    } else {
      assert forall l :: l in lines[1..] ==> l in lines;
      SplitJoin(lines[1..]);
      SplitLine(lines[0], Join(lines[1..]));
      assert lines == [lines[0]] + lines[1..];
    }
  }

  /** Text made of plain lines has no carriage return, so only its line feeds separate lines. */
  lemma {:induction false} LinesAreSplit(s: string)
    requires forall c :: c in s ==> c != '\r'
    ensures Lines(s) == Split(s)
  {
    if |s| != 0 {
      assert s[0] in s && forall c :: c in s[1..] ==> c in s;
      LinesAreSplit(s[1..]);
    }
  }

  lemma {:induction false} JoinHasNoReturn(lines: seq<string>)
    requires forall l :: l in lines ==> Plain(l)
    ensures forall c :: c in Join(lines) ==> c != '\r'
  {
    if |lines| > 0 {
      assert lines[0] in lines;
      if |lines| > 1 {
        assert forall l :: l in lines[1..] ==> l in lines;
        JoinHasNoReturn(lines[1..]);
      }
    }
  }

  lemma LinesJoin(lines: seq<string>)
    requires |lines| > 0 && forall l :: l in lines ==> Plain(l)
    ensures Lines(Join(lines)) == lines
  {
    JoinHasNoReturn(lines);
    LinesAreSplit(Join(lines));
    SplitJoin(lines);
  }

  lemma {:induction false} JoinSnoc(lines: seq<string>, last: string)
    requires |lines| > 0
    ensures Join(lines + [last]) == Join(lines) + "\n" + last
  {
    if |lines| == 1 {
      assert (lines + [last])[1..] == [last];
    } else {
      JoinSnoc(lines[1..], last);
      assert (lines + [last])[1..] == lines[1..] + [last];
    }
  }

  /** Stripping line feeds from the end of the text drops the empty lines at the end of the list. */
  lemma {:induction false} StripIsDrop(lines: seq<string>)
    requires forall l :: l in lines ==> Plain(l)
    ensures StripNewlines(Join(lines)) == Join(DropEmptyTail(lines))
  {
    if |lines| != 0 {
      var n := |lines| - 1;
      assert lines[n] in lines && forall l :: l in lines[..n] ==> l in lines;
      if n == 0 {
        assert lines[n] == "" ==> lines[..n] == [];
        if lines[0] != "" {
          assert lines[0][|lines[0]| - 1] in lines[0];
        }
      } else {
        JoinSnoc(lines[..n], lines[n]);
        assert lines == lines[..n] + [lines[n]];
        var s := Join(lines);
        if lines[n] == "" {
          StripIsDrop(lines[..n]);
          assert s[..|s| - 1] == Join(lines[..n]);
        } else {
          assert s[|s| - 1] == lines[n][|lines[n]| - 1];
          assert lines[n][|lines[n]| - 1] in lines[n];
        }
      }
    }
  }

  lemma {:induction false} DropIsPrefix(lines: seq<string>)
    ensures DropEmptyTail(lines) <= lines
    ensures var d := DropEmptyTail(lines); |d| > 0 ==> d[|d| - 1] != ""
  {
    if |lines| != 0 && lines[|lines| - 1] == "" {
      DropIsPrefix(lines[..|lines| - 1]);
    }
  }

  lemma TrimmedPlain(s: string)
    ensures forall l :: l in Map(TrimRight, Lines(s)) ==> Plain(l) && TrimRight(l) == l
  {
    LinesPlain(s);
    var lines := Lines(s);
    forall l | l in Map(TrimRight, lines) ensures Plain(l) && TrimRight(l) == l {
      var k :| 0 <= k < |lines| && l == TrimRight(lines[k]);
      assert lines[k] in lines;
      forall c | c in l ensures c in lines[k] {
        var i :| 0 <= i < |l| && l[i] == c;
        assert lines[k][i] == c;
      }
    }
  }

  lemma ContentFacts(s: string)
    ensures forall l :: l in Content(s) ==> Plain(l) && TrimRight(l) == l
    ensures |Content(s)| > 0 ==> Content(s)[|Content(s)| - 1] != ""
  {
    TrimmedPlain(s);
    DropIsPrefix(Map(TrimRight, Lines(s)));
  }

  // ---------- The laws ----------

  /** The chain computes: take the lines, trim them, drop the empty ones at the end, join with line feeds. */
  lemma NormalizeIsContent(s: string)
    ensures NormalizeSource(s) == Join(Content(s))
  {
    EndingsThenSplit(s);
    TrimmedPlain(s);
    StripIsDrop(Map(TrimRight, Lines(s)));
  }

  lemma JoinNonEmpty(lines: seq<string>)
    requires |lines| > 0 && lines[|lines| - 1] != ""
    ensures Join(lines) != ""
  {
  }

  /** Two texts normalise equally if and only if their trimmed lines, without empty lines at the end, are the same. */
  lemma NormalizeEqual(a: string, b: string)
    ensures NormalizeSource(a) == NormalizeSource(b) <==> Content(a) == Content(b)
  {
    NormalizeIsContent(a);
    NormalizeIsContent(b);
    ContentFacts(a);
    ContentFacts(b);
    if NormalizeSource(a) == NormalizeSource(b) {
      if Content(a) != [] && Content(b) != [] {
        LinesJoin(Content(a));
        LinesJoin(Content(b));
      } else if Content(a) != [] {
        JoinNonEmpty(Content(a));
      } else if Content(b) != [] {
        JoinNonEmpty(Content(b));
      }
    }
  }

  lemma MapTrimFixed(lines: seq<string>)
    requires forall l :: l in lines ==> TrimRight(l) == l
    ensures Map(TrimRight, lines) == lines
  {
  }

  /** Normalising twice is normalising once. */
  lemma NormalizeIdempotent(s: string)
    ensures NormalizeSource(NormalizeSource(s)) == NormalizeSource(s)
  {
    NormalizeIsContent(s);
    ContentFacts(s);
    var t, lines := Join(Content(s)), Content(s);
    NormalizeIsContent(t);
    if lines == [] {
      assert Lines("") == [""] && Map(TrimRight, [""]) == [""];
      assert DropEmptyTail([""]) == [] by {
        assert [""][..0] == [];
      }
    } else {
      LinesJoin(lines);
      MapTrimFixed(lines);
    }
  }

  // ---------- What is compared ----------

  /** The line without the blanks and tabs at its end. */
  ghost predicate IsTrimmed(line: string, r: string) {
    && r <= line && (forall k :: |r| <= k < |line| ==> line[k] == ' ' || line[k] == '\t')
    && (|r| > 0 ==> r[|r| - 1] != ' ' && r[|r| - 1] != '\t')
  }

  /** Lines without line ends which, joined, give the text with CRLF and CR turned into LF. */
  ghost predicate AreLines(s: string, lines: seq<string>) {
    && |lines| > 0 && (forall l :: l in lines ==> '\r' !in l && '\n' !in l)
    && Join(lines) == ReplaceAll(ReplaceAll(s, "\r\n", "\n"), "\r", "\n")
  }

  /** The trimmed lines of the text up to the last that is not empty. */
  ghost predicate IsContent(s: string, lines: seq<string>) {
    exists all ::
      AreLines(s, all) && |lines| <= |all| && AllTrimmed(all, lines) && (|lines| > 0 ==> lines[|lines| - 1] != "")
  }

  ghost predicate AllTrimmed(all: seq<string>, lines: seq<string>) {
    forall k :: 0 <= k < |all| ==> IsTrimmed(all[k], if k < |lines| then lines[k] else "")
  }

  lemma SameContent(a: string, b: string)
    ensures (exists lines :: IsContent(a, lines) && IsContent(b, lines)) <==> Content(a) == Content(b)
  {
    ContentExactly(a, Content(a));
    if lines :| IsContent(a, lines) && IsContent(b, lines) {
      ContentExactly(a, lines);
      ContentExactly(b, lines);
    }
    ContentExactly(b, Content(a));
  }

  lemma {:induction false} TrimRightExactly(line: string, r: string)
    ensures IsTrimmed(line, r) <==> r == TrimRight(line)
  {
    if |line| != 0 && IsBlank(line[|line| - 1]) {
      var n := |line| - 1;
      TrimRightExactly(line[..n], r);
      assert IsTrimmed(line, r) ==> |r| <= n;
      assert IsTrimmed(line, r) <==> IsTrimmed(line[..n], r);
    } else {
      assert r <= line && |r| >= |line| ==> r == line;
      assert |line| > 0 ==> line[|line| - 1] != ' ' && line[|line| - 1] != '\t';
    }
  }

  lemma LinesExactly(s: string, lines: seq<string>)
    ensures AreLines(s, lines) <==> lines == Lines(s)
  {
    EndingsThenSplit(s);
    LinesPlain(s);
    if AreLines(s, lines) {
      forall l | l in lines ensures Plain(l) {
      }
      SplitJoin(lines);
    }
    JoinSplit(UnixEndings(s));
  }

  lemma {:induction false} JoinSplit(s: string)
    ensures Join(Split(s)) == s
  {
    if |s| != 0 {
      JoinSplit(s[1..]);
      var rest := Split(s[1..]);
      if s[0] == '\n' {
        assert ([""] + rest)[1..] == rest;
        assert Join([""] + rest) == "" + "\n" + Join(rest);
      } else {
        var first := [s[0]] + rest[0];
        assert Prepend(s[0], rest)[1..] == rest[1..];
        assert |rest| > 1 ==> first + "\n" + Join(rest[1..]) == [s[0]] + (rest[0] + "\n" + Join(rest[1..]));
      }
    }
  }

  lemma {:induction false} DropEmptyTailExactly(all: seq<string>, lines: seq<string>)
    ensures lines == DropEmptyTail(all)
            <==> lines <= all && (forall k :: |lines| <= k < |all| ==> all[k] == "") && (|lines| > 0 ==> lines[|lines| - 1] != "")
  {
    if |all| != 0 && all[|all| - 1] == "" {
      var n := |all| - 1;
      DropEmptyTailExactly(all[..n], lines);
      assert lines <= all && |lines| == |all| ==> lines == all;
    } else if lines <= all && forall k :: |lines| <= k < |all| ==> all[k] == "" {
      assert lines == all;
    }
  }

  lemma ContentExactly(s: string, lines: seq<string>)
    ensures IsContent(s, lines) <==> lines == Content(s)
  {
    var all := Lines(s);
    LinesExactly(s, all);
    DropEmptyTailExactly(Map(TrimRight, all), lines);
    TrimmedUpTo(all, lines);
    hide AreLines, IsTrimmed, DropEmptyTail, Lines, TrimRight;
    if IsContent(s, lines) {
      var other :| AreLines(s, other) && |lines| <= |other| && AllTrimmed(other, lines) && (|lines| > 0 ==> lines[|lines| - 1] != "");
      LinesExactly(s, other);
    }
    hide AllTrimmed;
  }

  lemma TrimmedUpTo(all: seq<string>, lines: seq<string>)
    ensures |lines| <= |all| ==>
              (AllTrimmed(all, lines)
               <==> lines <= Map(TrimRight, all) && forall k :: |lines| <= k < |all| ==> Map(TrimRight, all)[k] == "")
  {
    var trimmed := Map(TrimRight, all);
    forall k, r | 0 <= k < |all| ensures IsTrimmed(all[k], r) <==> trimmed[k] == r {
      TrimRightExactly(all[k], r);
    }
    hide IsTrimmed, TrimRight, Map;
    if |lines| <= |all| && AllTrimmed(all, lines) {
      assert forall k :: 0 <= k < |lines| ==> trimmed[k] == lines[k];
      assert lines == trimmed[..|lines|];
    }
  }

  // ---------- Verifying a write ----------

  /** What reading the object back gave: an exception, no text, or the source. */
  datatype ReadBack = Raised(message: string) | NoText | Source(text: string)

  datatype Reason = CouldNotRead(message: string) | NoSourceText | Differs

  datatype Verification = Verification(verified: bool, reason: Option<Reason>, expectedBytes: nat, actualBytes: Option<nat>)

  /** A write is verified exactly when the source read back has the content that was sent. */
  method VerifySourceWritten(readBack: ReadBack, expected: string) returns (v: Verification)
    ensures v.verified <==> readBack.Source? && exists lines :: IsContent(readBack.text, lines) && IsContent(expected, lines)
    ensures v.verified <==> v.reason.None?
    ensures readBack.Raised? ==> v.reason == Some(CouldNotRead(readBack.message))
    ensures readBack.NoText? ==> v.reason == Some(NoSourceText)
    ensures readBack.Source? && !v.verified ==> v.reason == Some(Differs)
    ensures v.expectedBytes == |expected|
    ensures v.actualBytes == if readBack.Source? then Some(|readBack.text|) else None
  {
    if readBack.Source? {
      SameContent(readBack.text, expected);
    }
    hide IsContent;
    match readBack {
      case Raised(message) => return Verification(false, Some(CouldNotRead(message)), |expected|, None);
      case NoText => return Verification(false, Some(NoSourceText), |expected|, None);
      case Source(actual) =>
        NormalizeEqual(actual, expected);
        if NormalizeSource(actual) == NormalizeSource(expected) {
          return Verification(true, None, |expected|, Some(|actual|));
        }
        return Verification(false, Some(Differs), |expected|, Some(|actual|));
    }
  }
}
