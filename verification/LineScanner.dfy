/** Scanning the lines of one source unit (src/lib/search-source/lineScanner.ts). */
module LineScanner {
  import opened Sequences

  const SNIPPET_MAX := 255

  datatype ScanHit = ScanHit(line: nat, snippet: string)

  /** The search terms; `lower` is the engine's toLowerCase. */
  datatype ScanInput = ScanInput(
    lower: string -> string,
    query: string,
    query2: Option<string>,
    exclude: seq<string>,
    excludeComments: bool)

  /** The characters \s matches. */
  predicate IsSpace(c: char) {
    || '\t' <= c <= '\r' || c == ' ' || c == '\U{a0}' || c == '\U{1680}' || '\U{2000}' <= c <= '\U{200a}'
    || c == '\U{2028}' || c == '\U{2029}' || c == '\U{202f}' || c == '\U{205f}' || c == '\U{3000}' || c == '\U{feff}'
  }

  /** `haystack.indexOf(needle) !== -1`. */
  predicate Contains(haystack: string, needle: string) {
    needle <= haystack || (|haystack| != 0 && Contains(haystack[1..], needle))
  }

  predicate StartsWithQuote(line: string) {
    |line| != 0 && (line[0] == '"' || (IsSpace(line[0]) && StartsWithQuote(line[1..])))
  }

  predicate IsCommentLine(line: string) {
    |line| != 0 && (line[0] == '*' || StartsWithQuote(line))
  }

  predicate LineMatches(input: ScanInput, raw: string) {
    var lower := input.lower(raw);
    && !(input.excludeComments && IsCommentLine(raw))
    && Contains(lower, input.lower(input.query))
    && (input.query2.Some? && input.query2.value != "" ==> Contains(lower, input.lower(input.query2.value)))
    && (forall k :: 0 <= k < |input.exclude| ==> !Contains(lower, input.lower(input.exclude[k])))
  }

  /** A line is a hit; an empty query has none. */
  predicate IsHit(input: ScanInput, raw: string) {
    input.query != "" && LineMatches(input, raw)
  }

  function Snippet(raw: string): string {
    if |raw| > SNIPPET_MAX then raw[..SNIPPET_MAX] else raw
  }

  /** Every hit of the unit, in line order. */
  function AllHits(input: ScanInput, lines: seq<string>): seq<ScanHit> {
    if |lines| == 0 then [] else
    var n := |lines| - 1;
    AllHits(input, lines[..n]) + (if IsHit(input, lines[n]) then [ScanHit(n + 1, Snippet(lines[n]))] else [])
  }

  lemma {:induction false} AllHitsPrefix(input: ScanInput, lines: seq<string>, n: nat)
    requires n <= |lines|
    ensures AllHits(input, lines[..n]) <= AllHits(input, lines)
  {
    if n < |lines| {
      var m := |lines| - 1;
      AllHitsPrefix(input, lines[..m], n);
      assert lines[..m][..n] == lines[..n];
    } else {
      assert lines[..n] == lines;
    }
  }

  lemma AllHitsStep(input: ScanInput, lines: seq<string>, n: nat)
    requires n < |lines|
    ensures AllHits(input, lines[..n + 1]) == AllHits(input, lines[..n]) +
                                              (if IsHit(input, lines[n]) then [ScanHit(n + 1, Snippet(lines[n]))] else [])
  {
    assert lines[..n + 1][..n] == lines[..n];
  }

  // ---------- What a search asks of a line ----------

  /** The needle stands somewhere in the text. */
  ghost predicate Occurs(needle: string, text: string) {
    exists before, after :: text == before + needle + after
  }

  const WHITE_SPACE: set<char> := {
    '\U{0009}', '\U{000a}', '\U{000b}', '\U{000c}', '\U{000d}', ' ', '\U{00a0}', '\U{1680}', '\U{2000}', '\U{2001}', '\U{2002}',
    '\U{2003}', '\U{2004}', '\U{2005}', '\U{2006}', '\U{2007}', '\U{2008}', '\U{2009}', '\U{200a}', '\U{2028}', '\U{2029}',
    '\U{202f}', '\U{205f}', '\U{3000}', '\U{feff}' }

  /** The character at k is the first that is not white space. */
  ghost predicate FirstInk(line: string, k: nat) {
    k < |line| && line[k] !in WHITE_SPACE && forall j :: 0 <= j < k ==> line[j] in WHITE_SPACE
  }

  /** A comment in ABAP: a star in the first column, or a double quote before any other text. */
  ghost predicate Comment(line: string) {
    (|line| > 0 && line[0] == '*') || exists k: nat :: FirstInk(line, k) && line[k] == '"'
  }

  /** What makes a line a hit: it holds the query and the second term, if there is one, and no excluded term, all in lower
      case, and is no comment if these are left out. An empty query asks for nothing. */
  ghost predicate AskedFor(input: ScanInput, line: string) {
    var text := input.lower(line);
    && input.query != "" && Occurs(input.lower(input.query), text)
    && (input.query2.Some? && input.query2.value != "" ==> Occurs(input.lower(input.query2.value), text))
    && (forall term :: term in input.exclude ==> !Occurs(input.lower(term), text))
    && (input.excludeComments ==> !Comment(line))
  }

  /** The line, or its first 255 characters. */
  ghost predicate CutAt255(line: string, snippet: string) {
    if |line| <= 255 then snippet == line else |snippet| == 255 && snippet <= line
  }

  lemma {:induction false} ContainsOccurs(text: string, needle: string)
    ensures Contains(text, needle) <==> Occurs(needle, text)
  {
    if needle <= text {
      assert text == [] + needle + text[|needle|..];
    } else {
      if |text| > 0 {
        ContainsOccurs(text[1..], needle);
        if before, after :| text[1..] == before + needle + after {
          assert text == ([text[0]] + before) + needle + after;
        }
      }
      if before, after :| text == before + needle + after {
        assert needle <= needle + after && (before == [] ==> text == needle + after);
        assert text[1..] == before[1..] + needle + after;
      }
    }
  }

  lemma SpacesAre(c: char)
    ensures IsSpace(c) <==> c in WHITE_SPACE
  {
  }

  lemma {:induction false} QuoteFirst(line: string)
    ensures StartsWithQuote(line) <==> exists k: nat :: FirstInk(line, k) && line[k] == '"'
  {
    if |line| > 0 {
      SpacesAre(line[0]);
      if line[0] == '"' {
        assert FirstInk(line, 0);
      } else if IsSpace(line[0]) {
        QuoteFirst(line[1..]);
        if k: nat :| FirstInk(line[1..], k) && line[1..][k] == '"' {
          assert FirstInk(line, k + 1);
        }
        if k: nat :| FirstInk(line, k) && line[k] == '"' {
          assert FirstInk(line[1..], k - 1);
        }
      }
    }
  }

  /** The scanner's test of a line decides just that. */
  lemma HitIsAskedFor(input: ScanInput, line: string)
    ensures IsHit(input, line) <==> AskedFor(input, line)
    ensures forall snippet :: snippet == Snippet(line) <==> CutAt255(line, snippet)
  {
    var text := input.lower(line);
    forall needle ensures Contains(text, needle) <==> Occurs(needle, text) {
      ContainsOccurs(text, needle);
    }
    QuoteFirst(line);
    hide Contains, Occurs, StartsWithQuote;
    assert (forall k :: 0 <= k < |input.exclude| ==> !Occurs(input.lower(input.exclude[k]), text))
      <==> forall term :: term in input.exclude ==> !Occurs(input.lower(term), text);
  }

  /** The hits list each line asked for, with its number and its first 255 characters, once and in order, and nothing else. */
  ghost predicate ListsHits(input: ScanInput, lines: seq<string>, hits: seq<ScanHit>) {
    && (forall h :: h in hits <==> 1 <= h.line <= |lines| && AskedFor(input, lines[h.line - 1]) && CutAt255(lines[h.line - 1], h.snippet))
    && (forall i, j :: 0 <= i < j < |hits| ==> hits[i].line < hits[j].line)
  }

  lemma AllHitsExact(input: ScanInput, lines: seq<string>)
    ensures ListsHits(input, lines, AllHits(input, lines))
  {
    HitsByLine(input, lines);
    forall k | 0 <= k < |lines|
      ensures IsHit(input, lines[k]) <==> AskedFor(input, lines[k])
      ensures forall snippet :: snippet == Snippet(lines[k]) <==> CutAt255(lines[k], snippet)
    {
      HitIsAskedFor(input, lines[k]);
    }
    hide IsHit, AskedFor, CutAt255, Snippet, AllHits;
  }

  /** The list of hits is what it should be: each hit line once, in order, nothing else. */
  lemma {:induction false} HitsByLine(input: ScanInput, lines: seq<string>)
    ensures forall h :: h in AllHits(input, lines) <==>
                        1 <= h.line <= |lines| && IsHit(input, lines[h.line - 1]) && h.snippet == Snippet(lines[h.line - 1])
    ensures forall i, j :: 0 <= i < j < |AllHits(input, lines)| ==> AllHits(input, lines)[i].line < AllHits(input, lines)[j].line
  {
    if |lines| != 0 {
      var n := |lines| - 1;
      HitsByLine(input, lines[..n]);
      var before := AllHits(input, lines[..n]);
      forall h | h in before ensures h.line <= n {}
      forall i, j | 0 <= i < j < |AllHits(input, lines)|
        ensures AllHits(input, lines)[i].line < AllHits(input, lines)[j].line
      {
        assert i < |before| && before[i] in before;
      }
      forall h: ScanHit | 1 <= h.line <= |lines| && IsHit(input, lines[h.line - 1]) && h.snippet == Snippet(lines[h.line - 1])
        ensures h in AllHits(input, lines)
      {
        if h.line <= n {
          assert h in before;
        }
      }
    }
  }

  /** Scans up to the cap; `capped` says that a further hit was left behind. */
  method ScanLines(input: ScanInput, lines: seq<string>, maxHits: int) returns (hits: seq<ScanHit>, capped: bool)
    ensures hits == Take(AllHits(input, lines), maxHits) && ListsHits(input, lines, AllHits(input, lines))
    ensures capped <==> |AllHits(input, lines)| > (if maxHits < 0 then 0 else maxHits)
  {
    AllHitsExact(input, lines);
    hide ListsHits, IsHit, Snippet;
    hits, capped := [], false;
    var i := 0;
    while i < |lines|
      invariant 0 <= i <= |lines|
      invariant hits == AllHits(input, lines[..i])
      invariant |hits| <= (if maxHits < 0 then 0 else maxHits)
    {
      AllHitsPrefix(input, lines, i);
      AllHitsPrefix(input, lines, i + 1);
      AllHitsStep(input, lines, i);
      if IsHit(input, lines[i]) {
        if |hits| >= maxHits {
          capped := true;
          return;
        }
        hits := hits + [ScanHit(i + 1, Snippet(lines[i]))];
      }
      i := i + 1;
    }
    assert lines[..|lines|] == lines;
  }
}
