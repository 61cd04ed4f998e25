/** Finding the brace that closes a block of source text (tools/generate-tools-docs.js). */
module BraceMatcher {
  import opened Sequences

  /** Between quotes of one kind, or in code. */
  datatype Mode = Code | Quoted(quote: char)

  datatype Scanner = Scanner(mode: Mode, escaped: bool, depth: int)

  const START := Scanner(Code, false, 0)

  predicate IsQuote(c: char) {
    c == '\'' || c == '"' || c == '`'
  }

  /** The character is a brace the scanner counts. */
  predicate Counts(s: Scanner, c: char) {
    !s.escaped && s.mode.Code? && (c == '{' || c == '}')
  }

  function Next(s: Scanner, c: char): Scanner {
    if s.escaped then s.(escaped := false)
    else if c == '\\' then s.(escaped := true)
    else if s.mode.Quoted? then if c == s.mode.quote then s.(mode := Code) else s
    else if IsQuote(c) then s.(mode := Quoted(c))
    else if c == '{' then s.(depth := s.depth + 1)
    else if c == '}' then s.(depth := s.depth - 1)
    else s
  }

  /** The brace at this point closes the block. */
  predicate Closes(s: Scanner, c: char) {
    Counts(s, c) && c == '}' && s.depth == 1
  }

  /** Where the first closing brace is, scanning on from s. */
  function Search(s: Scanner, text: string): (k: Option<nat>)
    ensures k.Some? ==> k.value < |text|
    decreases text
  {
    if |text| == 0 then None
    else if Closes(s, text[0]) then Some(0)
    else Shift(1, Search(Next(s, text[0]), text[1..]))
  }

  function Shift(n: nat, k: Option<nat>): Option<nat> {
    if k.Some? then Some(n + k.value) else None
  }

  function Run(s: Scanner, text: string): Scanner {
    if |text| == 0 then s else Next(Run(s, text[..|text| - 1]), text[|text| - 1])
  }

  ghost predicate ClosesAt(s: Scanner, text: string, k: nat)
    requires k < |text|
  {
    Closes(Run(s, text[..k]), text[k])
  }

  lemma {:induction false} RunCons(s: Scanner, text: string)
    requires |text| > 0
    ensures Run(s, text) == Run(Next(s, text[0]), text[1..])
  {
    if |text| == 1 {
      assert text[..0] == "" && text[1..] == "";
    } else {
      var n := |text| - 1;
      RunCons(s, text[..n]);
      assert text[..n][1..] == text[1..][..n - 1];
    }
  }

  /** The search finds the first closing position, and fails exactly when there is none. */
  lemma {:induction false} SearchIsFirst(s: Scanner, text: string)
    ensures forall k: nat :: Search(s, text) == Some(k) <==>
              k < |text| && ClosesAt(s, text, k) && forall j: nat :: j < k ==> !ClosesAt(s, text, j)
    ensures Search(s, text).None? <==> forall k: nat :: k < |text| ==> !ClosesAt(s, text, k)
    decreases text
  {
    if |text| != 0 {
      var rest := text[1..];
      SearchIsFirst(Next(s, text[0]), rest);
      forall j: nat | j < |rest| ensures ClosesAt(s, text, j + 1) <==> ClosesAt(Next(s, text[0]), rest, j) {
        RunCons(s, text[..j + 1]);
        assert text[..j + 1][1..] == rest[..j];
      }
      assert ClosesAt(s, text, 0) <==> Closes(s, text[0]) by {
        assert text[..0] == "";
      }
      SearchFirst(s, text);
    }
  }

  lemma SearchFirst(s: Scanner, text: string)
    requires |text| > 0
    requires ClosesAt(s, text, 0) <==> Closes(s, text[0])
    requires forall j: nat :: j < |text[1..]| ==> (ClosesAt(s, text, j + 1) <==> ClosesAt(Next(s, text[0]), text[1..], j))
    requires forall k: nat :: Search(Next(s, text[0]), text[1..]) == Some(k) <==>
               k < |text[1..]| && ClosesAt(Next(s, text[0]), text[1..], k) && forall j: nat :: j < k ==> !ClosesAt(Next(s, text[0]), text[1..], j)
    requires Search(Next(s, text[0]), text[1..]).None? <==> forall k: nat :: k < |text[1..]| ==> !ClosesAt(Next(s, text[0]), text[1..], k)
    ensures forall k: nat :: Search(s, text) == Some(k) <==>
              k < |text| && ClosesAt(s, text, k) && forall j: nat :: j < k ==> !ClosesAt(s, text, j)
    ensures Search(s, text).None? <==> forall k: nat :: k < |text| ==> !ClosesAt(s, text, k)
  {
    hide ClosesAt, Closes, Next;
    var later := Search(Next(s, text[0]), text[1..]);
    if !Closes(s, text[0]) {
      assert Search(s, text) == Shift(1, later);
      hide Search;
      if later.Some? {
        FirstLater(s, text, later.value);
      } else {
        forall j: nat | j < |text| ensures !ClosesAt(s, text, j) {
          if j > 0 {
            assert !ClosesAt(Next(s, text[0]), text[1..], j - 1);
          }
        }
      }
    }
  }

  lemma FirstLater(s: Scanner, text: string, later: nat)
    requires |text| > 0 && later < |text[1..]| && !ClosesAt(s, text, 0)
    requires forall j: nat :: j < |text[1..]| ==> (ClosesAt(s, text, j + 1) <==> ClosesAt(Next(s, text[0]), text[1..], j))
    requires ClosesAt(Next(s, text[0]), text[1..], later) && forall j: nat :: j < later ==> !ClosesAt(Next(s, text[0]), text[1..], j)
    ensures ClosesAt(s, text, later + 1) && forall j: nat :: j < later + 1 ==> !ClosesAt(s, text, j)
  {
    hide ClosesAt, Next;
    forall j: nat | j < later + 1 ensures !ClosesAt(s, text, j) {
      if j > 0 {
        assert !ClosesAt(Next(s, text[0]), text[1..], j - 1);
      }
    }
  }

  // ---------- Blocks printed from a grammar ----------

  /** A character of a string literal: itself, or escaped. */
  datatype Part = Char(c: char) | Escape(c: char)

  datatype Item = Plain(c: char) | Escaped(c: char) | Literal(quote: char, parts: seq<Part>) | Block(items: seq<Item>)

  function PrintPart(p: Part): string {
    if p.Char? then [p.c] else ['\\', p.c]
  }

  function PrintParts(parts: seq<Part>): string {
    if |parts| == 0 then "" else PrintPart(parts[0]) + PrintParts(parts[1..])
  }

  function Print(items: seq<Item>): string
    decreases items
  {
    if |items| == 0 then "" else PrintItem(items[0]) + Print(items[1..])
  }

  function PrintItem(item: Item): string
    decreases item
  {
    match item
    case Plain(c) => [c]
    case Escaped(c) => ['\\', c]
    case Literal(q, parts) => [q] + PrintParts(parts) + [q]
    case Block(items) => ['{'] + Print(items) + ['}']
  }

  predicate WellFormed(items: seq<Item>)
    decreases items
  {
    |items| == 0 || (WellFormedItem(items[0]) && WellFormed(items[1..]))
  }

  predicate WellFormedItem(item: Item)
    decreases item
  {
    match item
    case Plain(c) => c !in {'\\', '\'', '"', '`', '{', '}'}
    case Escaped(_) => true
    case Literal(q, parts) => q in {'\'', '"', '`'} && forall p :: p in parts && p.Char? ==> p.c != q && p.c != '\\'
    case Block(items) => WellFormed(items)
  }

  lemma SearchStep(s: Scanner, c: char, rest: string)
    requires !Closes(s, c)
    ensures Search(s, [c] + rest) == Shift(1, Search(Next(s, c), rest))
  {
    assert ([c] + rest)[1..] == rest;
  }

  lemma {:induction false} PartsNeutral(q: char, depth: int, parts: seq<Part>, rest: string)
    requires IsQuote(q) && forall p :: p in parts && p.Char? ==> p.c != q && p.c != '\\'
    ensures var s := Scanner(Quoted(q), false, depth);
            Search(s, PrintParts(parts) + rest) == Shift(|PrintParts(parts)|, Search(s, rest))
  {
    hide Search, PrintPart;
    var s := Scanner(Quoted(q), false, depth);
    if |parts| == 0 {
      assert PrintParts(parts) + rest == rest;
    } else {
      var p, more := parts[0], PrintParts(parts[1..]) + rest;
      assert p in parts && forall x :: x in parts[1..] ==> x in parts;
      PartsNeutral(q, depth, parts[1..], rest);
      PartsCons(parts, rest);
      PartNeutral(q, depth, p, more);
    }
  }

  lemma PartsCons(parts: seq<Part>, rest: string)
    requires |parts| > 0
    ensures PrintParts(parts) + rest == PrintPart(parts[0]) + (PrintParts(parts[1..]) + rest)
    ensures |PrintParts(parts)| == |PrintPart(parts[0])| + |PrintParts(parts[1..])|
  {
    var first, more := PrintPart(parts[0]), PrintParts(parts[1..]);
    assert PrintParts(parts) == first + more;
    hide PrintPart, PrintParts;
    assert (first + more) + rest == first + (more + rest);
  }

  lemma PartNeutral(q: char, depth: int, p: Part, more: string)
    requires IsQuote(q) && (p.Char? ==> p.c != q && p.c != '\\')
    ensures var s := Scanner(Quoted(q), false, depth);
            Search(s, PrintPart(p) + more) == Shift(|PrintPart(p)|, Search(s, more))
  {
    hide Search;
    var s := Scanner(Quoted(q), false, depth);
    if p.Char? {
      SearchStep(s, p.c, more);
    } else {
      var tail := [p.c] + more;
      assert ['\\', p.c] + more == ['\\'] + tail;
      SearchStep(s, '\\', tail);
      SearchStep(s.(escaped := true), p.c, more);
    }
  }

  /** Inside a block, well-formed items neither close it nor change the scanner. */
  lemma {:induction false} ItemsNeutral(depth: int, items: seq<Item>, rest: string)
    requires depth >= 1 && WellFormed(items)
    ensures var s := Scanner(Code, false, depth);
            Search(s, Print(items) + rest) == Shift(|Print(items)|, Search(s, rest))
    decreases items
  {
    if |items| == 0 {
      assert Print(items) + rest == rest;
    } else {
      ItemsNeutral(depth, items[1..], rest);
      ItemNeutral(depth, items[0], Print(items[1..]) + rest);
      assert Print(items) + rest == PrintItem(items[0]) + (Print(items[1..]) + rest);
    }
  }

  lemma {:induction false} ItemNeutral(depth: int, item: Item, rest: string)
    requires depth >= 1 && WellFormedItem(item)
    ensures var s := Scanner(Code, false, depth);
            Search(s, PrintItem(item) + rest) == Shift(|PrintItem(item)|, Search(s, rest))
    decreases item
  {
    hide Search;
    var s := Scanner(Code, false, depth);
    match item {
      case Plain(c) =>
        SearchStep(s, c, rest);
      case Escaped(c) =>
        assert ['\\', c] + rest == ['\\'] + ([c] + rest);
        SearchStep(s, '\\', [c] + rest);
        SearchStep(s.(escaped := true), c, rest);
      case Literal(q, parts) =>
        LiteralNeutral(depth, q, parts, rest);
      case Block(items) =>
        var more := ['}'] + rest;
        ItemsNeutral(depth + 1, items, more);
        BlockNeutral(depth, |Print(items)|, Print(items) + more, rest);
        Bracketed('{', Print(items), '}', rest);
    }
  }

  lemma LiteralNeutral(depth: int, q: char, parts: seq<Part>, rest: string)
    requires WellFormedItem(Literal(q, parts))
    ensures var s := Scanner(Code, false, depth);
            Search(s, PrintItem(Literal(q, parts)) + rest) == Shift(|PrintItem(Literal(q, parts))|, Search(s, rest))
  {
    hide Search;
    var s, inner := Scanner(Code, false, depth), Scanner(Quoted(q), false, depth);
    Bracketed(q, PrintParts(parts), q, rest);
    var more := [q] + rest;
    var tail := PrintParts(parts) + more;
    SearchStep(s, q, tail);
    PartsNeutral(q, depth, parts, more);
    SearchStep(inner, q, rest);
  }

  lemma BlockNeutral(depth: int, size: nat, tail: string, rest: string)
    requires depth >= 1
    requires Search(Scanner(Code, false, depth + 1), tail) == Shift(size, Search(Scanner(Code, false, depth + 1), ['}'] + rest))
    ensures Search(Scanner(Code, false, depth), ['{'] + tail) == Shift(size + 2, Search(Scanner(Code, false, depth), rest))
  {
    hide Search;
    SearchStep(Scanner(Code, false, depth), '{', tail);
    SearchStep(Scanner(Code, false, depth + 1), '}', rest);
  }

  lemma Bracketed(open: char, body: string, close: char, rest: string)
    ensures ([open] + body + [close]) + rest == [open] + (body + ([close] + rest))
  {
  }

  /** The matcher finds the closing brace of any well-formed block, whatever follows it. */
  lemma FindsTheClosingBrace(items: seq<Item>, rest: string)
    requires WellFormed(items)
    ensures Search(START, PrintItem(Block(items)) + rest) == Some(|PrintItem(Block(items))| - 1)
  {
    var inner := Scanner(Code, false, 1);
    assert PrintItem(Block(items)) + rest == ['{'] + (Print(items) + (['}'] + rest));
    SearchStep(START, '{', Print(items) + (['}'] + rest));
    ItemsNeutral(1, items, ['}'] + rest);
    assert Search(inner, ['}'] + rest) == Some(0);
  }

  // ---------- The loops ----------

  /** The three quote flags of the loops as one mode. */
  ghost predicate FlagsAre(mode: Mode, inSingle: bool, inDouble: bool, inTemplate: bool) {
    && (inSingle <==> mode == Quoted('\'')) && (inDouble <==> mode == Quoted('"')) && (inTemplate <==> mode == Quoted('`'))
    && (mode.Quoted? ==> IsQuote(mode.quote))
  }

  method FindMatchingBrace(content: string, openIndex: nat) returns (r: int)
    requires openIndex <= |content|
    ensures r == var k := Search(START, content[openIndex..]); if k.Some? then openIndex + k.value else -1
  {
    var depth := 0;
    var inSingle, inDouble, inTemplate, isEscaped := false, false, false, false;
    ghost var s := START;
    var i := openIndex;
    while i < |content|
      invariant openIndex <= i <= |content|
      invariant s.escaped == isEscaped && s.depth == depth && FlagsAre(s.mode, inSingle, inDouble, inTemplate)
      invariant Search(START, content[openIndex..]) == Shift(i - openIndex, Search(s, content[i..]))
    {
      var ch := content[i];
      assert content[i..] == [ch] + content[i + 1..];
      if Closes(s, ch) {
        assert Search(s, content[i..]) == Some(0);
      } else {
        SearchStep(s, ch, content[i + 1..]);
      }
      s := Next(s, ch);
      i := i + 1;
      if isEscaped {
        isEscaped := false;
        continue;
      }
      if ch == '\\' {
        isEscaped := true;
        continue;
      }
      if !inDouble && !inTemplate && ch == '\'' {
        inSingle := !inSingle;
        continue;
      }
      if !inSingle && !inTemplate && ch == '"' {
        inDouble := !inDouble;
        continue;
      }
      if !inSingle && !inDouble && ch == '`' {
        inTemplate := !inTemplate;
        continue;
      }
      if inSingle || inDouble || inTemplate {
        continue;
      }
      if ch == '{' {
        depth := depth + 1;
      }
      if ch == '}' {
        depth := depth - 1;
        if depth == 0 {
          return i - 1;
        }
      }
    }
    return -1;
  }

  /** `text.indexOf(key, from)`, or the length of the text if there is no occurrence. */
  function IndexOf(text: string, key: string, from: nat): (i: nat)
    requires from <= |text|
    ensures from <= i <= |text|
    decreases |text| - from
  {
    if key <= text[from..] then from else if from == |text| then |text| else IndexOf(text, key, from + 1)
  }

  /** Where the tool definition's block opens, if it does. */
  function DefinitionOpens(content: string): Option<nat> {
    var start := IndexOf(content, "export const TOOL_DEFINITION", 0);
    if start == |content| then None else
    var firstBrace := IndexOf(content, "{", start);
    if firstBrace == |content| then None else Some(firstBrace)
  }

  /** The key stands at k, and nowhere before from `from` on. */
  ghost predicate FirstAt(text: string, key: string, from: nat, k: nat) {
    from <= k < |text| && key <= text[k..] && forall j :: from <= j < k ==> !(key <= text[j..])
  }

  lemma {:induction false} IndexOfExactly(text: string, key: string, from: nat, k: nat)
    requires |key| > 0 && from <= |text|
    ensures FirstAt(text, key, from, k) <==> k == IndexOf(text, key, from) < |text|
    decreases |text| - from
  {
    if !(key <= text[from..]) && from < |text| {
      IndexOfExactly(text, key, from + 1, k);
    }
  }

  /** The first brace after the first occurrence of the marker. */
  ghost predicate OpensAt(content: string, k: nat) {
    exists start: nat :: FirstAt(content, "export const TOOL_DEFINITION", 0, start) && FirstAt(content, "{", start, k)
  }

  lemma DefinitionOpensExactly(content: string, k: nat)
    ensures OpensAt(content, k) <==> DefinitionOpens(content) == Some(k)
  {
    var marker := "export const TOOL_DEFINITION";
    var first := IndexOf(content, marker, 0);
    IndexOfExactly(content, marker, 0, first);
    IndexOfExactly(content, "{", first, k);
    if start: nat :| FirstAt(content, marker, 0, start) && FirstAt(content, "{", start, k) {
      IndexOfExactly(content, marker, 0, start);
    }
  }

  /** The block cut out is the one the matcher delimits. */
  method FindToolDefinitionBlock(content: string) returns (r: Option<string>)
    ensures forall k: nat :: OpensAt(content, k) <==> DefinitionOpens(content) == Some(k)
    ensures var open := DefinitionOpens(content);
            r == if open.None? then None else
                 var k := Search(START, content[open.value..]);
                 if k.None? then None else Some(content[open.value..open.value + k.value + 1])
  {
    AllOpenings(content);
    hide OpensAt, Search;
    var start := DefinitionOpens(content);
    hide DefinitionOpens;
    r := None;
    if start.Some? {
      r := CutBlock(content, start.value);
    }
  }

  lemma AllOpenings(content: string)
    ensures forall k: nat :: OpensAt(content, k) <==> DefinitionOpens(content) == Some(k)
    ensures DefinitionOpens(content).Some? ==> DefinitionOpens(content).value < |content|
  {
    forall k: nat ensures OpensAt(content, k) <==> DefinitionOpens(content) == Some(k) {
      DefinitionOpensExactly(content, k);
    }
  }

  /** From the opening brace to the one that closes it. */
  method CutBlock(content: string, open: nat) returns (r: Option<string>)
    requires open < |content|
    ensures var k := Search(START, content[open..]);
            r == if k.None? then None else Some(content[open..open + k.value + 1])
  {
    var close := FindMatchingBrace(content, open);
    r := if close == -1 then None else Some(content[open..close + 1]);
  }

  // ---------- The matcher that does not know strings ----------

  /** Opening minus closing braces, wherever they stand. */
  function PlainDepth(text: string): int {
    if |text| == 0 then 0 else PlainDepth(text[..|text| - 1]) + Weight(text[|text| - 1])
  }

  function Weight(c: char): int {
    if c == '{' then 1 else if c == '}' then -1 else 0
  }

  /** Opening minus closing braces among those the string-aware scanner skips: in literals, or escaped. */
  function Hidden(text: string): int {
    if |text| == 0 then 0 else
    var n := |text| - 1;
    Hidden(text[..n]) + if Counts(Run(START, text[..n]), text[n]) then 0 else Weight(text[n])
  }

  lemma {:induction false} DepthsAdd(text: string)
    ensures PlainDepth(text) == Run(START, text).depth + Hidden(text)
  {
    if |text| != 0 {
      DepthsAdd(text[..|text| - 1]);
    }
  }

  /** Where the naive matcher stops. */
  ghost predicate NaiveCloses(text: string, k: nat)
    requires k < |text|
  {
    text[k] == '}' && PlainDepth(text[..k + 1]) == 0
  }

  /** The position the naive loop returns, relative to the opening brace. */
  method NaiveClose(text: string) returns (r: int)
    ensures r == -1 || (0 <= r < |text| && NaiveCloses(text, r))
    ensures forall j: nat :: j < (if r == -1 then |text| else r) ==> !NaiveCloses(text, j)
  {
    var depth := 0;
    var i := 0;
    while i < |text|
      invariant 0 <= i <= |text| && depth == PlainDepth(text[..i])
      invariant forall j: nat :: j < i ==> !NaiveCloses(text, j)
    {
      assert text[..i + 1][..i] == text[..i];
      if text[i] == '{' {
        depth := depth + 1;
      }
      if text[i] == '}' {
        depth := depth - 1;
        if depth == 0 {
          return i;
        }
      }
      i := i + 1;
    }
    return -1;
  }

  ghost predicate NaiveFinds(text: string, k: nat) {
    k < |text| && NaiveCloses(text, k) && forall j: nat :: j < k ==> !NaiveCloses(text, j)
  }

  /** At a closing brace, the braces hidden so far exactly cancel the true depth. */
  ghost predicate Cancels(text: string, j: nat)
    requires j < |text|
  {
    text[j] == '}' && Hidden(text[..j + 1]) == -Run(START, text[..j + 1]).depth
  }

  lemma NaiveClosesWhereCancelled(text: string, j: nat)
    requires j < |text|
    ensures NaiveCloses(text, j) <==> Cancels(text, j)
  {
    DepthsAdd(text[..j + 1]);
  }

  lemma DepthAtClose(text: string, j: nat)
    requires j < |text| && Counts(Run(START, text[..j]), text[j]) && text[j] == '}'
    ensures ClosesAt(START, text, j) <==> Run(START, text[..j + 1]).depth == 0
  {
    assert text[..j + 1][..j] == text[..j];
  }

  /** The naive matcher stops at the right brace k if and only if the braces inside literals balance out up to k
      and nowhere earlier cancel the true depth at a closing brace. */
  lemma NaiveAgreesExactly(text: string, k: nat)
    requires Search(START, text) == Some(k)
    ensures NaiveFinds(text, k) <==> Hidden(text[..k + 1]) == 0 && forall j: nat :: j < k ==> !Cancels(text, j)
  {
    SearchIsFirst(START, text);
    DepthAtClose(text, k);
    NaiveClosesWhereCancelled(text, k);
    forall j: nat | j < k ensures NaiveCloses(text, j) <==> Cancels(text, j) {
      NaiveClosesWhereCancelled(text, j);
    }
    assert Cancels(text, k) <==> Hidden(text[..k + 1]) == 0;
    hide NaiveCloses, Cancels, Hidden, Run;
  }

  /** The naive matcher and the string-aware one give the same result. */
  ghost predicate SameResult(text: string) {
    match Search(START, text)
    case Some(k) => NaiveFinds(text, k)
    case None => forall j: nat :: j < |text| ==> !NaiveCloses(text, j)
  }

  /** For every text the results are the same if and only if hidden braces cancel the true depth at no closing brace before
      the one the string-aware matcher finds, or at none at all where it fails, and balance out up to the one it finds. */
  lemma SameExactly(text: string)
    ensures SameResult(text) <==>
            match Search(START, text)
            case Some(k) => Hidden(text[..k + 1]) == 0 && forall j: nat :: j < k ==> !Cancels(text, j)
            case None => forall j: nat :: j < |text| ==> !Cancels(text, j)
  {
    match Search(START, text) {
      case Some(k) => NaiveAgreesExactly(text, k);
      case None =>
        forall j: nat | j < |text| ensures NaiveCloses(text, j) <==> Cancels(text, j) {
          NaiveClosesWhereCancelled(text, j);
        }
    }
  }

  /** No brace of the text stands in a literal or is escaped. */
  ghost predicate NoHiddenBraces(text: string, n: nat)
    requires n <= |text|
  {
    forall j: nat :: j < n && Weight(text[j]) != 0 ==> Counts(Run(START, text[..j]), text[j])
  }

  /** In particular they agree, in success and in failure, when no literal or escape holds a brace. */
  lemma NaiveAgreesWithoutHiddenBraces(text: string)
    requires var k := Search(START, text); NoHiddenBraces(text, if k.Some? then k.value + 1 else |text|)
    ensures SameResult(text)
  {
    SearchIsFirst(START, text);
    SameExactly(text);
    hide Search, Run, Hidden, NaiveFinds, NaiveCloses;
    match Search(START, text) {
      case Some(k) =>
        NothingHidden(text, k + 1);
        forall j: nat | j < k ensures !Cancels(text, j) {
          NoneCancels(text, k + 1, j);
        }
      case None =>
        forall j: nat | j < |text| ensures !Cancels(text, j) {
          NoneCancels(text, |text|, j);
        }
    }
  }

  lemma NoneCancels(text: string, n: nat, j: nat)
    requires j < n <= |text| && NoHiddenBraces(text, n) && !ClosesAt(START, text, j)
    ensures !Cancels(text, j)
  {
    NothingHidden(text, j + 1);
    if text[j] == '}' {
      DepthAtClose(text, j);
    }
  }

  /** A closing brace in a string makes the naive matcher stop there. */
  lemma BraceInString()
    ensures var text := "{\"}\"}"; Search(START, text) == Some(4) && NaiveFinds(text, 2)
  {
    var text, items := "{\"}\"}", [Literal('"', [Char('}')])];
    assert PrintParts([Char('}')]) == "}" by {
      assert [Char('}')][1..] == [];
    }
    assert Print(items) == "\"}\"" by {
      assert items[1..] == [];
    }
    assert PrintItem(Block(items)) == text && text + "" == text;
    assert WellFormed(items);
    FindsTheClosingBrace(items, "");
    assert text[..0] == "" && text[..1] == "{" && text[..2] == "{\"" && text[..3] == "{\"}";
    assert PlainDepth(text[..1]) == 1 by {
      assert text[..1][..0] == "";
    }
    assert PlainDepth(text[..2]) == 1 by {
      assert text[..2][..1] == text[..1];
    }
    assert PlainDepth(text[..3]) == 0 by {
      assert text[..3][..2] == text[..2];
    }
  }

  lemma {:induction false} NothingHidden(text: string, n: nat)
    requires n <= |text| && NoHiddenBraces(text, n)
    ensures Hidden(text[..n]) == 0
  {
    if n > 0 {
      NothingHidden(text, n - 1);
      assert text[..n][..n - 1] == text[..n - 1];
    }
  }
}
