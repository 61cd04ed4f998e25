/** The object filter (src/lib/search-source/packageEnumerator.ts, `globToRegExp`): a wildcard pattern compiled to the
    text of a regular expression, and what that text means when it is read back. */
module Glob {
  import opened Sequences

  // ---------- What a wildcard pattern means ----------

  /** Line feed, carriage return, and the separators of lines and paragraphs. */
  const LINE_TERMINATORS: set<char> := {'\U{000a}', '\U{000d}', '\U{2028}', '\U{2029}'}

  ghost predicate NoLineTerminator(s: string) {
    forall i :: 0 <= i < |s| ==> s[i] !in LINE_TERMINATORS
  }

  /** The piece of a name that one character of the pattern stands for; `fold` sends two characters to the same one when they
      differ in case only. */
  ghost predicate StandsFor(fold: char -> char, c: char, piece: string) {
    if c == '*' then NoLineTerminator(piece)
    else if c == '?' then |piece| == 1 && piece[0] !in LINE_TERMINATORS
    else |piece| == 1 && fold(c) == fold(piece[0])
  }

  /** `pieces` cuts a name into one piece per character of the pattern. */
  ghost predicate Spells(fold: char -> char, glob: string, pieces: seq<string>) {
    |pieces| == |glob| && forall i :: 0 <= i < |glob| ==> StandsFor(fold, glob[i], pieces[i])
  }

  ghost predicate Fits(fold: char -> char, glob: string, name: string) {
    exists pieces :: Spells(fold, glob, pieces) && Flatten(pieces) == name
  }

  /** The usual reading, in which `*` is any text and `?` any character. */
  ghost predicate Wild(fold: char -> char, glob: string, pieces: seq<string>) {
    |pieces| == |glob|
    && forall i :: 0 <= i < |glob| ==>
         glob[i] == '*' || (|pieces[i]| == 1 && (glob[i] == '?' || fold(glob[i]) == fold(pieces[i][0])))
  }

  // ---------- The emitted text ----------

  /** The characters the compiler puts a backslash before. */
  predicate Escaped(c: char) {
    c in "\\.+^$()|[]{}"
  }

  function Compiled(glob: string): string {
    if |glob| == 0 then ""
    else CompiledChar(glob[0]) + Compiled(glob[1..])
  }

  function CompiledChar(c: char): string {
    if c == '*' then ".*" else if c == '?' then "." else if Escaped(c) then ['\\', c] else [c]
  }

  lemma CompiledStep(glob: string, i: nat, pattern: string)
    requires i < |glob|
    ensures pattern + Compiled(glob[i..]) == (pattern + CompiledChar(glob[i])) + Compiled(glob[i + 1..])
  {
    hide Escaped, CompiledChar;
    assert glob[i..][1..] == glob[i + 1..];
  }

  method GlobToPattern(glob: string) returns (text: string)
    ensures text == "^" + Compiled(glob) + "$"
  {
    var pattern := "";
    for i := 0 to |glob|
      invariant pattern + Compiled(glob[i..]) == Compiled(glob)
    {
      CompiledStep(glob, i, pattern);
      hide Compiled;
      var ch := glob[i];
      if ch == '*' {
        pattern := pattern + ".*";
      } else if ch == '?' {
        pattern := pattern + ".";
      } else {
        pattern := pattern + if Escaped(ch) then ['\\', ch] else [ch];
      }
    }
    text := "^" + pattern + "$";
  }

  // ---------- Regular expressions ----------

  /** The part of ECMAScript's regular expressions that occurs here: single characters and the dot, each plain or starred. */
  datatype Atom = Dot | Literal(c: char)
  datatype Term = One(atom: Atom) | Star(atom: Atom)

  /** ECMAScript's SyntaxCharacter. */
  predicate Syntax(c: char) {
    c in "^$\\.*+?()[]{}|"
  }

  /** Reading the text of an expression between its anchors; None where the text uses anything else. */
  function ReadTerms(text: string): Option<seq<Term>>
    decreases |text|, 0
  {
    if |text| == 0 then None
    else if text == "$" then Some([])
    else if text[0] == '\\' then
      if |text| >= 2 && Syntax(text[1]) then ReadQuantifier(Literal(text[1]), text[2..]) else None
    else if text[0] == '.' then ReadQuantifier(Dot, text[1..])
    else if Syntax(text[0]) then None
    else ReadQuantifier(Literal(text[0]), text[1..])
  }

  function ReadQuantifier(atom: Atom, text: string): Option<seq<Term>>
    decreases |text|, 1
  {
    var starred := |text| > 0 && text[0] == '*';
    var rest := ReadTerms(if starred then text[1..] else text);
    if rest.None? then None else Some([if starred then Star(atom) else One(atom)] + rest.value)
  }

  function ReadExpression(text: string): Option<seq<Term>> {
    if |text| > 0 && text[0] == '^' then ReadTerms(text[1..]) else None
  }

  /** ECMAScript's LineTerminator. */
  predicate LineTerminator(c: char) {
    c == '\n' || c == '\r' || c == '\U{2028}' || c == '\U{2029}'
  }

  predicate AtomMatches(fold: char -> char, atom: Atom, c: char) {
    match atom
    case Dot => !LineTerminator(c)
    case Literal(d) => fold(d) == fold(c)
  }

  /** Matching a whole name, by trying each way to go on. */
  predicate Matches(fold: char -> char, terms: seq<Term>, name: string)
    decreases |terms|, |name|
  {
    if |terms| == 0 then name == "" else
    match terms[0]
    case One(a) => name != "" && AtomMatches(fold, a, name[0]) && Matches(fold, terms[1..], name[1..])
    case Star(a) =>
      Matches(fold, terms[1..], name) || (name != "" && AtomMatches(fold, a, name[0]) && Matches(fold, terms, name[1..]))
  }

  /** `new RegExp(text, 'i').test(name)`, when the text can be read. */
  predicate Test(fold: char -> char, text: string, name: string) {
    var terms := ReadExpression(text);
    terms.Some? && Matches(fold, terms.value, name)
  }

  // ---------- Compiling preserves meaning ----------

  function TermOf(c: char): Term {
    if c == '*' then Star(Dot) else if c == '?' then One(Dot) else One(Literal(c))
  }

  lemma CompiledStart(glob: string)
    ensures Compiled(glob) + "$" != "" && (Compiled(glob) + "$")[0] != '*'
  {
  }

  /** The emitted text reads back as one term per character of the pattern. */
  lemma {:induction false} TermsOfCompiled(glob: string)
    ensures ReadTerms(Compiled(glob) + "$") == Some(Map(TermOf, glob))
  {
    if |glob| > 0 {
      var c, rest := glob[0], Compiled(glob[1..]) + "$";
      TermsOfCompiled(glob[1..]);
      CompiledStart(glob[1..]);
      var text := Compiled(glob) + "$";
      assert text == CompiledChar(c) + rest;
      if c == '*' {
        assert text[1..][1..] == rest;
      } else if c != '?' && Escaped(c) {
        assert text[2..] == rest;
      } else {
        assert text[1..] == rest;
      }
    }
  }

  lemma ReadBack(glob: string)
    ensures ReadExpression("^" + Compiled(glob) + "$") == Some(Map(TermOf, glob))
  {
    TermsOfCompiled(glob);
    assert ("^" + Compiled(glob) + "$")[1..] == Compiled(glob) + "$";
  }

  lemma {:induction false} SpelledMatches(fold: char -> char, glob: string, pieces: seq<string>)
    requires Spells(fold, glob, pieces)
    ensures Matches(fold, Map(TermOf, glob), Flatten(pieces))
    decreases |glob|, |Flatten(pieces)|
  {
    if |glob| > 0 {
      var terms, name, piece, rest := Map(TermOf, glob), Flatten(pieces), pieces[0], pieces[1..];
      assert StandsFor(fold, glob[0], piece);
      assert terms[1..] == Map(TermOf, glob[1..]);
      if glob[0] == '*' && |piece| > 0 {
        var shorter := [piece[1..]] + rest;
        assert name == piece + Flatten(rest) && Flatten(shorter) == piece[1..] + Flatten(rest) by {
          assert shorter[1..] == rest;
        }
        assert name[1..] == Flatten(shorter);
        SpelledMatches(fold, glob, shorter);
      } else {
        SpelledMatches(fold, glob[1..], rest);
        assert name == piece + Flatten(rest);
        assert name[|piece|..] == Flatten(rest);
      }
    }
  }

  /** A successful match shows which piece each character of the pattern took. */
  lemma {:induction false} MatchedPieces(fold: char -> char, glob: string, name: string) returns (pieces: seq<string>)
    requires Matches(fold, Map(TermOf, glob), name)
    ensures Spells(fold, glob, pieces) && Flatten(pieces) == name
    decreases |glob|, |name|
  {
    if |glob| == 0 {
      return [];
    }
    var terms := Map(TermOf, glob);
    assert terms[1..] == Map(TermOf, glob[1..]);
    if glob[0] != '*' {
      var rest := MatchedPieces(fold, glob[1..], name[1..]);
      pieces := [[name[0]]] + rest;
      assert pieces[1..] == rest;
    } else if Matches(fold, terms[1..], name) {
      var rest := MatchedPieces(fold, glob[1..], name);
      pieces := [""] + rest;
      assert pieces[1..] == rest;
    } else {
      var shorter := MatchedPieces(fold, glob, name[1..]);
      assert StandsFor(fold, '*', shorter[0]);
      pieces := [[name[0]] + shorter[0]] + shorter[1..];
      assert pieces[1..] == shorter[1..];
      assert Flatten(pieces) == [name[0]] + (shorter[0] + Flatten(shorter[1..]));
    }
  }

  /** For every pattern and every name, the compiled expression accepts the name if and only if the name can be cut into
      one piece per character of the pattern, no wildcard taking a line terminator. */
  lemma CompilePreservesMeaning(fold: char -> char, glob: string, name: string)
    ensures Test(fold, "^" + Compiled(glob) + "$", name) <==> Fits(fold, glob, name)
  {
    ReadBack(glob);
    if Matches(fold, Map(TermOf, glob), name) {
      var pieces := MatchedPieces(fold, glob, name);
    }
    if pieces :| Spells(fold, glob, pieces) && Flatten(pieces) == name {
      SpelledMatches(fold, glob, pieces);
    }
  }

  /** On a name without line terminators that is the usual reading of wildcards. */
  lemma OnOneLine(fold: char -> char, glob: string, name: string)
    requires NoLineTerminator(name)
    ensures Fits(fold, glob, name) <==> exists pieces :: Wild(fold, glob, pieces) && Flatten(pieces) == name
  {
    if pieces :| Spells(fold, glob, pieces) && Flatten(pieces) == name {
      forall i | 0 <= i < |glob|
        ensures glob[i] == '*' || (|pieces[i]| == 1 && (glob[i] == '?' || fold(glob[i]) == fold(pieces[i][0])))
      {
        assert StandsFor(fold, glob[i], pieces[i]);
      }
      assert Wild(fold, glob, pieces);
    }
    if pieces :| Wild(fold, glob, pieces) && Flatten(pieces) == name {
      forall i | 0 <= i < |glob| ensures StandsFor(fold, glob[i], pieces[i]) {
        PieceOf(pieces, i);
      }
      assert Spells(fold, glob, pieces);
    }
  }

  lemma {:induction false} PieceOf(pieces: seq<string>, i: nat)
    requires i < |pieces| && NoLineTerminator(Flatten(pieces))
    ensures NoLineTerminator(pieces[i])
  {
    var all, tail := Flatten(pieces), Flatten(pieces[1..]);
    assert all == pieces[0] + tail;
    assert forall k :: 0 <= k < |pieces[0]| ==> pieces[0][k] == all[k];
    assert forall k :: 0 <= k < |tail| ==> tail[k] == all[|pieces[0]| + k];
    if i > 0 {
      PieceOf(pieces[1..], i - 1);
    }
  }
}
