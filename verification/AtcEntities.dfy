/** Escaping and decoding XML text (src/lib/adt/atc.ts, `xmlEscape` and `decodeEntities`; the breakpoint
    module has the same escaper). Both are chains of global replacements, one per predefined entity. */
module AtcEntities {
  import opened Text

  predicate IsDigit(c: char) {
    '0' <= c <= '9'
  }

  function DigitsAt(s: string): nat {
    if |s| == 0 || !IsDigit(s[0]) then 0 else 1 + DigitsAt(s[1..])
  }

  lemma DigitsAtBound(s: string)
    ensures DigitsAt(s) <= |s|
  {
  }

  /** How many characters /&#(\d+);/ matches at the start of s; 0 if it does not match. */
  function NumericAt(s: string): (n: nat)
    ensures n <= |s|
  {
    DigitsAtBound(if "&#" <= s then s[2..] else "");
    if "&#" <= s && DigitsAt(s[2..]) > 0 && 2 + DigitsAt(s[2..]) < |s| && s[2 + DigitsAt(s[2..])] == ';'
    then 3 + DigitsAt(s[2..]) else 0
  }

  /** `s.replace(/&#(\d+);/g, (_, code) => fromCode(code))`. */
  function ReplaceNumeric(s: string, fromCode: string -> char): string {
    if |s| == 0 then ""
    else if NumericAt(s) > 0 then [fromCode(s[2..NumericAt(s) - 1])] + ReplaceNumeric(s[NumericAt(s)..], fromCode)
    else [s[0]] + ReplaceNumeric(s[1..], fromCode)
  }

  function XmlEscape(value: string): string {
    var a := ReplaceAll(value, "&", "&amp;");
    var b := ReplaceAll(a, "<", "&lt;");
    var c := ReplaceAll(b, ">", "&gt;");
    ReplaceAll(c, "\"", "&quot;")
  }

  /** The ampersand comes last. */
  function DecodeEntities(value: string, fromCode: string -> char): string {
    var a := ReplaceAll(value, "&lt;", "<");
    var b := ReplaceAll(a, "&gt;", ">");
    var c := ReplaceAll(b, "&quot;", "\"");
    var d := ReplaceAll(c, "&apos;", "'");
    var e := ReplaceNumeric(d, fromCode);
    ReplaceAll(e, "&amp;", "&")
  }

  // ---------- Character by character ----------

  /** The text with the characters of `coded` written as entities. */
  function Spell(s: string, coded: set<char>): string {
    if |s| == 0 then "" else SpellChar(s[0], coded) + Spell(s[1..], coded)
  }

  function SpellChar(c: char, coded: set<char>): string {
    if c in coded then Entity(c) else [c]
  }

  function Entity(c: char): string {
    if c == '&' then "&amp;" else if c == '<' then "&lt;" else if c == '>' then "&gt;" else if c == '"' then "&quot;" else [c]
  }

  const SPECIALS: set<char> := {'&', '<', '>', '"'}

  /** pat cannot match at the start of w, whatever follows w. */
  predicate Clash(w: string, pat: string) {
    !(pat <= w) && !(w <= pat)
  }

  /** pat cannot match anywhere inside w, whatever follows w. */
  predicate Immune(w: string, pat: string) {
    |w| == 0 || (Clash(w, pat) && Immune(w[1..], pat))
  }

  lemma ClashStays(w: string, rest: string, pat: string)
    requires Clash(w, pat)
    ensures !(pat <= w + rest)
  {
    if |pat| <= |w| {
      assert (w + rest)[..|pat|] == w[..|pat|];
    } else if |pat| <= |w + rest| {
      assert (w + rest)[..|pat|][..|w|] == w;
    }
  }

  lemma {:induction false} ImmuneStays(w: string, rest: string, pat: string, rep: string)
    requires |pat| > 0 && Immune(w, pat)
    ensures ReplaceAll(w + rest, pat, rep) == w + ReplaceAll(rest, pat, rep)
  {
    if |w| == 0 {
      assert w + rest == rest;
    } else {
      ClashStays(w, rest, pat);
      assert w + rest == [w[0]] + (w[1..] + rest);
      StepPast(w[0], w[1..] + rest, pat, rep);
      ImmuneStays(w[1..], rest, pat, rep);
      hide ReplaceAll;
      assert w + ReplaceAll(rest, pat, rep) == [w[0]] + (w[1..] + ReplaceAll(rest, pat, rep));
    }
  }

  /** A single character that does not start the pattern is immune to it. */
  lemma CharImmune(c: char, pat: string)
    requires |pat| > 0 && pat[0] != c
    ensures Immune([c], pat)
  {
    assert [c][1..] == "";
  }

  lemma EntityImmune(c: char, d: char)
    requires c in SPECIALS && d in SPECIALS && c != d
    ensures Immune(Entity(c), Entity(d))
    ensures d != '&' ==> Immune(Entity(c), [d])
  {
    var w := Entity(c);
    assert forall k :: 0 < k < |w| ==> w[k] != '&' && w[k] != '<' && w[k] != '>' && w[k] != '"';
    assert w[1] != Entity(d)[1];
    TailImmune(w, Entity(d), |w|);
    TailImmune(w, [d], |w|);
  }

  /** Only the head of a text whose other characters cannot start the pattern needs a look. */
  lemma {:induction false} TailImmune(w: string, pat: string, n: nat)
    requires |pat| > 0 && n == |w|
    requires forall k :: 0 < k < |w| ==> w[k] != pat[0]
    ensures |w| == 0 || Clash(w, pat) ==> Immune(w, pat)
    decreases n
  {
    if n > 0 {
      TailImmune(w[1..], pat, n - 1);
      if n > 1 {
        assert w[1..][0] == w[1];
      }
    }
  }

  /** One escaping pass: safe as long as no entity written so far contains the character, so `&` must go first. */
  lemma {:induction false} EscapePass(s: string, coded: set<char>, c: char)
    requires c in SPECIALS && coded <= SPECIALS && c !in coded && (c == '&' ==> coded == {})
    ensures ReplaceAll(Spell(s, coded), [c], Entity(c)) == Spell(s, coded + {c})
  {
    if |s| != 0 {
      var x, rest := s[0], Spell(s[1..], coded);
      EscapePass(s[1..], coded, c);
      if x == c {
        MatchReplaced(rest, [c], Entity(c));
      } else {
        if x in coded {
          EntityImmune(x, c);
        } else {
          CharImmune(x, [c]);
        }
        ImmuneStays(SpellChar(x, coded), rest, [c], Entity(c));
      }
    }
  }

  /** One decoding pass: safe as long as every `&` still stands for an entity, so `&` must go last. */
  lemma {:induction false} DecodePass(s: string, coded: set<char>, c: char)
    requires c in coded && coded <= SPECIALS && '&' in coded && (c == '&' ==> coded == {'&'})
    ensures ReplaceAll(Spell(s, coded), Entity(c), [c]) == Spell(s, coded - {c})
  {
    if |s| != 0 {
      var x, rest := s[0], Spell(s[1..], coded);
      DecodePass(s[1..], coded, c);
      if x == c {
        MatchReplaced(rest, Entity(c), [c]);
      } else {
        if x in coded {
          EntityImmune(x, c);
        } else {
          CharImmune(x, Entity(c));
        }
        ImmuneStays(SpellChar(x, coded), rest, Entity(c), [c]);
      }
    }
  }

  /** The passes for references the escaper never writes change nothing. */
  lemma {:induction false} IdleApostrophes(s: string)
    ensures ReplaceAll(Spell(s, {'&'}), "&apos;", "'") == Spell(s, {'&'})
  {
    if |s| != 0 {
      IdleApostrophes(s[1..]);
      NoApostrophe(s[0]);
      hide ReplaceAll, Immune;
      ImmuneStays(SpellChar(s[0], {'&'}), Spell(s[1..], {'&'}), "&apos;", "'");
    }
  }

  lemma NoApostrophe(x: char)
    ensures Immune(SpellChar(x, {'&'}), "&apos;")
  {
    if x == '&' {
      assert "&amp;"[2] != "&apos;"[2];
      TailImmune("&amp;", "&apos;", 5);
    } else {
      CharImmune(x, "&apos;");
    }
  }

  lemma {:induction false} IdleNumeric(s: string, fromCode: string -> char)
    ensures ReplaceNumeric(Spell(s, {'&'}), fromCode) == Spell(s, {'&'})
  {
    if |s| != 0 {
      var rest := Spell(s[1..], {'&'});
      IdleNumeric(s[1..], fromCode);
      hide ReplaceNumeric;
      NumericStays(SpellChar(s[0], {'&'}), rest, fromCode);
    }
  }

  /** Text in which no numeric reference can begin passes through. */
  lemma {:induction false} NumericStays(w: string, rest: string, fromCode: string -> char)
    requires forall k :: 0 < k < |w| ==> w[k] != '&'
    requires |w| > 0 && w[0] == '&' ==> |w| > 1 && w[1] != '#'
    ensures ReplaceNumeric(w + rest, fromCode) == w + ReplaceNumeric(rest, fromCode)
  {
    if |w| == 0 {
      assert w + rest == rest;
    } else {
      var tail := w[1..] + rest;
      assert w[0] == '&' ==> |tail| > 0 && tail[0] == w[1];
      NumericSkips(w[0], tail, fromCode);
      NumericStays(w[1..], rest, fromCode);
      hide ReplaceNumeric, NumericAt;
      Regroup(w, rest);
      Regroup(w, ReplaceNumeric(rest, fromCode));
    }
  }

  lemma Regroup<T>(w: seq<T>, rest: seq<T>)
    requires |w| > 0
    ensures [w[0]] + (w[1..] + rest) == w + rest
  {
  }

  lemma NumericSkips(c: char, rest: string, fromCode: string -> char)
    requires c == '&' ==> |rest| > 0 && rest[0] != '#'
    ensures ReplaceNumeric([c] + rest, fromCode) == [c] + ReplaceNumeric(rest, fromCode)
  {
    var s := [c] + rest;
    assert s[1..] == rest && (|rest| > 0 ==> s[1] == rest[0]);
    assert NumericAt(s) == 0;
  }

  lemma {:induction false} SpellNothing(s: string)
    ensures Spell(s, {}) == s
  {
    if |s| != 0 {
      SpellNothing(s[1..]);
    }
  }

  // ---------- The laws ----------

  /** The four passes together write each special character as its entity. */
  lemma EscapeSpells(s: string)
    ensures XmlEscape(s) == Spell(s, SPECIALS)
  {
    SpellNothing(s);
    EscapePass(s, {}, '&');
    assert {} + {'&'} == {'&'};
    EscapePass(s, {'&'}, '<');
    assert {'&'} + {'<'} == {'&', '<'};
    EscapePass(s, {'&', '<'}, '>');
    assert {'&', '<'} + {'>'} == {'&', '<', '>'};
    EscapePass(s, {'&', '<', '>'}, '"');
    assert {'&', '<', '>'} + {'"'} == SPECIALS;
  }

  /** The four characters as they are written. */
  lemma EscapedCharacters()
    ensures XmlEscape("&") == "&amp;" && XmlEscape("<") == "&lt;" && XmlEscape(">") == "&gt;" && XmlEscape("\"") == "&quot;"
  {
    EscapedCharacter('&');
    EscapedCharacter('<');
    EscapedCharacter('>');
    EscapedCharacter('"');
  }

  lemma EscapedCharacter(c: char)
    requires c in SPECIALS
    ensures XmlEscape([c]) == Entity(c)
  {
    EscapeSpells([c]);
    assert [c][1..] == "" && Spell("", SPECIALS) == "";
  }

  /** Decoding undoes escaping, for every text and whatever numeric references stand for. */
  lemma DecodeEscape(s: string, fromCode: string -> char)
    ensures DecodeEntities(XmlEscape(s), fromCode) == s
  {
    EscapeSpells(s);
    DecodePass(s, SPECIALS, '<');
    assert SPECIALS - {'<'} == {'&', '>', '"'};
    DecodePass(s, {'&', '>', '"'}, '>');
    assert {'&', '>', '"'} - {'>'} == {'&', '"'};
    DecodePass(s, {'&', '"'}, '"');
    assert {'&', '"'} - {'"'} == {'&'};
    IdleApostrophes(s);
    IdleNumeric(s, fromCode);
    DecodePass(s, {'&'}, '&');
    assert {'&'} - {'&'} == {};
    SpellNothing(s);
  }

  /** The escaped text can stand inside a double-quoted attribute: it holds none of the delimiters,
      and every ampersand in it begins one of the four entities. */
  lemma {:induction false} EscapedIsSafe(s: string, k: nat)
    requires k < |Spell(s, SPECIALS)|
    ensures var t := Spell(s, SPECIALS);
            && t[k] != '<' && t[k] != '>' && t[k] != '"'
            && (t[k] == '&' ==> exists c :: c in SPECIALS && Entity(c) <= t[k..])
  {
    var t := Spell(s, SPECIALS);
    var head := SpellChar(s[0], SPECIALS);
    if k < |head| {
      if k == 0 && s[0] in SPECIALS {
        assert t[0..] == t;
        assert Entity(s[0]) <= t[k..];
      }
    } else {
      EscapedIsSafe(s[1..], k - |head|);
      assert t[k..] == Spell(s[1..], SPECIALS)[k - |head|..];
    }
  }

  lemma {:induction false} DigitsThenSemicolon(digits: string, rest: string)
    requires forall c :: c in digits ==> IsDigit(c)
    ensures DigitsAt(digits + ";" + rest) == |digits|
  {
    if |digits| != 0 {
      assert digits[0] in digits && forall c :: c in digits[1..] ==> c in digits;
      DigitsThenSemicolon(digits[1..], rest);
      assert (digits + ";" + rest)[1..] == digits[1..] + ";" + rest;
    }
  }

  /** The text begins with a decimal character reference of that length. */
  ghost predicate BeginsReference(s: string, n: nat) {
    exists digits, rest ::
      |digits| > 0 && (forall c :: c in digits ==> '0' <= c <= '9') && s == "&#" + digits + ";" + rest && n == |digits| + 3
  }

  lemma {:induction false} DigitsAtAre(s: string)
    ensures DigitsAt(s) <= |s| && forall c :: c in s[..DigitsAt(s)] ==> '0' <= c <= '9'
  {
    if |s| > 0 && IsDigit(s[0]) {
      DigitsAtAre(s[1..]);
      assert s[..DigitsAt(s)] == [s[0]] + s[1..][..DigitsAt(s[1..])];
    }
  }

  lemma NumericExactly(s: string, n: nat)
    requires n > 0
    ensures NumericAt(s) == n <==> BeginsReference(s, n)
  {
    if digits, rest :| |digits| > 0 && (forall c :: c in digits ==> '0' <= c <= '9') && s == "&#" + digits + ";" + rest && n == |digits| + 3 {
      DigitsThenSemicolon(digits, rest);
      assert s[2..] == digits + ";" + rest && s[2 + |digits|] == (digits + ";" + rest)[|digits|];
    }
    if NumericAt(s) == n {
      var k := DigitsAt(s[2..]);
      DigitsAtAre(s[2..]);
      assert s == "&#" + s[2..][..k] + ";" + s[k + 3..];
      assert BeginsReference(s, k + 3);
    }
  }

  /** A decimal character reference is replaced by the character it names. */
  lemma NumericReplaced(digits: string, rest: string, fromCode: string -> char)
    requires |digits| > 0 && forall c :: c in digits ==> '0' <= c <= '9'
    ensures ReplaceNumeric("&#" + digits + ";" + rest, fromCode) == [fromCode(digits)] + ReplaceNumeric(rest, fromCode)
  {
    var s, n := "&#" + digits + ";" + rest, |digits|;
    DigitsThenSemicolon(digits, rest);
    assert s[2..] == digits + ";" + rest;
    assert s[2 + n] == (digits + ";" + rest)[n] == ';';
    assert NumericAt(s) == 3 + n;
    assert s[2..n + 2] == digits && s[n + 3..] == rest;
  }
}
