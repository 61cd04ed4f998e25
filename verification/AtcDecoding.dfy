/** What the chain of decoding passes does to any text (src/lib/adt/atc.ts, `decodeEntities`), measured against one pass
    that replaces each reference of the text, once, by what it stands for. */
module AtcDecoding {
  import opened Text
  import opened AtcEntities

  // ---------- One pass ----------

  /** The entity of the first k passes that stands at the start of s: its length, and its character. */
  function NamedAt(s: string, k: nat): (n: nat)
    ensures n <= |s|
  {
    if k > 0 && "&lt;" <= s then 4
    else if k > 1 && "&gt;" <= s then 4
    else if k > 2 && "&quot;" <= s then 6
    else if k > 3 && "&apos;" <= s then 6
    else 0
  }

  function NamedChar(s: string): char {
    if "&lt;" <= s then '<' else if "&gt;" <= s then '>' else if "&quot;" <= s then '"' else '\''
  }

  function DigitsOf(s: string): string
    requires NumericAt(s) > 0
  {
    s[2..NumericAt(s) - 1]
  }

  /** Reading from left to right, every reference is replaced by its character, and what it yields is not read again. */
  function DecodeOnce(s: string, fromCode: string -> char): string {
    if |s| == 0 then ""
    else if NamedAt(s, 4) > 0 then [NamedChar(s)] + DecodeOnce(s[NamedAt(s, 4)..], fromCode)
    else if NumericAt(s) > 0 then [fromCode(DigitsOf(s))] + DecodeOnce(s[NumericAt(s)..], fromCode)
    else if "&amp;" <= s then "&" + DecodeOnce(s[5..], fromCode)
    else [s[0]] + DecodeOnce(s[1..], fromCode)
  }

  /** The named references, and what each stands for. */
  lemma OnceNamed(rest: string, fromCode: string -> char)
    ensures DecodeOnce("&lt;" + rest, fromCode) == "<" + DecodeOnce(rest, fromCode)
    ensures DecodeOnce("&gt;" + rest, fromCode) == ">" + DecodeOnce(rest, fromCode)
    ensures DecodeOnce("&quot;" + rest, fromCode) == "\"" + DecodeOnce(rest, fromCode)
    ensures DecodeOnce("&apos;" + rest, fromCode) == "'" + DecodeOnce(rest, fromCode)
    ensures DecodeOnce("&amp;" + rest, fromCode) == "&" + DecodeOnce(rest, fromCode)
  {
    hide DecodeOnce;
    OnceLess(rest, fromCode);
    OnceGreater(rest, fromCode);
    OnceQuote(rest, fromCode);
    OnceApostrophe(rest, fromCode);
    OnceAmpersand(rest, fromCode);
  }

  lemma OnceLess(rest: string, fromCode: string -> char)
    ensures DecodeOnce("&lt;" + rest, fromCode) == "<" + DecodeOnce(rest, fromCode)
  {
    var s := "&lt;" + rest;
    assert "&lt;" <= s && s[4..] == rest;
    assert s[1] == 'l';
  }

  lemma OnceGreater(rest: string, fromCode: string -> char)
    ensures DecodeOnce("&gt;" + rest, fromCode) == ">" + DecodeOnce(rest, fromCode)
  {
    var s := "&gt;" + rest;
    assert "&gt;" <= s && s[4..] == rest;
    assert s[1] == 'g';
  }

  lemma OnceQuote(rest: string, fromCode: string -> char)
    ensures DecodeOnce("&quot;" + rest, fromCode) == "\"" + DecodeOnce(rest, fromCode)
  {
    var s := "&quot;" + rest;
    assert "&quot;" <= s && s[6..] == rest;
    assert s[1] == 'q';
  }

  lemma OnceApostrophe(rest: string, fromCode: string -> char)
    ensures DecodeOnce("&apos;" + rest, fromCode) == "'" + DecodeOnce(rest, fromCode)
  {
    var s := "&apos;" + rest;
    assert "&apos;" <= s && s[6..] == rest;
    assert s[1] == 'a' && s[2] == 'p';
  }

  lemma OnceAmpersand(rest: string, fromCode: string -> char)
    ensures DecodeOnce("&amp;" + rest, fromCode) == "&" + DecodeOnce(rest, fromCode)
  {
    var s := "&amp;" + rest;
    assert "&amp;" <= s && s[5..] == rest;
    assert s[1] == 'a' && s[2] == 'm' && NamedAt(s, 4) == 0 && NumericAt(s) == 0;
  }

  // ---------- The first four passes ----------

  function Entity4(k: nat): string {
    if k == 0 then "&lt;" else if k == 1 then "&gt;" else if k == 2 then "&quot;" else "&apos;"
  }

  function Char4(k: nat): char {
    if k == 0 then '<' else if k == 1 then '>' else if k == 2 then '"' else '\''
  }

  /** The text after the first k passes. */
  function Passes(s: string, k: nat): string
    decreases k
  {
    if k == 0 then s else ReplaceAll(Passes(s, k - 1), Entity4(k - 1), [Char4(k - 1)])
  }

  /** The text with the entities of the first k passes replaced at once. */
  function Named(s: string, k: nat): string {
    if |s| == 0 then ""
    else if NamedAt(s, k) > 0 then [NamedChar(s)] + Named(s[NamedAt(s, k)..], k)
    else [s[0]] + Named(s[1..], k)
  }

  predicate Markup(c: char) {
    c == '&' || c == '<' || c == '>' || c == '"' || c == '\''
  }

  /** Text without markup characters is in the decoded text exactly where it is in the original. */
  lemma {:induction false} NamedPrefix(w: string, s: string, k: nat)
    requires forall c :: c in w ==> !Markup(c)
    ensures w <= Named(s, k) <==> w <= s
    ensures w <= s ==> Named(s, k) == w + Named(s[|w|..], k)
  {
    if |w| == 0 {
      assert s[0..] == s && w + Named(s, k) == Named(s, k);
    } else if |s| > 0 {
      assert w[0] in w && forall c :: c in w[1..] ==> c in w;
      assert s == [s[0]] + s[1..];
      if NamedAt(s, k) > 0 {
        assert s[0] == '&' && Named(s, k)[0] == NamedChar(s);
      } else {
        NamedPrefix(w[1..], s[1..], k);
        NamedStep(w, s, k);
      }
    }
  }

  lemma NamedStep(w: string, s: string, k: nat)
    requires |w| > 0 && |s| > 0 && NamedAt(s, k) == 0
    requires w[1..] <= Named(s[1..], k) <==> w[1..] <= s[1..]
    requires w[1..] <= s[1..] ==> Named(s[1..], k) == w[1..] + Named(s[1..][|w| - 1..], k)
    ensures w <= Named(s, k) <==> w <= s
    ensures w <= s ==> Named(s, k) == w + Named(s[|w|..], k)
  {
    var t := s[1..];
    assert s == [s[0]] + t && Named(s, k) == [s[0]] + Named(t, k);
    HeadTail(w, s[0], Named(t, k));
    HeadTail(w, s[0], t);
    hide Named, NamedAt;
    if w <= s {
      SliceTwice(s, |w| - 1);
      Regroup(w, Named(s[|w|..], k));
    }
  }

  lemma HeadTail<T>(w: seq<T>, c: T, t: seq<T>)
    requires |w| > 0
    ensures w <= [c] + t <==> w[0] == c && w[1..] <= t
  {
    if |w| <= 1 + |t| {
      assert ([c] + t)[..|w|] == [c] + t[..|w| - 1];
      assert w == [w[0]] + w[1..];
      if w == [c] + t[..|w| - 1] {
        assert w[1..] == t[..|w| - 1];
      }
    }
  }

  /** An ampersand and text without markup characters, where no entity of the first k passes starts. */
  lemma NamedFrom(w: string, s: string, k: nat)
    requires |w| > 0 && w[0] == '&' && forall c :: c in w[1..] ==> !Markup(c)
    requires |s| > 0 && NamedAt(s, k) == 0
    ensures w <= Named(s, k) <==> w <= s
    ensures w <= s ==> Named(s, k) == w + Named(s[|w|..], k)
  {
    NamedPrefix(w[1..], s[1..], k);
    NamedStep(w, s, k);
  }

  lemma SliceTwice<T>(s: seq<T>, n: nat)
    requires n < |s|
    ensures s[1..][n..] == s[n + 1..]
  {
  }

  lemma EntityFacts(k: nat)
    requires k < 4
    ensures |Entity4(k)| > 0 && Entity4(k)[0] == '&' && forall c :: c in Entity4(k)[1..] ==> !Markup(c)
  {
  }

  /** One more pass replaces one more entity: none of the earlier passes has made or broken one. */
  lemma {:induction false} OnePass(s: string, k: nat)
    requires k < 4
    ensures ReplaceAll(Named(s, k), Entity4(k), [Char4(k)]) == Named(s, k + 1)
  {
    EntityFacts(k);
    if |s| > 0 {
      var e := Entity4(k);
      if NamedAt(s, k) > 0 {
        var rest := s[NamedAt(s, k)..];
        OnePass(rest, k);
        NamedFirst(s, k);
        StepPast(NamedChar(s), Named(rest, k), e, [Char4(k)]);
      } else if e <= s {
        OnePass(s[|e|..], k);
        NamedFrom(e, s, k);
        MatchReplaced(Named(s[|e|..], k), e, [Char4(k)]);
      } else {
        OnePass(s[1..], k);
        NoEntityHere(s, k);
        StepPast(s[0], Named(s[1..], k), e, [Char4(k)]);
      }
    }
  }

  lemma NamedFirst(s: string, k: nat)
    requires k < 4 && NamedAt(s, k) > 0
    ensures NamedAt(s, k + 1) == NamedAt(s, k) && !(Entity4(k) <= [NamedChar(s)] + Named(s[NamedAt(s, k)..], k))
  {
    HeadTail(Entity4(k), NamedChar(s), Named(s[NamedAt(s, k)..], k));
  }

  lemma NoEntityHere(s: string, k: nat)
    requires k < 4 && |s| > 0 && NamedAt(s, k) == 0 && !(Entity4(k) <= s)
    ensures NamedAt(s, k + 1) == 0 && !(Entity4(k) <= [s[0]] + Named(s[1..], k))
  {
    EntityFacts(k);
    if s[0] == '&' {
      NamedFrom(Entity4(k), s, k);
    } else {
      HeadTail(Entity4(k), s[0], Named(s[1..], k));
    }
  }

  lemma {:induction false} NamedNone(s: string)
    ensures Named(s, 0) == s
  {
    if |s| > 0 {
      NamedNone(s[1..]);
    }
  }

  /** The first k passes together replace the entities they are for, each once. */
  lemma {:induction false} FirstPasses(s: string, k: nat)
    requires k <= 4
    ensures Passes(s, k) == Named(s, k)
  {
    if k == 0 {
      NamedNone(s);
    } else {
      FirstPasses(s, k - 1);
      OnePass(s, k - 1);
    }
  }

  // ---------- The fifth pass, and where its characters come from ----------

  /** A character of the text after five passes; `made` says that a numeric reference produced it. */
  datatype Mark = Mark(c: char, made: bool)

  function Unmade(w: string): (ms: seq<Mark>)
    ensures |ms| == |w|
  {
    seq(|w|, i requires 0 <= i < |w| => Mark(w[i], false))
  }

  function Chars(ms: seq<Mark>): (w: string)
    ensures |w| == |ms|
  {
    seq(|ms|, i requires 0 <= i < |ms| => ms[i].c)
  }

  /** The numeric pass, with the origin of each character. */
  function NumericMarks(t: string, fromCode: string -> char): seq<Mark> {
    if |t| == 0 then []
    else if NumericAt(t) > 0 then [Mark(fromCode(DigitsOf(t)), true)] + NumericMarks(t[NumericAt(t)..], fromCode)
    else [Mark(t[0], false)] + NumericMarks(t[1..], fromCode)
  }

  lemma CharsCons(m: Mark, ms: seq<Mark>)
    ensures Chars([m] + ms) == [m.c] + Chars(ms)
  {
  }

  lemma {:induction false} MarksAreText(t: string, fromCode: string -> char)
    ensures Chars(NumericMarks(t, fromCode)) == ReplaceNumeric(t, fromCode)
  {
    if |t| > 0 {
      var n := NumericAt(t);
      if n > 0 {
        MarksAreText(t[n..], fromCode);
        CharsCons(Mark(fromCode(DigitsOf(t)), true), NumericMarks(t[n..], fromCode));
      } else {
        MarksAreText(t[1..], fromCode);
        CharsCons(Mark(t[0], false), NumericMarks(t[1..], fromCode));
      }
    }
  }

  /** The text after the first five passes. */
  function FivePasses(s: string, fromCode: string -> char): seq<Mark> {
    NumericMarks(Passes(s, 4), fromCode)
  }

  lemma SixthPass(s: string, fromCode: string -> char)
    ensures DecodeEntities(s, fromCode) == ReplaceAll(Chars(FivePasses(s, fromCode)), "&amp;", "&")
  {
    MarksAreText(Passes(s, 4), fromCode);
    assert Passes(s, 4) == ReplaceAll(ReplaceAll(ReplaceAll(ReplaceAll(Passes(s, 0), "&lt;", "<"), "&gt;", ">"), "&quot;", "\""), "&apos;", "'") by {
      PassesFour(s);
    }
  }

  lemma PassesFour(s: string)
    ensures Passes(s, 4) == ReplaceAll(ReplaceAll(ReplaceAll(ReplaceAll(s, "&lt;", "<"), "&gt;", ">"), "&quot;", "\""), "&apos;", "'")
  {
    assert Passes(s, 1) == ReplaceAll(s, "&lt;", "<");
    assert Passes(s, 2) == ReplaceAll(Passes(s, 1), "&gt;", ">");
    assert Passes(s, 3) == ReplaceAll(Passes(s, 2), "&quot;", "\"");
  }

  /** Text without ampersands is unmade exactly where it is in the text before the pass. */
  lemma {:induction false} MarksPrefix(w: string, t: string, fromCode: string -> char)
    requires '&' !in w
    ensures Unmade(w) <= NumericMarks(t, fromCode) <==> w <= t
    ensures w <= t ==> NumericMarks(t, fromCode) == Unmade(w) + NumericMarks(t[|w|..], fromCode)
  {
    if |w| == 0 {
      assert t[0..] == t && Unmade(w) + NumericMarks(t, fromCode) == NumericMarks(t, fromCode);
    } else if |t| > 0 {
      assert w[0] in w && forall c :: c in w[1..] ==> c in w;
      if NumericAt(t) > 0 {
        assert t[0] == '&' && NumericMarks(t, fromCode)[0].made && !Unmade(w)[0].made;
      } else {
        MarksPrefix(w[1..], t[1..], fromCode);
        MarksStep(w, t, fromCode);
      }
    }
  }

  lemma MarksStep(w: string, t: string, fromCode: string -> char)
    requires |w| > 0 && |t| > 0 && NumericAt(t) == 0
    requires Unmade(w[1..]) <= NumericMarks(t[1..], fromCode) <==> w[1..] <= t[1..]
    requires w[1..] <= t[1..] ==> NumericMarks(t[1..], fromCode) == Unmade(w[1..]) + NumericMarks(t[1..][|w[1..]|..], fromCode)
    ensures Unmade(w) <= NumericMarks(t, fromCode) <==> w <= t
    ensures w <= t ==> NumericMarks(t, fromCode) == Unmade(w) + NumericMarks(t[|w|..], fromCode)
  {
    hide NumericMarks, NumericAt, Unmade;
    var more := NumericMarks(t[1..], fromCode);
    MarksCons(t, fromCode);
    SameStart(w, t, more);
    if w <= t {
      SliceTwice(t, |w| - 1);
      MarksRegroup(w, t[0], more, NumericMarks(t[|w|..], fromCode));
    }
  }

  lemma MarksCons(t: string, fromCode: string -> char)
    requires |t| > 0 && NumericAt(t) == 0
    ensures NumericMarks(t, fromCode) == [Mark(t[0], false)] + NumericMarks(t[1..], fromCode)
  {
  }

  lemma SameStart(w: string, t: string, more: seq<Mark>)
    requires |w| > 0 && |t| > 0
    requires Unmade(w[1..]) <= more <==> w[1..] <= t[1..]
    ensures Unmade(w) <= [Mark(t[0], false)] + more <==> w <= t
    ensures w <= t ==> w[0] == t[0] && w[1..] <= t[1..]
  {
    UnmadeCons(w);
    hide Unmade;
    HeadTail(Unmade(w), Mark(t[0], false), more);
    HeadTail(w, t[0], t[1..]);
    assert t == [t[0]] + t[1..];
  }

  lemma MarksRegroup(w: string, c: char, more: seq<Mark>, rest: seq<Mark>)
    requires |w| > 0 && w[0] == c && more == Unmade(w[1..]) + rest
    ensures [Mark(c, false)] + more == Unmade(w) + rest
  {
    UnmadeCons(w);
    Regroup(Unmade(w), rest);
  }

  lemma UnmadeCons(w: string)
    requires |w| > 0
    ensures Unmade(w)[0] == Mark(w[0], false) && Unmade(w)[1..] == Unmade(w[1..])
  {
  }

  // ---------- The sixth pass against one pass ----------

  /** An `&amp;` of the original text starts here. */
  predicate OwnAmpersand(ms: seq<Mark>) {
    Unmade("&amp;") <= ms
  }

  /** The sixth pass restricted to what the original text spells out. */
  function ReplaceOwn(ms: seq<Mark>): string {
    if |ms| == 0 then ""
    else if OwnAmpersand(ms) then "&" + ReplaceOwn(ms[5..])
    else [ms[0].c] + ReplaceOwn(ms[1..])
  }

  lemma OwnStep(m: Mark, ms: seq<Mark>)
    requires !OwnAmpersand([m] + ms)
    ensures ReplaceOwn([m] + ms) == [m.c] + ReplaceOwn(ms)
  {
    assert ([m] + ms)[1..] == ms;
  }

  lemma OwnMatch(ms: seq<Mark>)
    ensures ReplaceOwn(Unmade("&amp;") + ms) == "&" + ReplaceOwn(ms)
  {
    assert (Unmade("&amp;") + ms)[5..] == ms;
  }

  lemma OwnHead(m: Mark, ms: seq<Mark>)
    ensures OwnAmpersand([m] + ms) <==> m == Mark('&', false) && Unmade("amp;") <= ms
  {
    HeadTail(Unmade("&amp;"), m, ms);
    UnmadeCons("&amp;");
    assert "&amp;"[1..] == "amp;";
  }

  lemma {:induction false} DigitsAreDigits(s: string, i: nat)
    requires i < DigitsAt(s)
    ensures i < |s| && IsDigit(s[i])
  {
    if i > 0 {
      DigitsAreDigits(s[1..], i - 1);
    }
  }

  /** A numeric reference holds no markup character after its first. */
  lemma ReferenceText(s: string)
    requires NumericAt(s) > 0
    ensures var w := s[..NumericAt(s)]; w[0] == '&' && (forall c :: c in w[1..] ==> !Markup(c))
    ensures NamedAt(s, 4) == 0 && !("&amp;" <= s)
  {
    var n := NumericAt(s);
    var w := s[..n];
    assert s[1] == '#' && s[n - 1] == ';';
    forall i | 1 <= i < n ensures !Markup(w[i]) {
      if 2 <= i < n - 1 {
        DigitsAreDigits(s[2..], i - 2);
      }
    }
    forall c | c in w[1..] ensures !Markup(c) {
      var i :| 0 <= i < |w[1..]| && w[1..][i] == c;
      assert c == w[i + 1];
    }
  }

  lemma {:induction false} DigitsAtPrefix(w: string, rest: string)
    requires DigitsAt(w) < |w|
    ensures DigitsAt(w + rest) == DigitsAt(w)
  {
    assert (w + rest)[0] == w[0];
    if IsDigit(w[0]) {
      DigitsAtPrefix(w[1..], rest);
      assert (w + rest)[1..] == w[1..] + rest;
    }
  }

  /** Whether a numeric reference stands at the start depends on its own text only. */
  lemma ReferenceStays(w: string, rest: string)
    requires NumericAt(w) > 0
    ensures NumericAt(w + rest) == NumericAt(w) && DigitsOf(w + rest) == DigitsOf(w)
  {
    var s := w + rest;
    assert "&#" <= s && s[2..] == w[2..] + rest;
    DigitsAtPrefix(w[2..], rest);
    var d := DigitsAt(w[2..]);
    assert s[2 + d] == w[2 + d];
    assert s[2..2 + d] == w[2..2 + d];
  }

  lemma ReferenceCut(s: string)
    requires NumericAt(s) > 0
    ensures NumericAt(s[..NumericAt(s)]) == NumericAt(s) && DigitsOf(s[..NumericAt(s)]) == DigitsOf(s)
  {
    var n := NumericAt(s);
    var w := s[..n];
    assert w[2..] == s[2..][..n - 2] && s[2..] == w[2..] + s[n..];
    DigitsCut(s[2..], n - 2);
    assert w[2..n - 1] == s[2..n - 1];
  }

  lemma {:induction false} DigitsCut(s: string, n: nat)
    requires DigitsAt(s) < n <= |s|
    ensures DigitsAt(s[..n]) == DigitsAt(s)
  {
    if IsDigit(s[0]) {
      DigitsCut(s[1..], n - 1);
      assert s[..n][1..] == s[1..][..n - 1];
    }
  }

  lemma ReferenceForth(s: string)
    requires |s| > 0 && NamedAt(s, 4) == 0 && NumericAt(s) > 0
    ensures NumericAt(Named(s, 4)) == NumericAt(s) && DigitsOf(Named(s, 4)) == DigitsOf(s)
    ensures Named(s, 4)[NumericAt(s)..] == Named(s[NumericAt(s)..], 4)
  {
    ReferenceText(s);
    ReferenceCut(s);
    hide Named, NamedAt, NumericAt, Markup;
    var w := s[..NumericAt(s)];
    NamedFrom(w, s, 4);
    ReferenceStays(w, Named(s[|w|..], 4));
  }

  lemma ReferenceBack(s: string)
    requires |s| > 0 && NamedAt(s, 4) == 0 && NumericAt(Named(s, 4)) > 0
    ensures NumericAt(s) > 0
  {
    hide Named, NamedAt, NumericAt, Markup, DigitsOf;
    var t := Named(s, 4);
    ReferenceText(t);
    ReferenceCut(t);
    var w := t[..NumericAt(t)];
    assert w <= t;
    NamedFrom(w, s, 4);
    ReferenceIn(w, s);
  }

  lemma ReferenceIn(w: string, s: string)
    requires w <= s && NumericAt(w) > 0
    ensures NumericAt(s) > 0
  {
    assert s == w + s[|w|..];
    ReferenceStays(w, s[|w|..]);
  }

  /** The named passes keep every numeric reference as it is, and add none. */
  lemma ReferenceKept(s: string)
    requires |s| > 0 && NamedAt(s, 4) == 0
    ensures NumericAt(Named(s, 4)) == NumericAt(s)
    ensures NumericAt(s) > 0 ==> DigitsOf(Named(s, 4)) == DigitsOf(s)
    ensures NumericAt(s) > 0 ==> Named(s, 4)[NumericAt(s)..] == Named(s[NumericAt(s)..], 4)
  {
    hide Named, NamedAt, NumericAt;
    if NumericAt(s) > 0 {
      ReferenceForth(s);
    } else if NumericAt(Named(s, 4)) > 0 {
      ReferenceBack(s);
    }
  }

  lemma NoReference(c: char, t: string)
    requires c != '&'
    ensures NumericAt([c] + t) == 0 && !("&amp;" <= [c] + t)
  {
    assert ([c] + t)[0] == c;
  }

  lemma NamedCons(s: string, k: nat)
    requires |s| > 0 && NamedAt(s, k) == 0
    ensures Named(s, k) == [s[0]] + Named(s[1..], k) && Named(s, k)[1..] == Named(s[1..], k)
  {
  }

  /** The one-pass decoder is the sixth pass restricted to the original text. */
  lemma {:induction false} OnceIsOwn(s: string, fromCode: string -> char)
    ensures DecodeOnce(s, fromCode) == ReplaceOwn(NumericMarks(Named(s, 4), fromCode))
  {
    if |s| > 0 {
      if NamedAt(s, 4) > 0 {
        OnceIsOwn(s[NamedAt(s, 4)..], fromCode);
        OnceAtNamed(s, fromCode);
      } else if NumericAt(s) > 0 {
        OnceIsOwn(s[NumericAt(s)..], fromCode);
        OnceAtNumeric(s, fromCode);
      } else if "&amp;" <= s {
        OnceIsOwn(s[5..], fromCode);
        OnceAtAmpersand(s, fromCode);
      } else {
        OnceIsOwn(s[1..], fromCode);
        OnceElsewhere(s, fromCode);
      }
    }
  }

  lemma OnceAtNamed(s: string, fromCode: string -> char)
    requires NamedAt(s, 4) > 0
    requires var rest := s[NamedAt(s, 4)..]; DecodeOnce(rest, fromCode) == ReplaceOwn(NumericMarks(Named(rest, 4), fromCode))
    ensures DecodeOnce(s, fromCode) == ReplaceOwn(NumericMarks(Named(s, 4), fromCode))
  {
    var c, t := NamedChar(s), Named(s[NamedAt(s, 4)..], 4);
    assert Named(s, 4) == [c] + t && c != '&';
    NoReference(c, t);
    assert ([c] + t)[1..] == t;
    MarksCons([c] + t, fromCode);
    OwnHead(Mark(c, false), NumericMarks(t, fromCode));
    OwnStep(Mark(c, false), NumericMarks(t, fromCode));
  }

  lemma OnceAtNumeric(s: string, fromCode: string -> char)
    requires NamedAt(s, 4) == 0 && NumericAt(s) > 0
    requires var rest := s[NumericAt(s)..]; DecodeOnce(rest, fromCode) == ReplaceOwn(NumericMarks(Named(rest, 4), fromCode))
    ensures DecodeOnce(s, fromCode) == ReplaceOwn(NumericMarks(Named(s, 4), fromCode))
  {
    var t, m := Named(s, 4), Mark(fromCode(DigitsOf(s)), true);
    ReferenceKept(s);
    var more := NumericMarks(t[NumericAt(t)..], fromCode);
    assert NumericMarks(t, fromCode) == [m] + more;
    OwnHead(m, more);
    OwnStep(m, more);
  }

  lemma OnceAtAmpersand(s: string, fromCode: string -> char)
    requires NamedAt(s, 4) == 0 && NumericAt(s) == 0 && "&amp;" <= s
    requires DecodeOnce(s[5..], fromCode) == ReplaceOwn(NumericMarks(Named(s[5..], 4), fromCode))
    ensures DecodeOnce(s, fromCode) == ReplaceOwn(NumericMarks(Named(s, 4), fromCode))
  {
    var t, rest := Named(s, 4), Named(s[5..], 4);
    NamedFrom("&amp;", s, 4);
    ReferenceKept(s);
    assert t == "&amp;" + rest;
    AmpersandMarks(t, fromCode);
    assert t[5..] == rest;
    OwnMatch(NumericMarks(rest, fromCode));
  }

  lemma AmpersandMarks(t: string, fromCode: string -> char)
    requires |t| > 0 && NumericAt(t) == 0 && t[0] == '&'
    ensures OwnAmpersand(NumericMarks(t, fromCode)) <==> "&amp;" <= t
    ensures "&amp;" <= t ==> NumericMarks(t, fromCode) == Unmade("&amp;") + NumericMarks(t[5..], fromCode)
  {
    hide NumericMarks, NumericAt, Unmade;
    MarksPrefix("amp;", t[1..], fromCode);
    assert "&amp;"[1..] == "amp;";
    MarksStep("&amp;", t, fromCode);
  }

  lemma OnceElsewhere(s: string, fromCode: string -> char)
    requires |s| > 0 && NamedAt(s, 4) == 0 && NumericAt(s) == 0 && !("&amp;" <= s)
    requires DecodeOnce(s[1..], fromCode) == ReplaceOwn(NumericMarks(Named(s[1..], 4), fromCode))
    ensures DecodeOnce(s, fromCode) == ReplaceOwn(NumericMarks(Named(s, 4), fromCode))
  {
    NamedCons(s, 4);
    assert DecodeOnce(s, fromCode) == [s[0]] + DecodeOnce(s[1..], fromCode);
    NothingOwnHere(s, fromCode);
    hide Named, NamedAt, NumericAt, DecodeOnce, ReplaceOwn, OwnAmpersand, NumericMarks;
    OwnStep(Mark(s[0], false), NumericMarks(Named(s[1..], 4), fromCode));
  }

  lemma NothingOwnHere(s: string, fromCode: string -> char)
    requires |s| > 0 && NamedAt(s, 4) == 0 && NumericAt(s) == 0 && !("&amp;" <= s)
    ensures var m, more := Mark(s[0], false), NumericMarks(Named(s[1..], 4), fromCode);
            NumericMarks(Named(s, 4), fromCode) == [m] + more && !OwnAmpersand([m] + more)
  {
    hide Named, NamedAt, NumericAt, OwnAmpersand, NumericMarks, DigitsOf, Unmade;
    var t := Named(s, 4);
    NamedCons(s, 4);
    StillNoReference(s);
    MarksCons(t, fromCode);
    if s[0] == '&' {
      AmpersandKept(s);
      AmpersandMarks(t, fromCode);
    } else {
      OwnHead(Mark(s[0], false), NumericMarks(Named(s[1..], 4), fromCode));
    }
  }

  lemma StillNoReference(s: string)
    requires |s| > 0 && NamedAt(s, 4) == 0 && NumericAt(s) == 0
    ensures NumericAt(Named(s, 4)) == 0
  {
    ReferenceKept(s);
  }

  lemma AmpersandKept(s: string)
    requires |s| > 0 && NamedAt(s, 4) == 0
    ensures "&amp;" <= Named(s, 4) <==> "&amp;" <= s
  {
    hide Named, NamedAt;
    NamedFrom("&amp;", s, 4);
  }

  /** An `&amp;` that a numeric reference has helped to spell starts at j. */
  ghost predicate UsesMade(ms: seq<Mark>, j: nat) {
    j + 5 <= |ms| && Chars(ms[j..j + 5]) == "&amp;" && exists i :: j <= i < j + 5 && ms[i].made
  }

  lemma UsesShift(ms: seq<Mark>, n: nat, j: nat)
    requires n <= |ms|
    ensures UsesMade(ms, n + j) <==> UsesMade(ms[n..], j)
  {
    var rest := ms[n..];
    if j + 5 <= |rest| {
      assert ms[n + j..n + j + 5] == rest[j..j + 5];
      if i :| n + j <= i < n + j + 5 && ms[i].made {
        assert rest[i - n].made;
      }
      if i :| j <= i < j + 5 && rest[i].made {
        assert ms[n + i].made;
      }
    }
  }

  lemma UsesNeedsAmpersand(ms: seq<Mark>, j: nat)
    ensures UsesMade(ms, j) ==> j < |ms| && ms[j].c == '&'
  {
    if UsesMade(ms, j) {
      assert Chars(ms[j..j + 5])[0] == '&';
    }
  }

  /** At the start, an `&amp;` is either the original text's own or has a made character. */
  lemma OwnOrMade(ms: seq<Mark>)
    ensures "&amp;" <= Chars(ms) <==> OwnAmpersand(ms) || UsesMade(ms, 0)
    ensures !(OwnAmpersand(ms) && UsesMade(ms, 0))
  {
    if |ms| >= 5 {
      var head := ms[0..5];
      assert ms[..5] == head && Chars(ms)[..5] == Chars(head);
      assert head == Unmade("&amp;") ==> forall i :: 0 <= i < 5 ==> !ms[i].made by {
        assert forall i :: 0 <= i < 5 ==> head[i] == ms[i];
      }
      if Chars(head) == "&amp;" && forall i :: 0 <= i < 5 ==> !ms[i].made {
        forall i | 0 <= i < 5 ensures head[i] == Unmade("&amp;")[i] {
          assert head[i].c == Chars(head)[i];
        }
        assert head == Unmade("&amp;");
      }
      assert Chars(Unmade("&amp;")) == "&amp;";
    }
  }

  lemma CharsTail(ms: seq<Mark>, n: nat)
    requires n <= |ms|
    ensures Chars(ms)[n..] == Chars(ms[n..])
  {
  }

  ghost predicate NothingMade(ms: seq<Mark>) {
    forall j: nat :: !UsesMade(ms, j)
  }

  /** The sixth pass does what its restriction to the original text does, if and only if no `&amp;` has a made character. */
  lemma {:induction false} SixthIsOwn(ms: seq<Mark>)
    ensures |ReplaceAll(Chars(ms), "&amp;", "&")| <= |ReplaceOwn(ms)|
    ensures ReplaceAll(Chars(ms), "&amp;", "&") == ReplaceOwn(ms) <==> NothingMade(ms)
  {
    if |ms| > 0 {
      OwnOrMade(ms);
      if "&amp;" <= Chars(ms) {
        SixthIsOwn(ms[5..]);
        SixthMatches(ms);
        if OwnAmpersand(ms) {
          OwnUses(ms);
          SameTail('&', ReplaceAll(Chars(ms[5..]), "&amp;", "&"), ReplaceOwn(ms[5..]));
        } else {
          MadeIsLonger(ms);
          assert UsesMade(ms, 0);
        }
      } else {
        SixthIsOwn(ms[1..]);
        SixthSteps(ms);
        StepUses(ms);
        SameTail(ms[0].c, ReplaceAll(Chars(ms[1..]), "&amp;", "&"), ReplaceOwn(ms[1..]));
      }
    }
  }

  lemma SameTail(c: char, x: string, y: string)
    ensures [c] + x == [c] + y <==> x == y
  {
    assert ([c] + x)[1..] == x && ([c] + y)[1..] == y;
  }

  lemma SixthMatches(ms: seq<Mark>)
    requires "&amp;" <= Chars(ms)
    ensures ReplaceAll(Chars(ms), "&amp;", "&") == "&" + ReplaceAll(Chars(ms[5..]), "&amp;", "&")
    ensures OwnAmpersand(ms) ==> ReplaceOwn(ms) == "&" + ReplaceOwn(ms[5..])
  {
    CharsTail(ms, 5);
  }

  lemma SixthSteps(ms: seq<Mark>)
    requires |ms| > 0 && !("&amp;" <= Chars(ms)) && !OwnAmpersand(ms)
    ensures ReplaceAll(Chars(ms), "&amp;", "&") == [ms[0].c] + ReplaceAll(Chars(ms[1..]), "&amp;", "&")
    ensures ReplaceOwn(ms) == [ms[0].c] + ReplaceOwn(ms[1..])
  {
    OwnStepAt(ms);
    CharsTail(ms, 1);
    assert Chars(ms)[0] == ms[0].c;
    hide OwnAmpersand, ReplaceOwn, ReplaceAll, Chars;
    StepAt(Chars(ms));
  }

  lemma StepAt(t: string)
    requires |t| > 0 && !("&amp;" <= t)
    ensures ReplaceAll(t, "&amp;", "&") == [t[0]] + ReplaceAll(t[1..], "&amp;", "&")
  {
  }

  lemma OwnStepAt(ms: seq<Mark>)
    requires |ms| > 0 && !OwnAmpersand(ms)
    ensures ReplaceOwn(ms) == [ms[0].c] + ReplaceOwn(ms[1..])
  {
  }

  lemma OwnUses(ms: seq<Mark>)
    requires OwnAmpersand(ms)
    ensures NothingMade(ms) <==> NothingMade(ms[5..])
  {
    OwnOrMade(ms);
    assert Chars(ms)[..5] == "&amp;";
    forall j | 0 < j < 5 ensures ms[j].c != '&' {
      assert ms[j].c == Chars(ms)[..5][j];
    }
    hide UsesMade;
    if j: nat :| UsesMade(ms, j) {
      UsesNeedsAmpersand(ms, j);
      UsesShift(ms, 5, j - 5);
    }
    if j: nat :| UsesMade(ms[5..], j) {
      UsesShift(ms, 5, j);
    }
  }

  lemma StepUses(ms: seq<Mark>)
    requires |ms| > 0 && !UsesMade(ms, 0)
    ensures NothingMade(ms) <==> NothingMade(ms[1..])
  {
    hide UsesMade;
    if j: nat :| UsesMade(ms, j) {
      UsesShift(ms, 1, j - 1);
    }
    if j: nat :| UsesMade(ms[1..], j) {
      UsesShift(ms, 1, j);
    }
  }

  lemma NotOwnStep(ms: seq<Mark>)
    requires |ms| > 0 && ms[0].c != '&'
    ensures ReplaceOwn(ms) == [ms[0].c] + ReplaceOwn(ms[1..])
  {
    assert Unmade("&amp;")[0].c == '&';
  }

  lemma MadeIsLonger(ms: seq<Mark>)
    requires "&amp;" <= Chars(ms) && !OwnAmpersand(ms)
    ensures |ReplaceOwn(ms)| == 5 + |ReplaceOwn(ms[5..])|
  {
    assert forall i :: 0 <= i < 5 ==> ms[i].c == Chars(ms)[..5][i] == "&amp;"[i];
    NotOwnStep(ms[1..]);
    NotOwnStep(ms[2..]);
    NotOwnStep(ms[3..]);
    NotOwnStep(ms[4..]);
    assert ms[1..][1..] == ms[2..] && ms[2..][1..] == ms[3..] && ms[3..][1..] == ms[4..] && ms[4..][1..] == ms[5..];
    hide Unmade;
  }

  // ---------- The laws ----------

  /** For every text: the chain decodes each reference once, and nothing else, if and only if no `&amp;` of the text after
      five passes has a character that a numeric reference produced. */
  lemma DecodesOnceExactly(s: string, fromCode: string -> char)
    ensures DecodeEntities(s, fromCode) == DecodeOnce(s, fromCode)
            <==> NothingMade(FivePasses(s, fromCode))
  {
    SixthPass(s, fromCode);
    FirstPasses(s, 4);
    OnceIsOwn(s, fromCode);
    SixthIsOwn(FivePasses(s, fromCode));
  }

  /** The digits of the numeric references of a text. */
  function References(s: string): seq<string> {
    if |s| == 0 then []
    else if NumericAt(s) > 0 then [DigitsOf(s)] + References(s[NumericAt(s)..])
    else References(s[1..])
  }

  lemma {:induction false} MadeByReference(t: string, fromCode: string -> char, i: nat)
    requires i < |NumericMarks(t, fromCode)| && NumericMarks(t, fromCode)[i].made
    ensures exists d :: d in References(t) && fromCode(d) == NumericMarks(t, fromCode)[i].c
  {
    if NumericAt(t) > 0 {
      ReferencesHere(t);
      if i > 0 {
        MadeByReference(t[NumericAt(t)..], fromCode, i - 1);
      }
    } else {
      MarksCons(t, fromCode);
      MadeByReference(t[1..], fromCode, i - 1);
    }
  }

  lemma ReferencesHere(t: string)
    requires NumericAt(t) > 0
    ensures DigitsOf(t) in References(t) && forall d :: d in References(t[NumericAt(t)..]) ==> d in References(t)
  {
  }

  /** Text in which no reference can begin adds none. */
  lemma {:induction false} ReferencesSkip(w: string, rest: string)
    requires '&' !in w
    ensures References(w + rest) == References(rest)
  {
    if |w| > 0 {
      assert w[0] in w && forall c :: c in w[1..] ==> c in w;
      ReferencesSkip(w[1..], rest);
      assert w + rest == [w[0]] + (w[1..] + rest) && (w + rest)[1..] == w[1..] + rest;
      NoReference(w[0], w[1..] + rest);
    } else {
      assert w + rest == rest;
    }
  }

  lemma NamedText(s: string)
    requires NamedAt(s, 4) > 0
    ensures '&' !in s[1..NamedAt(s, 4)] && NumericAt(s) == 0
    ensures References(s) == References(s[NamedAt(s, 4)..])
  {
    var n := NamedAt(s, 4);
    assert s[1..] == s[1..n] + s[n..];
    assert s[1] != '#';
    forall c | c in s[1..n] ensures c != '&' {
      assert s[..n] == "&lt;" || s[..n] == "&gt;" || s[..n] == "&quot;" || s[..n] == "&apos;";
      var i :| 0 <= i < n - 1 && s[1..n][i] == c;
      assert c == s[..n][i + 1];
    }
    ReferencesSkip(s[1..n], s[n..]);
  }

  /** The named passes leave the references as they are. */
  lemma {:induction false} ReferencesKept(s: string)
    ensures References(Named(s, 4)) == References(s)
  {
    if |s| > 0 {
      if NamedAt(s, 4) > 0 {
        var rest := s[NamedAt(s, 4)..];
        ReferencesKept(rest);
        NamedText(s);
        ReferencesSkip([NamedChar(s)], Named(rest, 4));
      } else {
        ReferenceKept(s);
        NamedCons(s, 4);
        if NumericAt(s) > 0 {
          ReferencesKept(s[NumericAt(s)..]);
        } else {
          ReferencesKept(s[1..]);
        }
      }
    }
  }

  /** What a caller can check: the chain decodes once if no numeric reference of the text names a character of `&amp;`. */
  lemma DecodesOnce(s: string, fromCode: string -> char)
    requires forall d :: d in References(s) ==> fromCode(d) !in "&amp;"
    ensures DecodeEntities(s, fromCode) == DecodeOnce(s, fromCode)
  {
    var ms := FivePasses(s, fromCode);
    FirstPasses(s, 4);
    ReferencesKept(s);
    hide References, NumericMarks, Named, Passes, DecodeEntities;
    if j: nat :| UsesMade(ms, j) {
      var i :| j <= i < j + 5 && ms[i].made;
      MadeByReference(Passes(s, 4), fromCode, i);
      MadeInAmpersand(ms, j, i);
    }
    DecodesOnceExactly(s, fromCode);
  }

  lemma MadeInAmpersand(ms: seq<Mark>, j: nat, i: nat)
    requires UsesMade(ms, j) && j <= i < j + 5
    ensures ms[i].c in "&amp;"
  {
    assert ms[i].c == Chars(ms[j..j + 5])[i - j];
  }

  // ---------- Texts that are decoded twice ----------

  lemma {:induction false} OncePlain(w: string, rest: string, fromCode: string -> char)
    requires '&' !in w
    ensures DecodeOnce(w + rest, fromCode) == w + DecodeOnce(rest, fromCode)
  {
    if |w| == 0 {
      assert w + rest == rest && w + DecodeOnce(rest, fromCode) == DecodeOnce(rest, fromCode);
    } else {
      assert w[0] in w && forall c :: c in w[1..] ==> c in w;
      OncePlain(w[1..], rest, fromCode);
      NoNamed([w[0]] + (w[1..] + rest));
      NoReference(w[0], w[1..] + rest);
      OnceStep(w[0], w[1..] + rest, fromCode);
      Regroup(w, rest);
      Regroup(w, DecodeOnce(rest, fromCode));
    }
  }

  /** The first characters rule the named entities out. */
  lemma NoNamed(s: string)
    requires |s| > 0 && (s[0] == '&' ==> |s| > 2 && s[1] != 'l' && s[1] != 'g' && s[1] != 'q' && (s[1] == 'a' ==> s[2] != 'p'))
    ensures NamedAt(s, 4) == 0
  {
    assert "&lt;"[0] == "&gt;"[0] == "&quot;"[0] == "&apos;"[0] == '&';
    assert "&lt;"[1] == 'l' && "&gt;"[1] == 'g' && "&quot;"[1] == 'q' && "&apos;"[1] == 'a' && "&apos;"[2] == 'p';
  }

  lemma OnceStep(c: char, t: string, fromCode: string -> char)
    requires NamedAt([c] + t, 4) == 0 && NumericAt([c] + t) == 0 && !("&amp;" <= [c] + t)
    ensures DecodeOnce([c] + t, fromCode) == [c] + DecodeOnce(t, fromCode)
  {
    assert ([c] + t)[1..] == t;
  }

  /** The passes over text without entities that the first four could replace. */
  lemma PlainPasses(s: string, fromCode: string -> char)
    requires Named(s, 4) == s
    ensures DecodeEntities(s, fromCode) == ReplaceAll(ReplaceNumeric(s, fromCode), "&amp;", "&")
  {
    SixthPass(s, fromCode);
    FirstPasses(s, 4);
    MarksAreText(s, fromCode);
  }

  lemma AmpersandLeft()
    ensures ReplaceAll("&amp;", "&amp;", "&") == "&"
  {
    MatchReplaced("", "&amp;", "&");
    assert "&amp;" + "" == "&amp;";
  }

  /** An ampersand with text that is no entity passes the first four passes. */
  lemma NamedKeeps(w: string, rest: string)
    requires |w| > 2 && w[0] == '&' && w[1] != 'l' && w[1] != 'g' && w[1] != 'q' && (w[1] == 'a' ==> w[2] != 'p')
    requires forall c :: c in w[1..] ==> !Markup(c)
    ensures NamedAt(w + rest, 4) == 0 && Named(w + rest, 4) == w + Named(rest, 4)
  {
    var s := w + rest;
    assert s[0] == w[0] && s[1] == w[1] && s[2] == w[2] && s[|w|..] == rest;
    NoNamed(s);
    hide NamedAt, Named, Markup;
    NamedFrom(w, s, 4);
  }

  lemma NamedEmpty()
    ensures Named("", 4) == ""
  {
  }

  lemma LetterText()
    ensures var s := "&am&#112;;";
            s == "&am" + "&#112;;" && Named(s, 4) == s && NamedAt(s, 4) == 0 && !("&amp;" <= s)
  {
    hide Named, NamedAt;
    NamedEmpty();
    NamedKeeps("&#112;;", "");
    NamedKeeps("&am", "&#112;;");
    assert "&#112;;" + "" == "&#112;;";
    assert "&am" + "&#112;;" == "&am&#112;;";
    assert "&am&#112;;"[3] == '&' && "&amp;"[3] == 'p';
  }

  lemma LetterReplaced(fromCode: string -> char)
    requires fromCode("112") == 'p'
    ensures ReplaceNumeric("&am&#112;;", fromCode) == "&amp;"
  {
    hide Named, NamedAt, NumericAt, ReplaceNumeric;
    assert "&am&#112;;" == ['&'] + ("am" + "&#112;;") && "&#112;;" == "&#" + "112" + ";" + ";";
    NumericSkips('&', "am" + "&#112;;", fromCode);
    NumericStays("am", "&#112;;", fromCode);
    NumericReplaced("112", ";", fromCode);
    NumericStays(";", "", fromCode);
    NumericNothing(fromCode);
    assert ";" + "" == ";" && ['&'] + ("am" + (['p'] + ";")) == "&amp;";
  }

  lemma NumericNothing(fromCode: string -> char)
    ensures ReplaceNumeric("", fromCode) == "" && DecodeOnce("", fromCode) == ""
  {
  }

  lemma OnceReference(digits: string, rest: string, fromCode: string -> char)
    requires |digits| > 0 && forall d :: d in digits ==> IsDigit(d)
    ensures DecodeOnce("&#" + digits + ";" + rest, fromCode) == [fromCode(digits)] + DecodeOnce(rest, fromCode)
  {
    var s, n := "&#" + digits + ";" + rest, |digits|;
    assert s[0] == '&' && s[1] == '#';
    NoNamed(s);
    DigitsThenSemicolon(digits, rest);
    assert s[2..] == digits + ";" + rest && s[2 + n] == (digits + ";" + rest)[n] == ';';
    assert NumericAt(s) == 3 + n && s[2..n + 2] == digits && s[n + 3..] == rest;
  }

  lemma LetterOnce(fromCode: string -> char)
    requires fromCode("112") == 'p'
    ensures DecodeOnce("&am&#112;;", fromCode) == "&amp;"
  {
    LetterText();
    NumericSkipsAt();
    hide Named, NamedAt, NumericAt, DecodeOnce;
    assert "&am&#112;;" == ['&'] + ("am" + "&#112;;") && "&#112;;" == "&#" + "112" + ";" + ";";
    OnceStep('&', "am" + "&#112;;", fromCode);
    OncePlain("am", "&#112;;", fromCode);
    OnceReference("112", ";", fromCode);
    OncePlain(";", "", fromCode);
    NumericNothing(fromCode);
    assert ";" + "" == ";" && ['&'] + ("am" + (['p'] + ";")) == "&amp;";
  }

  lemma NumericSkipsAt()
    ensures NumericAt(['&'] + ("am" + "&#112;;")) == 0
  {
    assert (['&'] + ("am" + "&#112;;"))[1] == 'a';
  }

  /** A reference that names a letter is enough: here the last pass reads `&amp;` where the text has none. */
  lemma LetterDecodedTwice(fromCode: string -> char)
    requires fromCode("112") == 'p'
    ensures DecodeEntities("&am&#112;;", fromCode) == "&" && DecodeOnce("&am&#112;;", fromCode) == "&amp;"
  {
    hide DecodeEntities, DecodeOnce, Named, NamedAt, ReplaceNumeric;
    LetterText();
    PlainPasses("&am&#112;;", fromCode);
    LetterReplaced(fromCode);
    AmpersandLeft();
    LetterOnce(fromCode);
  }

  lemma PairText()
    ensures Named("&#38;&#97;mp;", 4) == "&#38;&#97;mp;"
  {
    hide Named, NamedAt;
    NamedEmpty();
    NamedKeeps("&#97;mp;", "");
    NamedKeeps("&#38;", "&#97;mp;");
    assert "&#97;mp;" + "" == "&#97;mp;";
    assert "&#38;" + "&#97;mp;" == "&#38;&#97;mp;";
  }

  /** Two references that each name a part of it do as well. */
  lemma PairDecodedTwice(fromCode: string -> char)
    requires fromCode("38") == '&' && fromCode("97") == 'a'
    ensures DecodeEntities("&#38;&#97;mp;", fromCode) == "&" && DecodeOnce("&#38;&#97;mp;", fromCode) == "&amp;"
  {
    hide DecodeEntities, DecodeOnce, Named, NamedAt, ReplaceNumeric, NumericAt;
    PairText();
    assert "&#38;&#97;mp;" == "&#" + "38" + ";" + "&#97;mp;" && "&#97;mp;" == "&#" + "97" + ";" + "mp;";
    PlainPasses("&#38;&#97;mp;", fromCode);
    NumericReplaced("38", "&#97;mp;", fromCode);
    NumericReplaced("97", "mp;", fromCode);
    NumericStays("mp;", "", fromCode);
    OnceReference("38", "&#97;mp;", fromCode);
    OnceReference("97", "mp;", fromCode);
    OncePlain("mp;", "", fromCode);
    NumericNothing(fromCode);
    AmpersandLeft();
    assert "mp;" + "" == "mp;" && ['&'] + (['a'] + "mp;") == "&amp;";
  }
}
