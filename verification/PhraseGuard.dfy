/**
 The guard against statements that cannot run inside a transaction: a delimited phrase search over
 the raw text and over the text without comments. Text is ASCII here; case folding is a-z alone.
 */
module PhraseGuard {
  import opened Prelude
  import opened SqlLexer
  import opened SqlGrammar

  function UpperChar(c: char): char {
    if 'a' <= c <= 'z' then (c as int - 32) as char else c
  }

  /** strings.ToUpper. */
  function Upper(s: Text): (u: Text)
    ensures |u| == |s| && forall i | 0 <= i < |s| :: u[i] == UpperChar(s[i])
  {
    seq(|s|, i requires 0 <= i < |s| => UpperChar(s[i]))
  }

  predicate IsIdent(b: char) {
    b == '_' || b == '$' || '0' <= b <= '9' || 'A' <= b <= 'Z'
  }

  /** `phrase` stands at `k` with no identifier character on either side. */
  predicate DelimitedAt(upper: Text, phrase: Text, k: int) {
    && OccursAt(upper, phrase, k)
    && (k == 0 || !IsIdent(upper[k - 1]))
    && (k + |phrase| == |upper| || !IsIdent(upper[k + |phrase|]))
  }

  predicate HasPhrase(body: Text, phrase: Text) {
    exists k | 0 <= k <= |body| :: DelimitedAt(Upper(body), phrase, k)
  }

  lemma OccursShifted(u: Text, p: Text, i: nat, k: int)
    requires i <= k && i <= |u|
    ensures OccursAt(u[i..], p, k - i) <==> OccursAt(u, p, k)
  {
    if k + |p| <= |u| {
      assert u[i..][k - i..k - i + |p|] == u[k..k + |p|];
    }
  }

  /** strings.Index from `i` on, in positions of the whole text. */
  lemma IndexFrom(u: Text, p: Text, i: nat)
    requires i <= |u|
    ensures var j := Index(u[i..], p);
            && (j.Some? ==> OccursAt(u, p, i + j.value))
            && (forall k | i <= k && (j.Some? ==> k < i + j.value) :: !OccursAt(u, p, k))
  {
    hide OccursAt;
    var j := Index(u[i..], p);
    if j.Some? { OccursShifted(u, p, i, i + j.value); }
    forall k | i <= k && (j.Some? ==> k < i + j.value)
      ensures !OccursAt(u, p, k)
    {
      OccursShifted(u, p, i, k);
    }
  }

  /** Starts again one place after each undelimited candidate; skips nothing and stops. */
  method ContainsPhrase(body: Text, phrase: Text) returns (found: bool)
    requires phrase != ""
    ensures found <==> HasPhrase(body, phrase)
  {
    hide Index, IsIdent, Upper;
    var upper := Upper(body);
    var i := 0;
    while true
      invariant 0 <= i <= |upper|
      invariant forall k | 0 <= k < i :: !DelimitedAt(upper, phrase, k)
      decreases |upper| - i
    {
      IndexFrom(upper, phrase, i);
      var j := Index(upper[i..], phrase);
      if j == None {
        return false;
      }
      var s := i + j.value;
      var e := s + |phrase|;
      var beforeOK := s == 0 || !IsIdent(upper[s - 1]);
      var afterOK := e == |upper| || !IsIdent(upper[e]);
      if beforeOK && afterOK {
        assert DelimitedAt(upper, phrase, s);
        return true;
      }
      i := s + 1;
    }
  }

  // ---------------------------------------------------------------- strings.Join(strings.Fields(s), " ")

  function WordLength(s: Text): (n: nat)
    requires s != "" && !IsSpace(s[0])
    ensures 0 < n <= |s|
  {
    if |s| == 1 || IsSpace(s[1]) then 1 else 1 + WordLength(s[1..])
  }

  function Fields(s: Text): seq<Text> {
    if s == "" then []
    else if IsSpace(s[0]) then Fields(s[1..])
    else [s[..WordLength(s)]] + Fields(s[WordLength(s)..])
  }

  function Join(words: seq<Text>): Text {
    if words == [] then "" else if |words| == 1 then words[0] else words[0] + " " + Join(words[1..])
  }

  function CollapseSpace(s: Text): Text {
    Join(Fields(s))
  }

  /** Where a reader stands who collapses white space one character at a time. */
  datatype Standing = Start | InWord | AfterWord

  function Squeeze(s: Text, at: Standing): Text {
    if s == "" then ""
    else if IsSpace(s[0]) then Squeeze(s[1..], if at == Start then Start else AfterWord)
    else (if at == AfterWord then " " else "") + [s[0]] + Squeeze(s[1..], InWord)
  }

  function After(s: Text, at: Standing): Standing {
    if s == "" then at
    else if IsSpace(s[0]) then After(s[1..], if at == Start then Start else AfterWord)
    else After(s[1..], InWord)
  }

  lemma {:induction false} SqueezeWord(s: Text)
    requires s != "" && !IsSpace(s[0])
    ensures Squeeze(s, InWord) == s[..WordLength(s)] + Squeeze(s[WordLength(s)..], AfterWord)
  {
    if |s| > 1 && !IsSpace(s[1]) {
      SqueezeWord(s[1..]);
      assert s[..WordLength(s)] == [s[0]] + s[1..][..WordLength(s[1..])];
      assert s[1..][WordLength(s[1..])..] == s[WordLength(s)..];
    } else {
      assert s[..1] == [s[0]];
    }
  }

  lemma {:induction false} SqueezeIsCollapse(s: Text)
    ensures Squeeze(s, Start) == CollapseSpace(s)
    ensures Squeeze(s, AfterWord) == if Fields(s) == [] then "" else " " + CollapseSpace(s)
    decreases |s|
  {
    if s != "" {
      if IsSpace(s[0]) {
        SqueezeIsCollapse(s[1..]);
      } else {
        SqueezeWord(s);
        SqueezeIsCollapse(s[WordLength(s)..]);
        assert Fields(s)[1..] == Fields(s[WordLength(s)..]);
      }
    }
  }

  lemma {:induction false} SqueezeConcat(a: Text, b: Text, at: Standing)
    ensures Squeeze(a + b, at) == Squeeze(a, at) + Squeeze(b, After(a, at))
    decreases |a|
  {
    if a == "" {
      assert a + b == b;
    } else {
      assert (a + b)[1..] == a[1..] + b;
      SqueezeConcat(a[1..], b, if !IsSpace(a[0]) then InWord else if at == Start then Start else AfterWord);
    }
  }

  // ---------------------------------------------------------------- what the guard refuses

  /** The listed phrases, by their words. */
  const PHRASES: seq<seq<Text>> := [
    ["CONCURRENTLY"], ["VACUUM"], ["CLUSTER"], ["DISCARD", "ALL"], ["CREATE", "DATABASE"], ["DROP", "DATABASE"],
    ["CREATE", "TABLESPACE"], ["DROP", "TABLESPACE"], ["CREATE", "SUBSCRIPTION"], ["DROP", "SUBSCRIPTION"],
    ["SET", "TABLESPACE"], ["ALTER", "SYSTEM"]]

  predicate WordByte(c: char) {
    '0' <= c <= '9' || 'A' <= c <= 'Z' || 'a' <= c <= 'z' || c == '_'
  }

  /** \s* from `p` to `q`. */
  predicate PatternSpace(u: Text, p: nat, q: nat) {
    p <= q <= |u| && forall k | p <= k < q :: u[k] in {' ', '\t', '\n', '\r'} || u[k] as int == 0x0C
  }

  /** (DATABASE|SCHEMA|SYSTEM)\b at `p`. */
  predicate ReindexTarget(u: Text, p: nat) {
    exists w | w in ["DATABASE", "SCHEMA", "SYSTEM"] ::
      OccursAt(u, w, p) && (p + |w| == |u| || !WordByte(u[p + |w|]))
  }

  /** \bREINDEX\s*(\([^)]*\)\s*)?(DATABASE|SCHEMA|SYSTEM)\b at `i`. */
  predicate ReindexAt(u: Text, i: nat) {
    && OccursAt(u, "REINDEX", i) && (i == 0 || !WordByte(u[i - 1]))
    && exists a | i + 7 <= a <= |u| :: PatternSpace(u, i + 7, a) &&
         (ReindexTarget(u, a) ||
          exists c, d | a < c < d <= |u| ::
            && u[a] == '(' && u[c] == ')' && ')' !in u[a + 1..c]
            && PatternSpace(u, c + 1, d) && ReindexTarget(u, d))
  }

  predicate MatchesReindex(body: Text) {
    exists i | 0 <= i <= |body| :: ReindexAt(Upper(body), i)
  }

  predicate Refused(body: Text) {
    MatchesReindex(body) || exists p | p in PHRASES :: HasPhrase(body, Join(p))
  }

  datatype Refusal = Reindex | Phrase(words: seq<Text>)

  /** The phrase stands in the body's stripped or in its raw form. */
  predicate Found(body: Text, words: seq<Text>) {
    HasPhrase(CollapseSpace(Strip(body)), Join(words)) || HasPhrase(CollapseSpace(body), Join(words))
  }

  predicate ReindexFound(body: Text) {
    MatchesReindex(CollapseSpace(Strip(body))) || MatchesReindex(CollapseSpace(body))
  }

  /** The refusal a body gets: the pattern before the phrases, and of those the first in the list. */
  ghost predicate RefusedFor(body: Text, why: Refusal) {
    if why.Reindex? then ReindexFound(body)
    else
      && !ReindexFound(body)
      && exists k :: 0 <= k < |PHRASES| && why.words == PHRASES[k] && Found(body, PHRASES[k])
                     && forall j | 0 <= j < k :: !Found(body, PHRASES[j])
  }

  /** Refuses exactly when there is something to refuse, for the first reason there is. */
  method RejectNonTransactional(body: Text) returns (r: Option<Refusal>)
    ensures r.Some? <==> Refused(CollapseSpace(Strip(body))) || Refused(CollapseSpace(body))
    ensures r.Some? ==> RefusedFor(body, r.value)
  {
    hide HasPhrase, MatchesReindex, CollapseSpace, Strip, Join;
    var text := StripSQLComments(body);
    var stripped, raw := CollapseSpace(text), CollapseSpace(body);
    if MatchesReindex(stripped) || MatchesReindex(raw) {
      return Some(Reindex);
    }
    for i := 0 to |PHRASES|
      invariant forall k | 0 <= k < i :: !Found(body, PHRASES[k])
    {
      PhraseIsNotEmpty(PHRASES[i]);
      var inStripped := ContainsPhrase(stripped, Join(PHRASES[i]));
      var inRaw := ContainsPhrase(raw, Join(PHRASES[i]));
      if inStripped || inRaw {
        assert Found(body, PHRASES[i]);
        return Some(Phrase(PHRASES[i]));
      }
    }
    NoneFound(body);
    return None;
  }

  lemma PhraseIsNotEmpty(words: seq<Text>)
    requires words in PHRASES
    ensures Join(words) != ""
  {
    hide Join;
    PhrasesAreWords();
    JoinIsNotEmpty(words);
  }

  lemma NoneFound(body: Text)
    requires !ReindexFound(body) && forall k | 0 <= k < |PHRASES| :: !Found(body, PHRASES[k])
    ensures !Refused(CollapseSpace(Strip(body))) && !Refused(CollapseSpace(body))
  {
    hide HasPhrase, MatchesReindex, CollapseSpace, Strip, Join;
    forall p | p in PHRASES
      ensures !Found(body, p)
    {
      var k :| 0 <= k < |PHRASES| && PHRASES[k] == p;
    }
  }

  predicate IsWord(w: Text) {
    w != "" && forall i | 0 <= i < |w| :: 'A' <= w[i] <= 'Z'
  }

  predicate AreWords(words: seq<Text>) {
    words != [] && forall i | 0 <= i < |words| :: IsWord(words[i])
  }

  lemma WordsOfPhrases()
    ensures IsWord("CONCURRENTLY") && IsWord("VACUUM") && IsWord("CLUSTER") && IsWord("DISCARD") && IsWord("ALL")
    ensures IsWord("CREATE") && IsWord("DROP") && IsWord("SET") && IsWord("ALTER") && IsWord("SYSTEM")
    ensures IsWord("DATABASE") && IsWord("TABLESPACE") && IsWord("SUBSCRIPTION")
  {
  }

  lemma PhrasesAreWords()
    ensures forall p | p in PHRASES :: AreWords(p)
  {
    hide IsWord;
    WordsOfPhrases();
  }

  lemma JoinIsNotEmpty(words: seq<Text>)
    requires AreWords(words)
    ensures Join(words) != ""
  {
    assert IsWord(words[0]);
  }

  // ---------------------------------------------------------------- completeness

  /** What may continue an identifier, in either letter case. */
  predicate Ident(c: char) {
    'a' <= c <= 'z' || 'A' <= c <= 'Z' || '0' <= c <= '9' || c == '_' || c == '$'
  }

  lemma IdentIsFolded(c: char)
    ensures Ident(c) <==> IsIdent(UpperChar(c))
  {
  }

  /** `x` is `w`, which has no small letters, in some letter case. */
  predicate InAnyCase(x: Text, w: Text) {
    |x| == |w| && forall i | 0 <= i < |x| :: x[i] == w[i] || ('A' <= w[i] <= 'Z' && x[i] as int == w[i] as int + 32)
  }

  predicate Capital(w: Text) {
    forall i | 0 <= i < |w| :: 'A' <= w[i] <= 'Z' || w[i] == ' '
  }

  lemma AnyCaseIsFolded(x: Text, w: Text)
    requires Capital(w)
    ensures InAnyCase(x, w) <==> Upper(x) == w
  {
    if Upper(x) == w {
      forall i | 0 <= i < |x| ensures x[i] == w[i] || ('A' <= w[i] <= 'Z' && x[i] as int == w[i] as int + 32) {
        assert w[i] == UpperChar(x[i]);
      }
    }
  }

  /** White space in a source text. */
  predicate White(g: Text) {
    forall i | 0 <= i < |g| :: g[i] in {' ', '\t', '\n', '\r'} || g[i] as int == 0x0B || g[i] as int == 0x0C
  }

  lemma WhiteIsBlank(g: Text)
    requires White(g)
    ensures Blank(g)
  {
  }

  /** The words stand at the start of `s` in any letter case, white space between them, `rest` after them. */
  ghost predicate Spelled(s: Text, words: seq<Text>, rest: Text) {
    && words != [] && |words[0]| <= |s| && InAnyCase(s[..|words[0]|], words[0])
    && var t := s[|words[0]|..];
       if |words| == 1 then t == rest
       else exists n | 0 < n <= |t| :: White(t[..n]) && Spelled(t[n..], words[1..], rest)
  }

  predicate IsLetter(c: char) {
    'A' <= UpperChar(c) <= 'Z'
  }

  lemma LettersOf(x: Text)
    requires IsWord(Upper(x))
    ensures x != "" && forall i | 0 <= i < |x| :: IsLetter(x[i])
  {
    forall i | 0 <= i < |x| ensures IsLetter(x[i]) { assert 'A' <= Upper(x)[i] <= 'Z'; }
  }

  lemma LetterIsNoSpace(c: char)
    requires IsLetter(c)
    ensures !IsSpace(c)
  {
  }

  /** A separator, if one is due. */
  function Due(at: Standing): Text {
    if at == AfterWord then " " else ""
  }

  lemma SqueezeOne(c: char, t: Text, at: Standing)
    requires !IsSpace(c)
    ensures Squeeze([c] + t, at) == Due(at) + ([c] + Squeeze(t, InWord)) && After([c] + t, at) == After(t, InWord)
  {
    hide IsSpace;
    assert ([c] + t)[1..] == t;
  }

  lemma {:induction false} SqueezeLetters(x: Text, at: Standing)
    requires x != "" && forall i | 0 <= i < |x| :: IsLetter(x[i])
    ensures Squeeze(x, at) == Due(at) + x && After(x, at) == InWord
    decreases |x|
  {
    hide IsLetter, IsSpace, Due, Squeeze, After;
    LetterIsNoSpace(x[0]);
    SqueezeOne(x[0], x[1..], at);
    if |x| > 1 {
      SqueezeLetters(x[1..], InWord);
      NothingDue(x[1..]);
    } else {
      SqueezeNothing();
    }
    assert x == [x[0]] + x[1..];
  }

  lemma NothingDue(t: Text)
    ensures Due(InWord) + t == t
  {
  }

  lemma SqueezeNothing()
    ensures Squeeze("", InWord) == "" && After("", InWord) == InWord
  {
  }

  lemma {:induction false} SqueezeBlank(g: Text, at: Standing)
    requires Blank(g) && at != Start
    ensures Squeeze(g, at) == "" && After(g, at) == if g == "" then at else AfterWord
    decreases |g|
  {
    if g != "" {
      SqueezeBlank(g[1..], AfterWord);
    }
  }

  lemma UpperSpaced(x: Text, z: Text)
    ensures Upper(x + (" " + z)) == Upper(x) + (" " + Upper(z))
  {
  }

  lemma SqueezeThree(x: Text, g: Text, t: Text, at: Standing)
    requires x != "" && g != "" && Blank(g) && forall i | 0 <= i < |x| :: IsLetter(x[i])
    ensures Squeeze(x + (g + t), at) == Due(at) + (x + Squeeze(t, AfterWord))
  {
    hide IsLetter, Blank, Squeeze, After, Due;
    var gt := g + t;
    assert Squeeze(gt, InWord) == Squeeze(t, AfterWord) by {
      SqueezeConcat(g, t, InWord);
      SqueezeBlank(g, InWord);
      assert "" + Squeeze(t, AfterWord) == Squeeze(t, AfterWord);
    }
    SqueezeConcat(x, gt, at);
    SqueezeLetters(x, at);
    Concatenated(Due(at), x, Squeeze(t, AfterWord));
  }

  lemma Respaced(x: Text, z: Text, r: Text)
    ensures x + (" " + (z + r)) == (x + (" " + z)) + r
  {
  }

  /** Where a phrase of several words spells its second word. */
  lemma SecondWord(s: Text, words: seq<Text>, rest: Text) returns (n: nat)
    requires AreWords(words) && Spelled(s, words, rest) && |words| > 1
    ensures var t := s[|words[0]|..];
            0 < n <= |t| && Blank(t[..n]) && AreWords(words[1..]) && Spelled(t[n..], words[1..], rest)
  {
    var t := s[|words[0]|..];
    n :| 0 < n <= |t| && White(t[..n]) && Spelled(t[n..], words[1..], rest);
    WhiteIsBlank(t[..n]);
  }

  lemma WordInAnyCase(x: Text, w: Text)
    requires IsWord(w) && InAnyCase(x, w)
    ensures x != "" && Upper(x) == w && forall i | 0 <= i < |x| :: IsLetter(x[i])
  {
    hide Upper, InAnyCase;
    AnyCaseIsFolded(x, w);
    LettersOf(x);
  }

  lemma FirstWord(s: Text, words: seq<Text>, rest: Text)
    requires AreWords(words) && Spelled(s, words, rest)
    ensures words != [] && 0 < |words[0]| <= |s| && Upper(s[..|words[0]|]) == words[0]
    ensures forall i | 0 <= i < |words[0]| :: IsLetter(s[..|words[0]|][i])
    ensures |words| == 1 ==> s[|words[0]|..] == rest && Join(words) == words[0]
    ensures |words| > 1 ==> Join(words) == words[0] + (" " + Join(words[1..]))
  {
    hide Upper, InAnyCase, IsWord, IsLetter, White;
    assert IsWord(words[0]);
    WordInAnyCase(s[..|words[0]|], words[0]);
    if |words| > 1 { Concatenated(words[0], " ", Join(words[1..])); }
  }

  /** Collapsed, a spelled phrase is the phrase itself, in some letter case. */
  lemma {:induction false} SqueezeSpells(s: Text, words: seq<Text>, rest: Text, at: Standing) returns (y: Text)
    requires AreWords(words) && Spelled(s, words, rest)
    ensures Squeeze(s, at) == Due(at) + (y + Squeeze(rest, InWord))
    ensures Upper(y) == Join(words)
    decreases |words|
  {
    hide IsLetter, AreWords, Spelled, Blank, Squeeze, After, Upper, Join;
    FirstWord(s, words, rest);
    var x, t := s[..|words[0]|], s[|words[0]|..];
    assert s == x + t;
    if |words| == 1 {
      y := x;
      SqueezeConcat(x, t, at);
      SqueezeLetters(x, at);
      Concatenated(Due(at), x, Squeeze(t, InWord));
    } else {
      var n := SecondWord(s, words, rest);
      assert t == t[..n] + t[n..];
      SqueezeThree(x, t[..n], t[n..], at);
      var z := SqueezeSpells(t[n..], words[1..], rest, AfterWord);
      y := x + (" " + z);
      UpperSpaced(x, z);
      Respaced(x, z, Squeeze(rest, InWord));
    }
  }

  /** The collapse of a prefix ends in a space, or as the prefix does. */
  lemma {:induction false} SqueezeEnd(a: Text, at: Standing)
    requires a != "" && Squeeze(a, at) != "" && After(a, at) == InWord
    ensures Squeeze(a, at)[|Squeeze(a, at)| - 1] == a[|a| - 1]
    decreases |a|
  {
    var at' := if !IsSpace(a[0]) then InWord else if at == Start then Start else AfterWord;
    if a[1..] == "" {
    } else if Squeeze(a[1..], at') == "" {
      NothingSqueezed(a[1..], at');
    } else {
      SqueezeEnd(a[1..], at');
    }
  }

  lemma {:induction false} NothingSqueezed(a: Text, at: Standing)
    requires Squeeze(a, at) == "" && a != ""
    ensures After(a, at) != InWord
    decreases |a|
  {
    if a[1..] != "" {
      NothingSqueezed(a[1..], if at == Start then Start else AfterWord);
    }
  }

  lemma {:induction false} StartSqueezesNothing(a: Text)
    requires After(a, Start) == Start
    ensures Squeeze(a, Start) == ""
    decreases |a|
  {
    if a != "" {
      if IsSpace(a[0]) {
        StartSqueezesNothing(a[1..]);
      } else {
        NeverBackToStart(a[1..], InWord);
        assert false;
      }
    }
  }

  lemma {:induction false} NeverBackToStart(a: Text, at: Standing)
    requires at != Start
    ensures After(a, at) != Start
    decreases |a|
  {
    if a != "" { NeverBackToStart(a[1..], if IsSpace(a[0]) then AfterWord else InWord); }
  }

  predicate LeftOpen(a: Text) {
    a == "" || !Ident(a[|a| - 1])
  }

  predicate RightOpen(b: Text) {
    b == "" || !Ident(b[0])
  }

  lemma LeftStaysOpen(a: Text)
    requires LeftOpen(a)
    ensures LeftOpen(Squeeze(a, Start) + Due(After(a, Start)))
  {
    if After(a, Start) == Start {
      StartSqueezesNothing(a);
    } else if After(a, Start) == InWord && Squeeze(a, Start) != "" {
      SqueezeEnd(a, Start);
    }
  }

  lemma {:induction false} RightStaysOpen(b: Text, at: Standing)
    requires (at == InWord && RightOpen(b)) || at == AfterWord
    ensures RightOpen(Squeeze(b, at))
    decreases |b|
  {
    if b != "" && IsSpace(b[0]) { RightStaysOpen(b[1..], AfterWord); }
  }

  lemma DelimitedInside(a: Text, y: Text, b: Text, phrase: Text)
    requires Upper(y) == phrase && LeftOpen(a) && RightOpen(b)
    ensures HasPhrase(a + y + b, phrase)
  {
    var s := a + y + b;
    if a != "" { IdentIsFolded(a[|a| - 1]); }
    if b != "" { IdentIsFolded(b[0]); }
    assert Upper(s)[|a|..|a| + |phrase|] == phrase;
    assert DelimitedAt(Upper(s), phrase, |a|);
  }

  lemma RegroupFour(a: Text, b: Text, c: Text, d: Text)
    ensures (a + b) + c + d == a + (b + (c + d))
  {
  }

  /** A phrase spelled with white space between its words is found once the text is collapsed. */
  lemma CollapsedPhraseIsFound(a: Text, s: Text, words: seq<Text>, rest: Text)
    requires AreWords(words) && Spelled(s, words, rest) && LeftOpen(a) && RightOpen(rest)
    ensures HasPhrase(CollapseSpace(a + s), Join(words))
  {
    hide Squeeze, After, CollapseSpace, HasPhrase, Spelled, LeftOpen, RightOpen, Upper, Join, AreWords, Due;
    var at := After(a, Start);
    SqueezeIsCollapse(a + s);
    SqueezeConcat(a, s, Start);
    var y := SqueezeSpells(s, words, rest, at);
    LeftStaysOpen(a);
    RightStaysOpen(rest, InWord);
    var left, right := Squeeze(a, Start) + Due(at), Squeeze(rest, InWord);
    DelimitedInside(left, y, right, Join(words));
    RegroupFour(Squeeze(a, Start), Due(at), y, right);
  }

  // ---------------------------------------------------------------- among comments

  /** What may separate the words of a phrase: white space, and comments of either kind, nested to any depth. */
  predicate IsGap(l: Lexeme) {
    l.Line? || l.Block? || (l.Other? && White([l.c]))
  }

  /** A word, letter by letter, in any letter case. */
  predicate IsWordOf(ls: seq<Lexeme>, w: Text) {
    (forall i | 0 <= i < |ls| :: ls[i].Other?) && InAnyCase(Chars(ls), w)
  }

  function Chars(ls: seq<Lexeme>): (s: Text)
    ensures |s| == |ls|
  {
    if ls == [] then "" else [if ls[0].Other? then ls[0].c else ' '] + Chars(ls[1..])
  }

  /** The words of a phrase, with something that separates between each two of them. */
  ghost predicate PhraseAmongGaps(ls: seq<Lexeme>, words: seq<Text>) {
    && words != [] && |words[0]| <= |ls| && IsWordOf(ls[..|words[0]|], words[0])
    && var rest := ls[|words[0]|..];
       if |words| == 1 then rest == []
       else exists n | 0 < n <= |rest| :: (forall k | 0 <= k < n :: IsGap(rest[k])) && PhraseAmongGaps(rest[n..], words[1..])
  }

  lemma {:induction false} KeptConcat(a: seq<Lexeme>, b: seq<Lexeme>)
    ensures KeptOf(a + b) == KeptOf(a) + KeptOf(b)
  {
    hide Kept;
    if a == [] {
      assert a + b == b;
    } else {
      assert (a + b)[1..] == a[1..] + b;
      KeptConcat(a[1..], b);
    }
  }

  lemma {:induction false} KeptWord(ls: seq<Lexeme>)
    requires forall i | 0 <= i < |ls| :: ls[i].Other?
    ensures KeptOf(ls) == Chars(ls)
  {
    if ls != [] { KeptWord(ls[1..]); }
  }

  lemma {:induction false} KeptGap(ls: seq<Lexeme>)
    requires forall k | 0 <= k < |ls| :: IsGap(ls[k])
    ensures White(KeptOf(ls)) && |KeptOf(ls)| >= |ls|
  {
    if ls != [] {
      KeptGap(ls[1..]);
      assert White(Kept(ls[0]));
    }
  }

  /** What is kept of the first word and what follows it. */
  lemma KeptFirst(ls: seq<Lexeme>, w: Text, tail: Text)
    requires |w| <= |ls| && IsWordOf(ls[..|w|], w)
    ensures var s := KeptOf(ls) + tail;
            && |w| <= |s| && InAnyCase(s[..|w|], w) && s[|w|..] == KeptOf(ls[|w|..]) + tail
  {
    hide InAnyCase, Kept;
    var m := |w|;
    KeptWord(ls[..m]);
    KeptConcat(ls[..m], ls[m..]);
    assert ls == ls[..m] + ls[m..];
    var s := KeptOf(ls) + tail;
    Concatenated(KeptOf(ls[..m]), KeptOf(ls[m..]), tail);
    assert s[..m] == KeptOf(ls[..m]);
  }

  lemma KeptBehindGap(ls: seq<Lexeme>, n: nat, tail: Text) returns (k: nat)
    requires 0 < n <= |ls| && forall i | 0 <= i < n :: IsGap(ls[i])
    ensures var t := KeptOf(ls) + tail;
            0 < k <= |t| && White(t[..k]) && t[k..] == KeptOf(ls[n..]) + tail
  {
    hide White, IsGap, Kept;
    KeptGap(ls[..n]);
    KeptConcat(ls[..n], ls[n..]);
    assert ls == ls[..n] + ls[n..];
    Concatenated(KeptOf(ls[..n]), KeptOf(ls[n..]), tail);
    k := |KeptOf(ls[..n])|;
    assert (KeptOf(ls) + tail)[..k] == KeptOf(ls[..n]);
  }

  /** What is kept of a phrase among comments is the phrase among spaces. */
  lemma {:induction false} KeptSpells(ls: seq<Lexeme>, words: seq<Text>, tail: Text)
    requires PhraseAmongGaps(ls, words)
    ensures Spelled(KeptOf(ls) + tail, words, tail)
    decreases |words|
  {
    hide White, InAnyCase, IsGap, IsWordOf, KeptOf;
    KeptFirst(ls, words[0], tail);
    var rest := ls[|words[0]|..];
    if |words| == 1 {
      KeptNothing(tail);
    } else {
      var n :| 0 < n <= |rest| && (forall k | 0 <= k < n :: IsGap(rest[k])) && PhraseAmongGaps(rest[n..], words[1..]);
      KeptSpells(rest[n..], words[1..], tail);
      var k := KeptBehindGap(rest, n, tail);
    }
  }

  lemma KeptNothing(tail: Text)
    ensures KeptOf([]) + tail == tail
  {
  }

  /**
   In any text written as the grammar has it: if the words of a listed phrase stand one after another,
   letter by letter, in any letter case, with any nonempty mix of white space and comments between them,
   nested to any depth, and no identifier character touches them in what is kept, the guard refuses.
   */
  lemma SplitPhraseIsRefused(before: seq<Lexeme>, phrase: seq<Lexeme>, behind: seq<Lexeme>, words: seq<Text>)
    requires words in PHRASES && PhraseAmongGaps(phrase, words)
    requires WellFormed(before + (phrase + behind), "")
    requires LeftOpen(KeptOf(before)) && RightOpen(KeptOf(behind))
    ensures Refused(CollapseSpace(Strip(Spelling(before + (phrase + behind)))))
  {
    hide Strip, Kept, Stands, CollapseSpace, HasPhrase, PhraseAmongGaps, LeftOpen, RightOpen;
    PhrasesAreWords();
    StripKeepsTheKept(before + (phrase + behind));
    KeptConcat(before, phrase + behind);
    KeptConcat(phrase, behind);
    KeptSpells(phrase, words, KeptOf(behind));
    CollapsedPhraseIsFound(KeptOf(before), KeptOf(phrase) + KeptOf(behind), words, KeptOf(behind));
  }

  /** And any listed phrase in the raw text is refused whatever the lexer makes of it. */
  lemma RawPhraseIsRefused(a: Text, s: Text, words: seq<Text>, rest: Text)
    requires words in PHRASES && Spelled(s, words, rest) && LeftOpen(a) && RightOpen(rest)
    ensures Refused(CollapseSpace(a + s))
  {
    PhrasesAreWords();
    CollapsedPhraseIsFound(a, s, words, rest);
  }

  // ---------------------------------------------------------------- what a refusal says of the text

  /** The list, as it reads. */
  const LISTED: seq<Text> := [
    "CONCURRENTLY", "VACUUM", "CLUSTER", "DISCARD ALL", "CREATE DATABASE", "DROP DATABASE", "CREATE TABLESPACE",
    "DROP TABLESPACE", "CREATE SUBSCRIPTION", "DROP SUBSCRIPTION", "SET TABLESPACE", "ALTER SYSTEM"]

  lemma PhrasesAsListed()
    ensures |PHRASES| == |LISTED| && forall i | 0 <= i < |PHRASES| :: Join(PHRASES[i]) == LISTED[i] && Capital(LISTED[i])
  {
    FirstListed();
    MiddleListed();
    LastListed();
    PhrasesAreWords();
    hide Join, Capital, AreWords;
    forall i | 0 <= i < |PHRASES| ensures Capital(Join(PHRASES[i])) { JoinIsCapital(PHRASES[i]); }
  }

  lemma FirstListed()
    ensures forall i | 0 <= i < 7 :: Join(PHRASES[i]) == LISTED[i]
  {
    hide Join;
    forall i | 0 <= i < 7
      ensures Join(PHRASES[i]) == LISTED[i]
    {
      if i < 3 { JoinsOne(PHRASES[i][0]); } else { JoinsTwo(PHRASES[i][0], PHRASES[i][1]); }
    }
  }

  lemma MiddleListed()
    ensures forall i | 7 <= i < 10 :: Join(PHRASES[i]) == LISTED[i]
  {
    hide Join;
    JoinsTwo("DROP", "TABLESPACE");
    JoinsTwo("CREATE", "SUBSCRIPTION");
    JoinsTwo("DROP", "SUBSCRIPTION");
  }

  lemma LastListed()
    ensures forall i | 10 <= i < 12 :: Join(PHRASES[i]) == LISTED[i]
  {
    hide Join;
    JoinsTwo("SET", "TABLESPACE");
    JoinsTwo("ALTER", "SYSTEM");
  }

  lemma {:induction false} JoinIsCapital(words: seq<Text>)
    requires AreWords(words)
    ensures Capital(Join(words))
  {
    assert IsWord(words[0]);
    if |words| > 1 { JoinIsCapital(words[1..]); }
  }

  lemma JoinsOne(a: Text)
    ensures Join([a]) == a
  {
  }

  lemma JoinsTwo(a: Text, b: Text)
    ensures Join([a, b]) == a + " " + b
  {
    assert [a, b][1..] == [b];
  }

  /**
   A phrase is found exactly where it stands in some letter case with no letter, digit, underscore or
   dollar sign touching it.
   */
  lemma HasPhraseMeans(body: Text, phrase: Text)
    requires Capital(phrase)
    ensures HasPhrase(body, phrase) <==> exists k :: StandsOpen(body, phrase, k)
  {
    hide Capital, StandsOpen, DelimitedAt, Upper;
    forall k
      ensures 0 <= k <= |body| && DelimitedAt(Upper(body), phrase, k) <==> StandsOpen(body, phrase, k)
    {
      DelimitedMeans(body, phrase, k);
    }
  }

  /** The phrase stands at `k`, with nothing of an identifier on either side. */
  predicate StandsOpen(body: Text, phrase: Text, k: int) {
    Stretch(body, phrase, k) && LeftOpen(body[..k]) && RightOpen(body[k + |phrase|..])
  }

  lemma DelimitedMeans(body: Text, phrase: Text, k: int)
    requires Capital(phrase)
    ensures 0 <= k <= |body| && DelimitedAt(Upper(body), phrase, k) <==> StandsOpen(body, phrase, k)
  {
    hide Capital, OccursAt, InAnyCase, Ident, IsIdent, UpperChar;
    StretchIsOccurrence(body, phrase, k);
    StretchIsInside(body, phrase, k);
    if Stretch(body, phrase, k) {
      if k > 0 { IdentIsFolded(body[k - 1]); }
      if k + |phrase| < |body| { IdentIsFolded(body[k + |phrase|]); }
    }
  }

  lemma StretchIsInside(body: Text, phrase: Text, k: int)
    ensures OccursAt(Upper(body), phrase, k) ==> 0 <= k && k + |phrase| <= |body|
  {
  }

  predicate Stretch(body: Text, phrase: Text, k: int) {
    0 <= k && k + |phrase| <= |body| && InAnyCase(body[k..k + |phrase|], phrase)
  }

  lemma StretchIsOccurrence(body: Text, phrase: Text, k: int)
    requires Capital(phrase)
    ensures Stretch(body, phrase, k) <==> OccursAt(Upper(body), phrase, k)
  {
    if 0 <= k && k + |phrase| <= |body| {
      AnyCaseIsFolded(body[k..k + |phrase|], phrase);
      assert Upper(body)[k..k + |phrase|] == Upper(body[k..k + |phrase|]);
    }
  }

  // ---------------------------------------------------------------- the pattern, on the text as it is written

  predicate WordChar(c: char) {
    'a' <= c <= 'z' || 'A' <= c <= 'Z' || '0' <= c <= '9' || c == '_'
  }

  /** Nothing but blanks, tabs and line ends from `p` to `q`. */
  predicate Spaces(body: Text, p: nat, q: nat) {
    p <= q <= |body| && forall k | p <= k < q :: body[k] in {' ', '\t', '\n', '\r'} || body[k] as int == 0x0C
  }

  /** One of the three targets, in any letter case, no word going on behind it. */
  predicate TargetWritten(body: Text, p: nat) {
    || WordEndsAt(body, "DATABASE", p) || WordEndsAt(body, "SCHEMA", p) || WordEndsAt(body, "SYSTEM", p)
  }

  predicate WordEndsAt(body: Text, w: Text, p: nat) {
    Stretch(body, w, p) && (p + |w| == |body| || !WordChar(body[p + |w|]))
  }

  /** REINDEX at `i`, no word running into it, perhaps options in parentheses, then a target. */
  ghost predicate ReindexWritten(body: Text, i: nat) {
    && Stretch(body, "REINDEX", i) && (i == 0 || !WordChar(body[i - 1]))
    && exists a | i + 7 <= a <= |body| :: Spaces(body, i + 7, a) &&
         (TargetWritten(body, a) ||
          exists c, d | a < c < d <= |body| ::
            && body[a] == '(' && body[c] == ')' && ')' !in body[a + 1..c]
            && Spaces(body, c + 1, d) && TargetWritten(body, d))
  }

  lemma FoldedChars(c: char)
    ensures WordByte(UpperChar(c)) <==> WordChar(c)
    ensures UpperChar(c) in {' ', '\t', '\n', '\r'} || UpperChar(c) as int == 0x0C <==> c in {' ', '\t', '\n', '\r'} || c as int == 0x0C
    ensures (UpperChar(c) == '(' <==> c == '(') && (UpperChar(c) == ')' <==> c == ')')
  {
  }

  lemma FoldedSpaces(body: Text, p: nat, q: nat)
    ensures PatternSpace(Upper(body), p, q) <==> Spaces(body, p, q)
  {
    hide UpperChar;
    if q <= |body| {
      forall k | p <= k < q
        ensures Upper(body)[k] in {' ', '\t', '\n', '\r'} || Upper(body)[k] as int == 0x0C <==> body[k] in {' ', '\t', '\n', '\r'} || body[k] as int == 0x0C
      {
        FoldedChars(body[k]);
      }
    }
  }

  lemma FoldedWord(body: Text, w: Text, p: nat)
    requires Capital(w)
    ensures WordEndsAt(body, w, p) <==> OccursAt(Upper(body), w, p) && (p + |w| == |body| || !WordByte(Upper(body)[p + |w|]))
  {
    hide UpperChar, WordByte, WordChar, Capital, InAnyCase;
    StretchIsOccurrence(body, w, p);
    if p + |w| < |body| { FoldedChars(body[p + |w|]); }
  }

  lemma FoldedTarget(body: Text, p: nat)
    ensures ReindexTarget(Upper(body), p) <==> TargetWritten(body, p)
  {
    TargetsAreCapital();
    hide Capital, WordEndsAt, OccursAt, WordByte, Upper;
    FoldedWord(body, "DATABASE", p);
    FoldedWord(body, "SCHEMA", p);
    FoldedWord(body, "SYSTEM", p);
    TargetMeans(Upper(body), p);
  }

  lemma TargetsAreCapital()
    ensures Capital("DATABASE") && Capital("SCHEMA") && Capital("SYSTEM") && Capital("REINDEX")
  {
  }

  lemma TargetMeans(u: Text, p: nat)
    ensures ReindexTarget(u, p) <==>
              || (OccursAt(u, "DATABASE", p) && (p + 8 == |u| || !WordByte(u[p + 8])))
              || (OccursAt(u, "SCHEMA", p) && (p + 6 == |u| || !WordByte(u[p + 6])))
              || (OccursAt(u, "SYSTEM", p) && (p + 6 == |u| || !WordByte(u[p + 6])))
  {
    hide WordByte;
    var ws := ["DATABASE", "SCHEMA", "SYSTEM"];
    assert ws[0] in ws && ws[1] in ws && ws[2] in ws;
  }

  lemma FoldedOptions(body: Text, a: nat, c: nat)
    requires a < c < |body|
    ensures (Upper(body)[a] == '(' && Upper(body)[c] == ')' && ')' !in Upper(body)[a + 1..c]) <==>
            (body[a] == '(' && body[c] == ')' && ')' !in body[a + 1..c])
  {
    hide UpperChar;
    FoldedChars(body[a]);
    FoldedChars(body[c]);
    var u, b := Upper(body)[a + 1..c], body[a + 1..c];
    forall k | 0 <= k < |b|
      ensures u[k] == ')' <==> b[k] == ')'
    {
      FoldedChars(body[a + 1 + k]);
    }
  }

  /** The pattern matches exactly where it is written, in any letter case. */
  lemma ReindexMeans(body: Text, i: nat)
    requires i <= |body|
    ensures ReindexAt(Upper(body), i) <==> ReindexWritten(body, i)
  {
    TargetsAreCapital();
    StretchIsOccurrence(body, "REINDEX", i);
    if i > 0 { FoldedChars(body[i - 1]); }
    hide Capital, UpperChar, WordByte, WordChar, InAnyCase, Upper, PatternSpace, Spaces, ReindexTarget, TargetWritten;
    forall p: nat, q: nat ensures PatternSpace(Upper(body), p, q) <==> Spaces(body, p, q) { FoldedSpaces(body, p, q); }
    forall p: nat ensures ReindexTarget(Upper(body), p) <==> TargetWritten(body, p) { FoldedTarget(body, p); }
    forall a: nat, c: nat | a < c < |body|
      ensures (Upper(body)[a] == '(' && Upper(body)[c] == ')' && ')' !in Upper(body)[a + 1..c]) <==>
              (body[a] == '(' && body[c] == ')' && ')' !in body[a + 1..c])
    {
      FoldedOptions(body, a, c);
    }
  }
}
