/**
 What the lexer is to recognise, written down as a grammar that does not mention it: texts are built
 from lexemes, and each lexeme says what it is spelled as and what is kept of it. On every text the
 lexer of SqlLexer.dfy keeps just that.
 */
module SqlGrammar {
  import opened Prelude
  import opened SqlLexer

  // ---------------------------------------------------------------- block comments

  /** A character of a comment, or a comment inside it. */
  datatype Piece = Char(c: char) | Nested(inner: seq<Piece>)

  function Written(ps: seq<Piece>): Text
    decreases ps, 0
  {
    if ps == [] then "" else WrittenOne(ps[0]) + Written(ps[1..])
  }

  function WrittenOne(p: Piece): Text
    decreases p, 0
  {
    match p
    case Char(c) => [c]
    case Nested(inner) => "/*" + (Written(inner) + "*/")
  }

  /** No stray marker: with `after` behind it, none begins at a character that is not inside a comment's own markers. */
  predicate Clean(ps: seq<Piece>, after: Text)
    decreases ps, 1
  {
    ps == [] ||
    (&& Clean(ps[1..], after)
     && match ps[0]
        case Char(c) =>
          var s := [c] + (Written(ps[1..]) + after);
          !("/*" <= s) && !("*/" <= s)
        case Nested(inner) => Clean(inner, "*/" + (Written(ps[1..]) + after)))
  }

  /** A comment never closed: it is clean up to the end of the text, or up to another such inside it. */
  ghost predicate Unclosed(s: Text)
    decreases |s|
  {
    exists ps, rest: Text | |rest| < |s| :: Opening(s, ps, rest) && (rest == "" || Unclosed(rest))
  }

  ghost predicate Opening(s: Text, ps: seq<Piece>, rest: Text) {
    s == "/*" + (Written(ps) + rest) && Clean(ps, rest)
  }

  // ---------------------------------------------------------------- literals and dollar bodies

  /** The content of a literal as it is written: its quote doubled. */
  function Doubled(content: Text, q: char): Text {
    if content == "" then "" else (if content[0] == q then [q, q] else [content[0]]) + Doubled(content[1..], q)
  }

  predicate IsTag(tag: Text) {
    forall i | 0 <= i < |tag| :: 'a' <= tag[i] <= 'z' || 'A' <= tag[i] <= 'Z' || '0' <= tag[i] <= '9' || tag[i] == '_'
  }

  function Delimiter(tag: Text): Text {
    "$" + (tag + "$")
  }

  /** `p` stands nowhere in `s` before `end`. */
  predicate NotBefore(s: Text, p: Text, end: nat) {
    forall k | 0 <= k < end :: !(k <= |s| && p <= s[k..])
  }

  // ---------------------------------------------------------------- lexemes

  datatype Lexeme =
    | Line(text: Text)                 // -- … to the end of its line
    | LastLine(text: Text)             // -- … to the end of the text
    | Block(pieces: seq<Piece>)
    | OpenBlock(text: Text)
    | Literal(q: char, content: Text)
    | OpenLiteral(q: char, content: Text)
    | Dollar(tag: Text, body: Text)
    | OpenDollar(tag: Text, body: Text)
    | Other(c: char)                   // any other character, by itself

  function SpelledAs(l: Lexeme): Text {
    match l
    case Line(text) => "--" + (text + "\n")
    case LastLine(text) => "--" + text
    case Block(ps) => "/*" + (Written(ps) + "*/")
    case OpenBlock(text) => text
    case Literal(q, content) => [q] + (Doubled(content, q) + [q])
    case OpenLiteral(q, content) => [q] + Doubled(content, q)
    case Dollar(tag, body) => Delimiter(tag) + (body + Delimiter(tag))
    case OpenDollar(tag, body) => Delimiter(tag) + body
    case Other(c) => [c]
  }

  /** What is kept of it. */
  function Kept(l: Lexeme): Text {
    match l
    case Line(_) => "\n"
    case LastLine(_) => ""
    case Block(_) => " "
    case OpenBlock(_) => " "
    case Literal(_, _) => SpelledAs(l)
    case OpenLiteral(_, _) => SpelledAs(l)
    case Dollar(_, _) => " "
    case OpenDollar(_, _) => " "
    case Other(c) => [c]
  }

  /** When a lexeme may stand in front of `rest`. */
  ghost predicate Stands(l: Lexeme, rest: Text) {
    match l
    case Line(text) => '\n' !in text
    case LastLine(text) => '\n' !in text && rest == ""
    case Block(ps) => Clean(ps, "*/" + rest)
    case OpenBlock(text) => Unclosed(text) && rest == ""
    case Literal(q, _) => q in {'\'', '"'} && (rest == "" || rest[0] != q)
    case OpenLiteral(q, _) => q in {'\'', '"'} && rest == ""
    case Dollar(tag, body) => IsTag(tag) && NotBefore(body + Delimiter(tag), Delimiter(tag), |body|)
    case OpenDollar(tag, body) => IsTag(tag) && NotBefore(body, Delimiter(tag), |body|) && rest == ""
    case Other(c) =>
      && c !in {'\'', '"'} && !("--" <= [c] + rest) && !("/*" <= [c] + rest)
      && forall tag | IsTag(tag) :: !(Delimiter(tag) <= [c] + rest)
  }

  function Spelling(ls: seq<Lexeme>): Text {
    if ls == [] then "" else SpelledAs(ls[0]) + Spelling(ls[1..])
  }

  function KeptOf(ls: seq<Lexeme>): Text {
    if ls == [] then "" else Kept(ls[0]) + KeptOf(ls[1..])
  }

  /** Each lexeme stands in front of the spelling of those after it, and of `after`. */
  ghost predicate WellFormed(ls: seq<Lexeme>, after: Text) {
    ls == [] || (Stands(ls[0], Spelling(ls[1..]) + after) && WellFormed(ls[1..], after))
  }

  // ---------------------------------------------------------------- the lexer reads block comments so

  /** When a piece may stand in front of `rest` inside a comment. */
  predicate PieceStands(p: Piece, rest: Text) {
    if p.Char? then !("/*" <= [p.c] + rest) && !("*/" <= [p.c] + rest) else Clean(p.inner, "*/" + rest)
  }

  lemma FirstPiece(ps: seq<Piece>, after: Text)
    requires ps != [] && Clean(ps, after)
    ensures Written(ps) + after == WrittenOne(ps[0]) + (Written(ps[1..]) + after)
    ensures |Written(ps)| == |WrittenOne(ps[0])| + |Written(ps[1..])|
    ensures PieceStands(ps[0], Written(ps[1..]) + after) && Clean(ps[1..], after)
  {
    Concatenated(WrittenOne(ps[0]), Written(ps[1..]), after);
  }

  lemma NoPieces(after: Text)
    ensures Written([]) == "" && "" + after == after
  {
  }

  /** Inside a comment, whatever the depth, clean pieces are passed over to their end. */
  lemma {:induction false} PassesPieces(s: Text, j: nat, depth: nat, ps: seq<Piece>, after: Text)
    requires j <= |s| && s[j..] == Written(ps) + after && Clean(ps, after) && depth > 0
    ensures j + |Written(ps)| <= |s| && s[j + |Written(ps)|..] == after
    ensures BlockEnd(s, j, depth) == BlockEnd(s, j + |Written(ps)|, depth)
    decreases ps, 1
  {
    hide BlockEnd, Written, WrittenOne, Clean, PieceStands;
    if ps == [] {
      NoPieces(after);
    } else {
      FirstPiece(ps, after);
      var k := j + |WrittenOne(ps[0])|;
      PassesPiece(s, j, depth, ps[0], Written(ps[1..]) + after);
      PassesPieces(s, k, depth, ps[1..], after);
      assert k + |Written(ps[1..])| == j + |Written(ps)|;
    }
  }

  lemma {:induction false} PassesPiece(s: Text, j: nat, depth: nat, p: Piece, rest: Text)
    requires j <= |s| && s[j..] == WrittenOne(p) + rest && depth > 0
    requires PieceStands(p, rest)
    ensures j + |WrittenOne(p)| <= |s| && s[j + |WrittenOne(p)|..] == rest
    ensures BlockEnd(s, j, depth) == BlockEnd(s, j + |WrittenOne(p)|, depth)
    decreases p, 1
  {
    hide Clean, BlockEnd;
    Behind(s, j, WrittenOne(p), rest);
    match p
    case Char(c) => StepOver(s, j, depth);
    case Nested(inner) => PassesNested(s, j, depth, inner, rest);
  }

  lemma {:induction false} PassesNested(s: Text, j: nat, depth: nat, inner: seq<Piece>, rest: Text)
    requires j <= |s| && s[j..] == "/*" + (Written(inner) + "*/") + rest && depth > 0
    requires Clean(inner, "*/" + rest)
    ensures BlockEnd(s, j, depth) == BlockEnd(s, j + 4 + |Written(inner)|, depth)
    decreases inner, 2
  {
    hide Clean, BlockEnd, Written;
    var w := Written(inner);
    Regroup("/*", w, "*/", rest);
    Behind(s, j, "/*", w + ("*/" + rest));
    StepOver(s, j, depth);
    PassesPieces(s, j + 2, depth + 1, inner, "*/" + rest);
    Behind(s, j + 2 + |w|, "*/", rest);
    StepOver(s, j + 2 + |w|, depth + 1);
  }

  lemma Regroup(a: Text, b: Text, c: Text, d: Text)
    ensures a + (b + c) + d == a + (b + (c + d))
  {
  }

  lemma Behind(s: Text, j: nat, w: Text, rest: Text)
    requires j <= |s| && s[j..] == w + rest
    ensures j + |w| <= |s| && s[j + |w|..] == rest
  {
    assert s[j..][|w|..] == s[j + |w|..];
  }

  /** One step of the reading, in terms of what stands there. */
  lemma StepOver(s: Text, j: nat, depth: nat)
    requires j < |s| && depth > 0
    ensures "/*" <= s[j..] ==> BlockEnd(s, j, depth) == BlockEnd(s, j + 2, depth + 1)
    ensures "*/" <= s[j..] ==> BlockEnd(s, j, depth) == BlockEnd(s, j + 2, depth - 1)
    ensures !("/*" <= s[j..]) && !("*/" <= s[j..]) ==> BlockEnd(s, j, depth) == BlockEnd(s, j + 1, depth)
  {
    OpensMeans(s[j..]);
  }

  lemma OpensMeans(s: Text)
    ensures Opens(s, '/', '*') <==> "/*" <= s
    ensures Opens(s, '*', '/') <==> "*/" <= s
    ensures Opens(s, '-', '-') <==> "--" <= s
  {
  }

  /** A comment never closed runs to the end. */
  lemma {:induction false} UnclosedRunsOut(s: Text, j: nat, depth: nat)
    requires j <= |s| && Unclosed(s[j..]) && depth > 0
    ensures BlockEnd(s, j, depth) == |s|
    decreases |s| - j
  {
    hide BlockEnd, Written, Clean;
    var t := s[j..];
    var ps, rest: Text :| |rest| < |t| && Opening(t, ps, rest) && (rest == "" || Unclosed(rest));
    Behind(s, j, "/*", Written(ps) + rest);
    StepOver(s, j, depth);
    PassesPieces(s, j + 2, depth + 1, ps, rest);
    if rest != "" {
      hide Unclosed;
      UnclosedRunsOut(s, j + 2 + |Written(ps)|, depth + 1);
    } else {
      EndsAtTheEnd(s, depth + 1);
    }
  }

  lemma EndsAtTheEnd(s: Text, depth: nat)
    ensures BlockEnd(s, |s|, depth) == |s|
  {
  }

  // ---------------------------------------------------------------- one lexeme

  /** What makes a token the reading of a lexeme in front of anything. */
  lemma Reads(l: Lexeme, rest: Text, kind: Kind)
    requires SpelledAs(l) != "" && FirstToken(SpelledAs(l) + rest) == Token(kind, |SpelledAs(l)|, Kept(l))
    ensures Strip(SpelledAs(l) + rest) == Kept(l) + Strip(rest)
  {
    hide FirstToken, SpelledAs, Kept;
    var s := SpelledAs(l) + rest;
    assert s[|SpelledAs(l)|..] == rest;
  }

  lemma BlockEndsAt(s: Text, ps: seq<Piece>, rest: Text)
    requires s == "/*" + (Written(ps) + ("*/" + rest)) && Clean(ps, "*/" + rest)
    ensures |s| >= 4 + |Written(ps)| && BlockEnd(s, 2, 1) == 4 + |Written(ps)|
  {
    hide BlockEnd, Written, Clean;
    var w := Written(ps);
    assert s[0..] == s;
    Behind(s, 0, "/*", w + ("*/" + rest));
    PassesPieces(s, 2, 1, ps, "*/" + rest);
    Behind(s, 2 + |w|, "*/", rest);
    StepOver(s, 2 + |w|, 1);
    DepthZero(s, 4 + |w|);
  }

  lemma BlockReads(ps: seq<Piece>, rest: Text)
    requires Clean(ps, "*/" + rest)
    ensures Strip(SpelledAs(Block(ps)) + rest) == Kept(Block(ps)) + Strip(rest)
  {
    hide BlockEnd, Written, Clean, Strip;
    var w := Written(ps);
    var s := SpelledAs(Block(ps)) + rest;
    Regroup("/*", w, "*/", rest);
    BlockEndsAt(s, ps, rest);
    OpensMeans(s);
    assert FirstToken(s) == Token(BlockComment, |SpelledAs(Block(ps))|, " ");
    hide FirstToken;
    Reads(Block(ps), rest, BlockComment);
  }

  lemma DepthZero(s: Text, j: nat)
    requires j <= |s|
    ensures BlockEnd(s, j, 0) == j
  {
  }

  lemma OpenBlockReads(text: Text)
    requires Unclosed(text)
    ensures Strip(SpelledAs(OpenBlock(text)) + "") == Kept(OpenBlock(text)) + Strip("")
  {
    hide BlockEnd, Strip;
    assert text + "" == text && text[0..] == text;
    UnclosedBegins(text);
    OpensMeans(text);
    UnclosedRunsOut(text, 0, 1);
    UnclosedRunsOutInside(text);
    assert FirstToken(text) == Token(BlockComment, |text|, " ");
    Reads(OpenBlock(text), "", BlockComment);
  }

  lemma UnclosedBegins(text: Text)
    requires Unclosed(text)
    ensures "/*" <= text
  {
    hide Written, Clean;
  }

  /** The same, from inside its own opening marker. */
  lemma UnclosedRunsOutInside(s: Text)
    requires Unclosed(s)
    ensures |s| >= 2 && BlockEnd(s, 2, 1) == |s|
  {
    hide BlockEnd, Written, Clean;
    var ps, rest: Text :| |rest| < |s| && Opening(s, ps, rest) && (rest == "" || Unclosed(rest));
    assert s[0..] == s;
    Behind(s, 0, "/*", Written(ps) + rest);
    PassesPieces(s, 2, 1, ps, rest);
    if rest != "" { UnclosedRunsOut(s, 2 + |Written(ps)|, 1); } else { EndsAtTheEnd(s, 1); }
  }

  lemma {:induction false} PassesDoubled(s: Text, i: nat, content: Text, q: char, after: Text)
    requires 0 < i <= |s| && s[0] == q && s[i..] == Doubled(content, q) + after
    ensures i + |Doubled(content, q)| <= |s| && s[i + |Doubled(content, q)|..] == after
    ensures QuoteEnd(s, i) == QuoteEnd(s, i + |Doubled(content, q)|)
    decreases |content|
  {
    hide QuoteEnd;
    if content == "" {
      assert Doubled(content, q) + after == after;
    } else {
      var first := if content[0] == q then [q, q] else [content[0]];
      var tail := Doubled(content[1..], q) + after;
      assert s[i..] == first + tail;
      Behind(s, i, first, tail);
      assert s[i] == s[i..][0];
      if content[0] == q { assert s[i + 1] == s[i..][1]; }
      QuoteSteps(s, i);
      PassesDoubled(s, i + |first|, content[1..], q, after);
    }
  }

  lemma LiteralEndsAt(s: Text, q: char, content: Text, rest: Text)
    requires s == [q] + (Doubled(content, q) + ([q] + rest)) && (rest == "" || rest[0] != q)
    ensures |s| >= 2 + |Doubled(content, q)| && QuoteEnd(s, 1) == 2 + |Doubled(content, q)|
  {
    hide QuoteEnd, Doubled;
    var d := Doubled(content, q);
    assert s[0..] == s;
    Behind(s, 0, [q], d + ([q] + rest));
    PassesDoubled(s, 1, content, q, [q] + rest);
    var k := 1 + |d|;
    Behind(s, k, [q], rest);
    assert s[k] == s[k..][0] == q;
    if k + 1 < |s| { assert s[k + 1] == s[k + 1..][0] == rest[0]; }
    QuoteSteps(s, k);
  }

  lemma LiteralReads(q: char, content: Text, rest: Text)
    requires q in {'\'', '"'} && (rest == "" || rest[0] != q)
    ensures Strip(SpelledAs(Literal(q, content)) + rest) == Kept(Literal(q, content)) + Strip(rest)
  {
    hide QuoteEnd, Strip, Doubled;
    var l := SpelledAs(Literal(q, content));
    var s := l + rest;
    Regroup([q], Doubled(content, q), [q], rest);
    LiteralEndsAt(s, q, content, rest);
    assert s[..|l|] == l;
    assert FirstToken(s) == Token(SqlLexer.Quoted, |l|, l);
    hide FirstToken;
    Reads(Literal(q, content), rest, SqlLexer.Quoted);
  }

  lemma OpenLiteralReads(q: char, content: Text)
    requires q in {'\'', '"'}
    ensures Strip(SpelledAs(OpenLiteral(q, content)) + "") == Kept(OpenLiteral(q, content)) + Strip("")
  {
    hide QuoteEnd, Strip, Doubled;
    var s := SpelledAs(OpenLiteral(q, content));
    assert s + "" == s && Doubled(content, q) + "" == Doubled(content, q);
    PassesDoubled(s, 1, content, q, "");
    QuoteRunsOut(s);
    assert s[..|s|] == s;
    Reads(OpenLiteral(q, content), "", SqlLexer.Quoted);
  }

  /** The newline that ends a comment's line is the first. */
  lemma FirstNewlineAt(text: Text, rest: Text)
    requires '\n' !in text
    ensures Index("--" + (text + "\n") + rest, "\n") == Some(2 + |text|)
  {
    hide Index, OccursAt;
    var s := "--" + (text + "\n") + rest;
    CharacterAt(s, '\n');
    assert s[2 + |text|] == '\n' && forall k | 2 <= k < 2 + |text| :: s[k] == text[k - 2];
    FoundAt(s, "\n", 2 + |text|);
  }

  lemma NoNewline(text: Text)
    requires '\n' !in text
    ensures Index("--" + text, "\n") == None
  {
    hide Index, OccursAt;
    var s := "--" + text;
    CharacterAt(s, '\n');
    assert forall k | 2 <= k < |s| :: s[k] == text[k - 2];
  }

  lemma LineReads(text: Text, rest: Text)
    requires '\n' !in text
    ensures Strip(SpelledAs(Line(text)) + rest) == Kept(Line(text)) + Strip(rest)
  {
    hide Strip, Index;
    OpensMeans(SpelledAs(Line(text)) + rest);
    FirstNewlineAt(text, rest);
    Reads(Line(text), rest, LineComment);
  }

  lemma LastLineReads(text: Text)
    requires '\n' !in text
    ensures Strip(SpelledAs(LastLine(text)) + "") == Kept(LastLine(text)) + Strip("")
  {
    hide Strip, Index;
    var s := SpelledAs(LastLine(text));
    assert s + "" == s;
    OpensMeans(s);
    NoNewline(text);
    Reads(LastLine(text), "", LineComment);
  }

  lemma {:induction false} TagIsRead(tag: Text, rest: Text)
    requires IsTag(tag)
    ensures TagClose(tag + ("$" + rest)) == Some(|tag| + 1)
  {
    var s := tag + ("$" + rest);
    if tag != "" {
      assert s[1..] == tag[1..] + ("$" + rest);
      TagIsRead(tag[1..], rest);
    }
  }

  lemma {:induction false} ReadTagIsTag(s: Text)
    requires TagClose(s).Some?
    ensures var n := TagClose(s).value; s[n - 1] == '$' && IsTag(s[..n - 1])
  {
    if s[0] != '$' {
      ReadTagIsTag(s[1..]);
      var n := TagClose(s).value;
      assert s[..n - 1] == [s[0]] + s[1..][..n - 2];
    }
  }

  lemma ATagIsADelimiter(s: Text)
    requires DollarTag(s).Some?
    ensures var n := DollarTag(s).value; IsTag(s[1..n - 1]) && s[..n] == Delimiter(s[1..n - 1])
  {
    hide TagClose, IsTag;
    ReadTagIsTag(s[1..]);
    var n := DollarTag(s).value;
    assert s[1..][..n - 2] == s[1..n - 1] && s[1..][n - 2] == s[n - 1];
    assert s[..n] == [s[0]] + s[1..n - 1] + [s[n - 1]];
  }

  lemma ADelimiterIsATag(s: Text, tag: Text)
    requires IsTag(tag) && Delimiter(tag) <= s
    ensures DollarTag(s) == Some(|Delimiter(tag)|)
  {
    hide TagClose, IsTag;
    var rest := s[|tag| + 2..];
    assert s == "$" + (tag + ("$" + rest)) by {
      assert s == Delimiter(tag) + rest;
      Concatenated("$", tag + "$", rest);
      Concatenated(tag, "$", rest);
    }
    assert s[1..] == tag + ("$" + rest);
    TagIsRead(tag, rest);
  }

  /** A dollar tag opens a text exactly when the text begins with a delimiter. */
  lemma TagsAreDelimiters(s: Text)
    ensures DollarTag(s).Some? ==> IsTag(s[1..DollarTag(s).value - 1]) && s[..DollarTag(s).value] == Delimiter(s[1..DollarTag(s).value - 1])
    ensures forall tag | IsTag(tag) && Delimiter(tag) <= s :: DollarTag(s) == Some(|Delimiter(tag)|)
  {
    hide DollarTag, IsTag, Delimiter;
    if DollarTag(s).Some? { ATagIsADelimiter(s); }
    forall tag | IsTag(tag) && Delimiter(tag) <= s
      ensures DollarTag(s) == Some(|Delimiter(tag)|)
    {
      ADelimiterIsATag(s, tag);
    }
  }

  /** NotBefore says where there is no occurrence. */
  lemma NotBeforeMeans(s: Text, p: Text, end: nat)
    ensures NotBefore(s, p, end) <==> forall k | 0 <= k < end :: !OccursAt(s, p, k)
  {
    forall k: nat ensures OccursAt(s, p, k) <==> k <= |s| && p <= s[k..] {
      if k + |p| <= |s| { assert s[k..][..|p|] == s[k..k + |p|]; }
    }
  }

  lemma DollarReads(tag: Text, body: Text, rest: Text)
    requires IsTag(tag) && NotBefore(body + Delimiter(tag), Delimiter(tag), |body|)
    ensures Strip(SpelledAs(Dollar(tag, body)) + rest) == Kept(Dollar(tag, body)) + Strip(rest)
  {
    var d := Delimiter(tag);
    var s := SpelledAs(Dollar(tag, body)) + rest;
    var n := |d|;
    Regroup(d, body, d, rest);
    assert d <= s;
    TagsAreDelimiters(s);
    DelimiterBegins(tag);
    hide Strip, Index, IsTag, DollarTag, Delimiter;
    assert s[..n] == d && s[n..] == body + (d + rest);
    FirstDelimiter(body, d, rest);
    assert FirstToken(s) == Token(DollarBody, n + |body| + n, " ") by { DollarToken(s, n, |body|); }
    Reads(Dollar(tag, body), rest, DollarBody);
  }

  lemma DelimiterBegins(tag: Text)
    ensures |Delimiter(tag)| >= 2 && Delimiter(tag)[0] == '$'
  {
  }

  /** An occurrence that ends within `a` does not depend on what follows. */
  lemma OccursWithin(a: Text, b: Text, p: Text, k: int)
    requires k + |p| <= |a|
    ensures OccursAt(a + b, p, k) <==> OccursAt(a, p, k)
  {
    if 0 <= k { assert (a + b)[k..k + |p|] == a[k..k + |p|]; }
  }

  /** The delimiter that closes a body is its first. */
  lemma FirstDelimiter(body: Text, d: Text, rest: Text)
    requires d != "" && NotBefore(body + d, d, |body|)
    ensures Index(body + (d + rest), d) == Some(|body|)
  {
    var s := body + (d + rest);
    assert s[|body|..|body| + |d|] == d;
    NotBeforeMeans(body + d, d, |body|);
    Concatenated(body, d, rest);
    forall k | 0 <= k < |body| ensures !OccursAt(s, d, k) {
      OccursWithin(body + d, rest, d, k);
    }
    FoundAt(s, d, |body|);
  }

  lemma DollarToken(s: Text, n: nat, end: nat)
    requires |s| >= n >= 2 && s[0] == '$' && DollarTag(s) == Some(n) && Index(s[n..], s[..n]) == Some(end)
    ensures FirstToken(s) == Token(DollarBody, n + end + n, " ")
  {
    hide DollarTag, Index;
    OpensMeans(s);
  }

  lemma OpenDollarReads(tag: Text, body: Text)
    requires IsTag(tag) && NotBefore(body, Delimiter(tag), |body|)
    ensures Strip(SpelledAs(OpenDollar(tag, body)) + "") == Kept(OpenDollar(tag, body)) + Strip("")
  {
    var d := Delimiter(tag);
    var s := SpelledAs(OpenDollar(tag, body));
    assert s + "" == s && d <= s;
    TagsAreDelimiters(s);
    DelimiterBegins(tag);
    NotBeforeMeans(body, d, |body|);
    hide Strip, Index, IsTag, DollarTag, Delimiter;
    assert s[..|d|] == d && s[|d|..] == body;
    assert forall k :: OccursAt(body, d, k) ==> 0 <= k < |body|;
    assert Index(body, d) == None;
    OpensMeans(s);
    assert FirstToken(s) == Token(DollarBody, |s|, " ");
    Reads(OpenDollar(tag, body), "", DollarBody);
  }

  lemma OtherReads(c: char, rest: Text)
    requires Stands(Other(c), rest)
    ensures Strip(SpelledAs(Other(c)) + rest) == Kept(Other(c)) + Strip(rest)
  {
    hide Strip, DollarTag, IsTag;
    var s := [c] + rest;
    OpensMeans(s);
    TagsAreDelimiters(s);
    assert s[..1] == [c];
    assert FirstToken(s) == Token(SqlLexer.Plain, 1, [c]);
    Reads(Other(c), rest, SqlLexer.Plain);
  }

  /** Wherever a lexeme may stand, the lexer keeps of it what is to be kept, and goes on behind it. */
  lemma LexemeIsStripped(l: Lexeme, rest: Text)
    requires Stands(l, rest)
    ensures Strip(SpelledAs(l) + rest) == Kept(l) + Strip(rest)
  {
    hide Strip, SpelledAs, Kept, Clean, Unclosed, NotBefore, IsTag;
    match l
    case Line(text) => LineReads(text, rest);
    case LastLine(text) => LastLineReads(text);
    case Block(ps) => BlockReads(ps, rest);
    case OpenBlock(text) => OpenBlockReads(text);
    case Literal(q, content) => LiteralReads(q, content, rest);
    case OpenLiteral(q, content) => OpenLiteralReads(q, content);
    case Dollar(tag, body) => DollarReads(tag, body, rest);
    case OpenDollar(tag, body) => OpenDollarReads(tag, body);
    case Other(c) => OtherReads(c, rest);
  }

  /** And so of a row of lexemes. */
  lemma {:induction false} LexemesAreStripped(ls: seq<Lexeme>, rest: Text)
    requires WellFormed(ls, rest)
    ensures Strip(Spelling(ls) + rest) == KeptOf(ls) + Strip(rest)
  {
    hide Strip, SpelledAs, Kept, Stands;
    if ls == [] {
      assert Spelling(ls) + rest == rest && KeptOf(ls) + Strip(rest) == Strip(rest);
    } else {
      var tail := Spelling(ls[1..]) + rest;
      Concatenated(SpelledAs(ls[0]), Spelling(ls[1..]), rest);
      LexemeIsStripped(ls[0], tail);
      LexemesAreStripped(ls[1..], rest);
      Concatenated(Kept(ls[0]), KeptOf(ls[1..]), Strip(rest));
    }
  }

  /** On a whole text: the lexer's output is what the grammar keeps. */
  lemma StripKeepsTheKept(ls: seq<Lexeme>)
    requires WellFormed(ls, "")
    ensures Strip(Spelling(ls)) == KeptOf(ls)
  {
    LexemesAreStripped(ls, "");
    assert Spelling(ls) + "" == Spelling(ls);
    assert Strip("") == "" && KeptOf(ls) + "" == KeptOf(ls);
  }

  // ---------------------------------------------------------------- every text is lexemes

  /** Pieces up to a closing marker, or to the end, or to a comment never closed. */
  lemma {:induction false} SplitPieces(s: Text) returns (ps: seq<Piece>, rest: Text)
    ensures s == Written(ps) + rest && Clean(ps, rest)
    ensures rest == "" || "*/" <= rest || Unclosed(rest)
    decreases |s|
  {
    if s == "" || "*/" <= s {
      ps, rest := [], s;
      assert Written(ps) + rest == rest;
    } else if "/*" <= s {
      var inner, r := SplitPieces(s[2..]);
      assert s == "/*" + (Written(inner) + r);
      if "*/" <= r {
        var more: seq<Piece>;
        more, rest := SplitPieces(r[2..]);
        ps := [Nested(inner)] + more;
        NestedFirst(s, inner, r, more, rest);
      } else {
        ps, rest := [], s;
        assert Written(ps) + rest == rest;
        assert Opening(s, inner, r) && |r| < |s|;
      }
    } else {
      var more: seq<Piece>;
      more, rest := SplitPieces(s[1..]);
      ps := [Char(s[0])] + more;
      CharFirst(s, more, rest);
    }
  }

  lemma NestedFirst(s: Text, inner: seq<Piece>, r: Text, more: seq<Piece>, rest: Text)
    requires s == "/*" + (Written(inner) + r) && Clean(inner, r) && "*/" <= r
    requires r[2..] == Written(more) + rest && Clean(more, rest)
    ensures s == Written([Nested(inner)] + more) + rest && Clean([Nested(inner)] + more, rest)
  {
    var ps := [Nested(inner)] + more;
    assert ps[0] == Nested(inner) && ps[1..] == more;
    assert r == "*/" + (Written(more) + rest);
    assert Written(ps) == "/*" + (Written(inner) + "*/") + Written(more);
    hide Written, Clean;
    Regroup("/*", Written(inner), "*/", Written(more) + rest);
    Concatenated("/*" + (Written(inner) + "*/"), Written(more), rest);
    assert Clean(ps, rest) by { CleanNested(inner, more, rest); }
  }

  lemma CleanNested(inner: seq<Piece>, more: seq<Piece>, rest: Text)
    requires Clean(more, rest) && Clean(inner, "*/" + (Written(more) + rest))
    ensures Clean([Nested(inner)] + more, rest)
  {
    assert ([Nested(inner)] + more)[1..] == more;
  }

  lemma CharFirst(s: Text, more: seq<Piece>, rest: Text)
    requires s != "" && !("*/" <= s) && !("/*" <= s) && s[1..] == Written(more) + rest && Clean(more, rest)
    ensures s == Written([Char(s[0])] + more) + rest && Clean([Char(s[0])] + more, rest)
  {
    var ps := [Char(s[0])] + more;
    assert ps[0] == Char(s[0]) && ps[1..] == more;
    assert s == [s[0]] + (Written(more) + rest);
  }

  /** The inside of a literal: to its closing quote, or to the end. */
  lemma {:induction false} SplitLiteral(s: Text, q: char) returns (content: Text, rest: Text, closed: bool)
    ensures closed ==> s == Doubled(content, q) + ([q] + rest) && (rest == "" || rest[0] != q)
    ensures !closed ==> s == Doubled(content, q)
    decreases |s|
  {
    if s == "" {
      content, rest, closed := "", "", false;
    } else if s[0] == q && (|s| == 1 || s[1] != q) {
      content, rest, closed := "", s[1..], true;
      assert Doubled("", q) + ([q] + rest) == s;
    } else {
      var n := if s[0] == q then 2 else 1;
      var more: Text;
      more, rest, closed := SplitLiteral(s[n..], q);
      content := [s[0]] + more;
      assert content[1..] == more;
      assert Doubled(content, q) == s[..n] + Doubled(more, q);
      assert s == s[..n] + s[n..];
    }
  }

  lemma SplitLine(s: Text) returns (text: Text, rest: Text, ended: bool)
    ensures '\n' !in text
    ensures ended ==> s == text + ("\n" + rest)
    ensures !ended ==> s == text
  {
    if '\n' in s {
      FirstNewline(s);
      var i :| 0 <= i < |s| && s[i] == '\n' && '\n' !in s[..i];
      text, rest, ended := s[..i], s[i + 1..], true;
    } else {
      text, rest, ended := s, "", false;
    }
  }

  lemma {:induction false} FirstNewline(s: Text)
    requires '\n' in s
    ensures exists i :: 0 <= i < |s| && s[i] == '\n' && '\n' !in s[..i]
  {
    if s[0] == '\n' {
      assert s[..0] == "";
    } else {
      FirstNewline(s[1..]);
      var i :| 0 <= i < |s[1..]| && s[1..][i] == '\n' && '\n' !in s[1..][..i];
      assert s[..i + 1] == [s[0]] + s[1..][..i];
      assert s[i + 1] == '\n';
    }
  }

  /** Behind an opening delimiter: to the first that closes it, or to the end. */
  lemma SplitDollar(s: Text, tag: Text) returns (body: Text, rest: Text, closed: bool)
    ensures closed ==> s == body + (Delimiter(tag) + rest) && NotBefore(body + Delimiter(tag), Delimiter(tag), |body|)
    ensures !closed ==> s == body && NotBefore(body, Delimiter(tag), |body|)
  {
    hide Index, NotBefore, Delimiter;
    var d := Delimiter(tag);
    var at := Index(s, d);
    if at.Some? {
      var n := at.value;
      body, rest, closed := s[..n], s[n + |d|..], true;
      assert s == body + (d + rest);
      Concatenated(body, d, rest);
      forall k | 0 <= k < n ensures !OccursAt(body + d, d, k) {
        OccursWithin(body + d, rest, d, k);
      }
      NotBeforeMeans(body + d, d, n);
    } else {
      body, rest, closed := s, "", false;
      NotBeforeMeans(s, d, |s|);
    }
  }

  /** Some lexeme stands at the head of every text. */
  lemma FirstLexeme(s: Text) returns (l: Lexeme, rest: Text)
    requires s != ""
    ensures s == SpelledAs(l) + rest && Stands(l, rest) && |rest| < |s|
  {
    hide SpelledAs, Stands, Delimiter, IsTag;
    if "--" <= s {
      l, rest := FirstLine(s);
    } else if "/*" <= s {
      l, rest := FirstBlock(s);
    } else if s[0] == '\'' || s[0] == '"' {
      l, rest := FirstLiteral(s);
    } else if tag :| IsTag(tag) && Delimiter(tag) <= s {
      l, rest := FirstDollar(s, tag);
    } else {
      l, rest := FirstOther(s);
    }
  }

  lemma FirstLine(s: Text) returns (l: Lexeme, rest: Text)
    requires "--" <= s
    ensures s == SpelledAs(l) + rest && Stands(l, rest) && |rest| < |s|
  {
    var text, r, ended := SplitLine(s[2..]);
    if ended {
      l, rest := Line(text), r;
      assert s == "--" + (text + ("\n" + r));
    } else {
      l, rest := LastLine(text), "";
    }
  }

  lemma FirstLiteral(s: Text) returns (l: Lexeme, rest: Text)
    requires s != "" && s[0] in {'\'', '"'}
    ensures s == SpelledAs(l) + rest && Stands(l, rest) && |rest| < |s|
  {
    hide Doubled;
    var content, r, closed := SplitLiteral(s[1..], s[0]);
    if closed {
      l, rest := Literal(s[0], content), r;
      assert s == [s[0]] + (Doubled(content, s[0]) + ([s[0]] + r));
      Regroup([s[0]], Doubled(content, s[0]), [s[0]], r);
    } else {
      l, rest := OpenLiteral(s[0], content), "";
      assert s == [s[0]] + Doubled(content, s[0]);
    }
  }

  lemma FirstOther(s: Text) returns (l: Lexeme, rest: Text)
    requires s != "" && s[0] !in {'\'', '"'} && !("--" <= s) && !("/*" <= s)
    requires forall tag | IsTag(tag) :: !(Delimiter(tag) <= s)
    ensures s == SpelledAs(l) + rest && Stands(l, rest) && |rest| < |s|
  {
    hide IsTag, Delimiter;
    l, rest := Other(s[0]), s[1..];
    assert s == [s[0]] + rest;
  }

  lemma FirstBlock(s: Text) returns (l: Lexeme, rest: Text)
    requires "/*" <= s
    ensures s == SpelledAs(l) + rest && Stands(l, rest) && |rest| < |s|
  {
    hide Unclosed, Clean, Written;
    var ps, r := SplitPieces(s[2..]);
    assert s == "/*" + (Written(ps) + r);
    if "*/" <= r {
      l, rest := Block(ps), r[2..];
      assert r == "*/" + rest;
      Regroup("/*", Written(ps), "*/", rest);
    } else {
      l, rest := OpenBlock(s), "";
      IsUnclosed(s, ps, r);
      assert s + "" == s;
    }
  }

  lemma IsUnclosed(s: Text, ps: seq<Piece>, r: Text)
    requires Opening(s, ps, r) && (r == "" || Unclosed(r))
    ensures Unclosed(s)
  {
    assert |r| < |s|;
  }

  lemma FirstDollar(s: Text, tag: Text) returns (l: Lexeme, rest: Text)
    requires IsTag(tag) && Delimiter(tag) <= s
    ensures s == SpelledAs(l) + rest && Stands(l, rest) && |rest| < |s|
  {
    DelimiterBegins(tag);
    hide NotBefore, IsTag, Delimiter;
    var d := Delimiter(tag);
    var body, r, closed := SplitDollar(s[|d|..], tag);
    if closed {
      l, rest := Dollar(tag, body), r;
      assert s == d + (body + (d + r));
      Regroup(d, body, d, r);
    } else {
      l, rest := OpenDollar(tag, body), "";
      assert s == d + body && s + "" == s;
    }
  }

  /** Every text is the spelling of a well-formed row of lexemes, so the lexer's output is settled on all of them. */
  lemma {:induction false} EveryTextIsLexemes(s: Text) returns (ls: seq<Lexeme>)
    ensures WellFormed(ls, "") && Spelling(ls) == s && Strip(s) == KeptOf(ls)
    decreases |s|
  {
    if s == "" {
      ls := [];
    } else {
      hide Stands, SpelledAs, Strip;
      var l, rest := FirstLexeme(s);
      var more := EveryTextIsLexemes(rest);
      ls := [l] + more;
      assert ls[1..] == more && Spelling(more) + "" == rest;
      StripKeepsTheKept(ls);
    }
  }
}
