/**
 The hand-written SQL lexer: what it takes for one token, and what is left once comments and
 dollar-quoted bodies are replaced. The loop over indices refines the recursive reading of it.
 */
module SqlLexer {
  import opened Prelude

  predicate OccursAt(s: Text, p: Text, k: int) {
    0 <= k <= |s| - |p| && s[k..k + |p|] == p
  }

  lemma SliceOfRest(s: Text, i: nat, j: nat)
    requires 1 <= i <= j <= |s|
    ensures s[1..][i - 1..j - 1] == s[i..j]
  {
  }

  /** An occurrence past the first character is one of the rest. */
  lemma OccursNext(s: Text, p: Text, k: int)
    requires s != "" && 1 <= k
    ensures OccursAt(s, p, k) <==> OccursAt(s[1..], p, k - 1)
  {
    if k <= |s| - |p| { SliceOfRest(s, k, k + |p|); }
  }

  lemma OccursLater(s: Text, p: Text)
    requires s != "" && !OccursAt(s, p, 0)
    ensures forall k :: OccursAt(s, p, k) <==> 1 <= k && OccursAt(s[1..], p, k - 1)
  {
    hide OccursAt;
    forall k ensures OccursAt(s, p, k) <==> 1 <= k && OccursAt(s[1..], p, k - 1) {
      if 1 <= k { OccursNext(s, p, k); } else { OccursNowhereBefore(s, p, k); }
    }
  }

  lemma OccursNowhereBefore(s: Text, p: Text, k: int)
    requires k < 1 && !OccursAt(s, p, 0)
    ensures !OccursAt(s, p, k)
  {
  }

  /** strings.Index: the first place `p` occurs in `s`. */
  function Index(s: Text, p: Text): (r: Option<nat>)
    ensures r.Some? ==> OccursAt(s, p, r.value) && forall k | OccursAt(s, p, k) :: r.value <= k
    ensures r.None? ==> forall k :: !OccursAt(s, p, k)
  {
    if |s| < |p| then None
    else if s[..|p|] == p then Some(0)
    else
      OccursLater(s, p);
      match Index(s[1..], p)
      case None => None
      case Some(i) =>
        OccursNext(s, p, i + 1);
        Some(i + 1)
  }

  /** The first occurrence is where Index finds it. */
  lemma FoundAt(s: Text, p: Text, n: nat)
    requires OccursAt(s, p, n) && forall k | OccursAt(s, p, k) :: n <= k
    ensures Index(s, p) == Some(n)
  {
    hide Index, OccursAt;
  }

  /** A text of one character occurs where the character stands. */
  lemma CharacterAt(s: Text, c: char)
    ensures forall k :: OccursAt(s, [c], k) <==> 0 <= k < |s| && s[k] == c
  {
    forall k ensures OccursAt(s, [c], k) <==> 0 <= k < |s| && s[k] == c {
      if 0 <= k < |s| { assert s[k..k + 1] == [s[k]]; }
    }
  }

  predicate TagChar(c: char) {
    c == '_' || '0' <= c <= '9' || 'a' <= c <= 'z' || 'A' <= c <= 'Z'
  }

  /** How much of `s` closes a dollar tag already opened. */
  function TagClose(s: Text): (r: Option<nat>)
    ensures r.Some? ==> 0 < r.value <= |s| && s[r.value - 1] == '$'
  {
    if s == "" then None
    else if s[0] == '$' then Some(1)
    else if TagChar(s[0]) then (match TagClose(s[1..]) case None => None case Some(n) => Some(n + 1))
    else None
  }

  /** The length of the $tag$ that opens `s`, if one does. */
  function DollarTag(s: Text): (r: Option<nat>)
    ensures r.Some? ==> 1 < r.value <= |s| && s[0] == '$'
  {
    if s == "" || s[0] != '$' then None
    else match TagClose(s[1..]) case None => None case Some(n) => Some(n + 1)
  }

  /** HasPrefix, for the markers of two characters. */
  predicate Opens(s: Text, a: char, b: char) {
    |s| >= 2 && s[0] == a && s[1] == b
  }

  /** Where the block comment ends that is `depth` deep at `j`; the end of the text if it never does. */
  function BlockEnd(s: Text, j: nat, depth: nat): (e: nat)
    requires j <= |s|
    ensures j <= e <= |s|
    decreases |s| - j
  {
    if depth == 0 || j == |s| then j
    else if Opens(s[j..], '/', '*') then BlockEnd(s, j + 2, depth + 1)
    else if Opens(s[j..], '*', '/') then BlockEnd(s, j + 2, depth - 1)
    else BlockEnd(s, j + 1, depth)
  }

  /** Where the literal opened by s[0] ends, read from `i`; a doubled quote does not end it. */
  function QuoteEnd(s: Text, i: nat): (e: nat)
    requires 0 < i <= |s|
    ensures i <= e <= |s|
    decreases |s| - i
  {
    if i == |s| then i
    else if s[i] != s[0] then QuoteEnd(s, i + 1)
    else if i + 1 < |s| && s[i + 1] == s[0] then QuoteEnd(s, i + 2)
    else i + 1
  }

  datatype Kind = LineComment | BlockComment | Quoted | DollarBody | Plain

  /** A token: how much of the text it is, and what it leaves behind. */
  datatype Token = Token(kind: Kind, length: nat, out: Text)

  function FirstToken(s: Text): (t: Token)
    requires s != ""
    ensures 0 < t.length <= |s| && |t.out| <= t.length
  {
    if Opens(s, '-', '-') then
      match Index(s, "\n")
      case None => Token(LineComment, |s|, "")
      case Some(j) => Token(LineComment, j + 1, "\n")
    else if Opens(s, '/', '*') then Token(BlockComment, BlockEnd(s, 2, 1), " ")
    else if s[0] == '\'' || s[0] == '"' then Token(Quoted, QuoteEnd(s, 1), s[..QuoteEnd(s, 1)])
    else
      match DollarTag(s)
      case None => Token(Plain, 1, s[..1])
      case Some(n) =>
        match Index(s[n..], s[..n])
        case None => Token(DollarBody, |s|, " ")
        case Some(end) => Token(DollarBody, n + end + n, " ")
  }

  function Strip(s: Text): (r: Text)
    ensures |r| <= |s|
  {
    if s == "" then "" else FirstToken(s).out + Strip(s[FirstToken(s).length..])
  }

  /** The inner loop over a block comment opened at `i`. */
  method SkipBlockComment(body: Text, i: nat) returns (j: nat)
    requires i + 2 <= |body|
    ensures j == i + BlockEnd(body[i..], 2, 1)
  {
    ghost var rest := body[i..];
    var depth := 1;
    j := i + 2;
    while j < |body| && depth > 0
      invariant i + 2 <= j <= |body| && 0 <= depth
      invariant BlockEnd(rest, j - i, depth) == BlockEnd(rest, 2, 1)
    {
      assert body[j..] == rest[j - i..];
      if Opens(body[j..], '/', '*') {
        depth := depth + 1;
        j := j + 2;
      } else if Opens(body[j..], '*', '/') {
        depth := depth - 1;
        j := j + 2;
      } else {
        j := j + 1;
      }
    }
  }

  lemma QuoteSteps(s: Text, i: nat)
    requires 0 < i < |s|
    ensures s[i] != s[0] ==> QuoteEnd(s, i) == QuoteEnd(s, i + 1)
    ensures s[i] == s[0] && i + 1 < |s| && s[i + 1] == s[0] ==> QuoteEnd(s, i) == QuoteEnd(s, i + 2)
    ensures s[i] == s[0] && !(i + 1 < |s| && s[i + 1] == s[0]) ==> QuoteEnd(s, i) == i + 1
  {
  }

  lemma QuoteRunsOut(s: Text)
    requires s != ""
    ensures QuoteEnd(s, |s|) == |s|
  {
  }

  /** The inner loop over a literal opened at `start`, copied with its doubled quotes. */
  method CopyLiteral(body: Text, start: nat) returns (out: Text, i: nat)
    requires start < |body|
    ensures i == start + QuoteEnd(body[start..], 1) && out == body[start..i]
  {
    hide QuoteEnd;
    ghost var rest := body[start..];
    var q := body[start];
    out := [q];
    i := start + 1;
    while i < |body|
      invariant start < i <= |body|
      invariant out == body[start..i]
      invariant QuoteEnd(rest, i - start) == QuoteEnd(rest, 1)
    {
      QuoteSteps(rest, i - start);
      if body[i] == q {
        if i + 1 < |body| && body[i + 1] == q {
          assert body[start..i + 2] == body[start..i] + [q, q];
          out := out + [q, q];
          i := i + 2;
          continue;
        }
        assert body[start..i + 1] == body[start..i] + [q];
        out := out + [q];
        i := i + 1;
        return;
      }
      assert body[start..i + 1] == body[start..i] + [body[i]];
      out := out + [body[i]];
      i := i + 1;
    }
    QuoteRunsOut(rest);
  }

  /** One turn of the outer loop: what it writes, and where it goes on. */
  method StripOne(body: Text, i: nat) returns (out: Text, next: nat)
    requires i < |body|
    ensures out == FirstToken(body[i..]).out && next == i + FirstToken(body[i..]).length
  {
    hide BlockEnd, QuoteEnd, DollarTag;
    var rest := body[i..];
    if Opens(rest, '-', '-') {
      var j := Index(rest, "\n");
      if j == None {
        return "", |body|;
      }
      return "\n", i + j.value + 1;
    }
    if Opens(rest, '/', '*') {
      next := SkipBlockComment(body, i);
      return " ", next;
    }
    if body[i] == '\'' || body[i] == '"' {
      out, next := CopyLiteral(body, i);
      assert out == rest[..next - i];
      return;
    }
    var tag := DollarTag(rest);
    if tag == None {
      return [body[i]], i + 1;
    }
    var n := tag.value;
    var end := Index(body[i + n..], body[i..i + n]);
    assert body[i + n..] == rest[n..] && body[i..i + n] == rest[..n];
    if end == None {
      return " ", |body|;
    }
    return " ", i + n + end.value + n;
  }

  /** The source's loop over indices and a builder is the recursive reading of the text. */
  method StripSQLComments(body: Text) returns (out: Text)
    ensures out == Strip(body)
  {
    hide FirstToken;
    out := "";
    var i := 0;
    assert body[0..] == body;
    while i < |body|
      invariant 0 <= i <= |body|
      invariant out + Strip(body[i..]) == Strip(body)
    {
      var piece, next := StripOne(body, i);
      assert body[i..][next - i..] == body[next..];
      Concatenated(out, piece, Strip(body[next..]));
      out := out + piece;
      i := next;
    }
  }

  // ---------------------------------------------------------------- stripping its own output changes nothing

  /** What is emitted starts as the text does, or with the white space that stands for what was dropped. */
  lemma StripStart(s: Text)
    requires Strip(s) != ""
    ensures Strip(s)[0] in {' ', '\n'} || (s != "" && Strip(s)[0] == s[0] && FirstToken(s).kind in {Quoted, Plain})
  {
  }

  /** Removing comments never completes a dollar tag: a space or the end of the text always intervenes. */
  lemma {:induction false} NoTagForms(s: Text)
    requires TagClose(s) == None
    ensures TagClose(Strip(s)) == None
  {
    var x := Strip(s);
    if x != "" {
      StripStart(s);
      if TagChar(x[0]) {
        assert FirstToken(s) == Token(Plain, 1, s[..1]);
        assert x[1..] == Strip(s[1..]);
        NoTagForms(s[1..]);
      }
    }
  }

  /** A closed literal ends where it did, whatever follows, unless that is its own quote again. */
  lemma {:induction false} QuoteEndsAlike(s: Text, t: Text, i: nat)
    requires 0 < i <= |s| && QuoteEnd(s, i) < |s| && QuoteEnd(s, i) <= |t|
    requires t[..QuoteEnd(s, i)] == s[..QuoteEnd(s, i)]
    requires |t| == QuoteEnd(s, i) || t[QuoteEnd(s, i)] != s[0]
    ensures QuoteEnd(t, i) == QuoteEnd(s, i)
    decreases |s| - i
  {
    var e := QuoteEnd(s, i);
    assert forall k | 0 <= k < e :: t[..e][k] == s[..e][k];
    if s[i] != s[0] {
      QuoteEndsAlike(s, t, i + 1);
    } else if i + 1 < |s| && s[i + 1] == s[0] {
      QuoteEndsAlike(s, t, i + 2);
    }
  }

  /** The character after a closed literal is not its quote. */
  lemma {:induction false} QuoteIsNotFollowedByItself(s: Text, i: nat)
    requires 0 < i <= |s| && QuoteEnd(s, i) < |s|
    ensures s[QuoteEnd(s, i)] != s[0]
    decreases |s| - i
  {
    if s[i] != s[0] {
      QuoteIsNotFollowedByItself(s, i + 1);
    } else if i + 1 < |s| && s[i + 1] == s[0] {
      QuoteIsNotFollowedByItself(s, i + 2);
    }
  }

  lemma BlankIsPlain(c: char, x: Text)
    requires c == ' ' || c == '\n'
    ensures Strip([c] + x) == [c] + Strip(x)
  {
    hide Index, BlockEnd, QuoteEnd, TagClose;
    var y := [c] + x;
    assert y[1..] == x && y[..1] == [c];
    assert FirstToken(y) == Token(Plain, 1, [c]);
  }

  lemma QuotedIsStable(s: Text)
    requires s != "" && FirstToken(s).kind == Quoted
    ensures var t := FirstToken(s);
            var x := Strip(s[t.length..]);
            Strip(t.out + x) == t.out + Strip(x)
  {
    hide Index, BlockEnd, QuoteEnd, TagClose;
    var t := FirstToken(s);
    var x := Strip(s[t.length..]);
    var y := t.out + x;
    assert y[..t.length] == t.out && y[t.length..] == x;
    assert y[0] == s[0];
    if t.length < |s| {
      QuoteIsNotFollowedByItself(s, 1);
      if x != "" { StripStart(s[t.length..]); }
      QuoteEndsAlike(s, y, 1);
    } else {
      assert y == s;
    }
    assert FirstToken(y) == Token(Quoted, t.length, t.out);
  }

  lemma PlainIsStable(s: Text)
    requires s != "" && FirstToken(s).kind == Plain
    ensures var x := Strip(s[1..]);
            Strip(s[..1] + x) == s[..1] + Strip(x)
  {
    hide Index, BlockEnd, QuoteEnd;
    var x := Strip(s[1..]);
    var y := s[..1] + x;
    assert y[0] == s[0] && y[1..] == x && y[..1] == s[..1];
    if x != "" {
      StripStart(s[1..]);
      assert y[1] == x[0];
      assert x[0] in {' ', '\n'} || s[1] == x[0];
    }
    if s[0] == '$' {
      NoTagForms(s[1..]);
    }
    assert FirstToken(y) == Token(Plain, 1, y[..1]);
  }

  lemma StripOfNothing()
    ensures Strip("") == "" && "" + Strip("") == ""
  {
  }

  lemma TokenShapes(s: Text)
    requires s != ""
    ensures var t := FirstToken(s);
            && (t.kind == LineComment ==> t.out == "\n" || (t.out == "" && t.length == |s|))
            && (t.kind in {BlockComment, DollarBody} ==> t.out == " ")
            && (t.kind == Plain ==> t.length == 1 && t.out == s[..1])
  {
  }

  /** Read again, what a token left behind is tokens that leave the same behind. */
  lemma TokenIsStable(s: Text)
    requires s != ""
    ensures var t := FirstToken(s);
            var x := Strip(s[t.length..]);
            Strip(t.out + x) == t.out + Strip(x)
  {
    hide FirstToken, Strip;
    var t := FirstToken(s);
    var x := Strip(s[t.length..]);
    TokenShapes(s);
    match t.kind
    case LineComment =>
      if t.out == "" {
        assert s[t.length..] == "";
        StripOfNothing();
      } else { BlankIsPlain('\n', x); }
    case BlockComment => BlankIsPlain(' ', x);
    case DollarBody => BlankIsPlain(' ', x);
    case Quoted => QuotedIsStable(s);
    case Plain => PlainIsStable(s);
  }

  /** No replacement ever lets a comment opener, a quote pairing or a dollar tag form. */
  lemma {:induction false} StripIsIdempotent(s: Text)
    ensures Strip(Strip(s)) == Strip(s)
  {
    if s != "" {
      var t := FirstToken(s);
      StripIsIdempotent(s[t.length..]);
      TokenIsStable(s);
    }
  }

  // ---------------------------------------------------------------- token boundaries

  /** The lexer, reading from the start, comes to `i` between two tokens. */
  predicate Reaches(s: Text, i: nat) {
    i == 0 || (s != "" && FirstToken(s).length <= i && Reaches(s[FirstToken(s).length..], i - FirstToken(s).length))
  }

  /** What it has emitted by then. */
  function Emitted(s: Text, i: nat): Text
    requires Reaches(s, i)
  {
    if i == 0 then "" else FirstToken(s).out + Emitted(s[FirstToken(s).length..], i - FirstToken(s).length)
  }

  lemma {:induction false} StripResumes(s: Text, i: nat)
    requires Reaches(s, i)
    ensures i <= |s| && Strip(s) == Emitted(s, i) + Strip(s[i..])
    decreases |s|
  {
    hide FirstToken;
    if i == 0 {
      assert s[0..] == s;
    } else {
      var t := FirstToken(s);
      StripResumes(s[t.length..], i - t.length);
      assert s[t.length..][i - t.length..] == s[i..];
      Concatenated(t.out, Emitted(s[t.length..], i - t.length), Strip(s[i..]));
    }
  }
}
