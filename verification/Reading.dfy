/** The decoder as a reader of text: the values of a file, and that what the encoder writes is read back as it was. */
module Reading {
  import opened Prelude
  import opened Json
  import opened Escapes
  import opened Encoding

  predicate JsonSpace(c: char) {
    c in {' ', '\t', '\n', '\r'}
  }

  function SkipSpace(s: Text): (r: Text)
    ensures |r| <= |s|
  {
    if s != "" && JsonSpace(s[0]) then SkipSpace(s[1..]) else s
  }

  function DigitsIn(s: Text): (n: nat)
    ensures n <= |s| && AllDigits(s[..n])
    ensures n < |s| ==> !('0' <= s[n] <= '9')
  {
    if s == "" || !('0' <= s[0] <= '9') then 0 else 1 + DigitsIn(s[1..])
  }

  // ---------------------------------------------------------------- strings

  datatype Read<T> = Got(value: T, rest: Text) | Broken

  function Prefixed(c: char, r: Read<Text>): Read<Text> {
    if r.Got? then Got([c] + r.value, r.rest) else Broken
  }

  const REPLACEMENT: char := 0xFFFD as char

  /** What stands for half a surrogate pair, and how a whole pair reads. */
  function EscapedChar(s: Text, code: nat): (r: (char, nat))
    requires |s| >= 6 && code < 0x1_0000
    ensures 6 <= r.1 <= |s|
  {
    if !Leading(code) && !Trailing(code) then (code as char, 6)
    else if Leading(code) && |s| >= 12 && s[6] == '\\' && s[7] == 'u' && Hex4(s[8..12]).Some? && Trailing(Hex4(s[8..12]).value)
    then ((0x1_0000 + (code - 0xD800) * 0x400 + (Hex4(s[8..12]).value - 0xDC00)) as char, 12)
    else (REPLACEMENT, 6)
  }

  /** From after the opening quote to after the closing one. */
  function ReadString(s: Text): (r: Read<Text>)
    ensures r.Got? ==> |r.rest| < |s|
    decreases |s|
  {
    if s == "" then Broken
    else if s[0] == '"' then Got("", s[1..])
    else if s[0] as int < 0x20 then Broken
    else if s[0] != '\\' then Prefixed(s[0], ReadString(s[1..]))
    else if |s| < 2 then Broken
    else if s[1] != 'u' then
      match ShortValue(s[1])
      case None => Broken
      case Some(c) => Prefixed(c as char, ReadString(s[2..]))
    else if |s| < 6 || Hex4(s[2..6]) == None then Broken
    else
      var (c, n) := EscapedChar(s, Hex4(s[2..6]).value);
      Prefixed(c, ReadString(s[n..]))
  }

  // ---------------------------------------------------------------- numbers

  /** How much of `s` is a fraction or an exponent: `mark` opens it, digits follow; None if they do not. */
  function Fraction(s: Text): (n: Option<nat>)
    ensures n.Some? ==> n.value <= |s|
  {
    if s == "" || s[0] != '.' then Some(0)
    else if DigitsIn(s[1..]) == 0 then None
    else Some(1 + DigitsIn(s[1..]))
  }

  function Exponent(s: Text): (n: Option<nat>)
    ensures n.Some? ==> n.value <= |s|
  {
    if s == "" || (s[0] != 'e' && s[0] != 'E') then Some(0)
    else
      var sign := if |s| > 1 && (s[1] == '+' || s[1] == '-') then 2 else 1;
      if DigitsIn(s[sign..]) == 0 then None else Some(sign + DigitsIn(s[sign..]))
  }

  /** Digits without a leading zero, then what makes it another number than an integer. */
  function ReadUnsigned(s: Text, negative: bool): (r: Read<Value>)
    ensures r.Got? ==> |r.rest| < |s|
  {
    if DigitsIn(s) == 0 then Broken
    else
      var whole := if s[0] == '0' then 1 else DigitsIn(s);
      var n: int := DecimalOf(s[..whole]);
      match Fraction(s[whole..])
      case None => Broken
      case Some(f) =>
        match Exponent(s[whole + f..])
        case None => Broken
        case Some(e) =>
          Got(if f + e > 0 then JOtherNumber else JInt(if negative then -n else n), s[whole + f + e..])
  }

  // ---------------------------------------------------------------- values

  function ReadValue(s: Text): (r: Read<Value>)
    ensures r.Got? ==> |r.rest| < |s|
    decreases |s|, 0
  {
    if s == "" then Broken
    else if s[0] == '{' then
      var t := SkipSpace(s[1..]);
      if t != "" && t[0] == '}' then Got(JObject([]), t[1..])
      else match ReadMembers(s[1..]) case Broken => Broken case Got(ms, rest) => Got(JObject(ms), rest)
    else if s[0] == '[' then
      var t := SkipSpace(s[1..]);
      if t != "" && t[0] == ']' then Got(JArray([]), t[1..])
      else match ReadItems(s[1..]) case Broken => Broken case Got(vs, rest) => Got(JArray(vs), rest)
    else if s[0] == '"' then
      match ReadString(s[1..]) case Broken => Broken case Got(text, rest) => Got(JString(text), rest)
    else if HasPrefix(s, "null") then Got(JNull, s[4..])
    else if HasPrefix(s, "true") then Got(JBool(true), s[4..])
    else if HasPrefix(s, "false") then Got(JBool(false), s[5..])
    else if s[0] == '-' then ReadUnsigned(s[1..], true)
    else ReadUnsigned(s, false)
  }

  /** One element at least, to after the closing bracket. */
  function ReadItems(s: Text): (r: Read<seq<Value>>)
    ensures r.Got? ==> |r.rest| < |s|
    decreases |s|, 1
  {
    match ReadValue(SkipSpace(s))
    case Broken => Broken
    case Got(v, rest) =>
      var t := SkipSpace(rest);
      if t == "" then Broken
      else if t[0] == ']' then Got([v], t[1..])
      else if t[0] != ',' then Broken
      else match ReadItems(t[1..]) case Broken => Broken case Got(vs, end) => Got([v] + vs, end)
  }

  function ReadMember(s: Text): (r: Read<Member>)
    ensures r.Got? ==> |r.rest| < |s|
    decreases |s|, 1
  {
    var k := SkipSpace(s);
    if k == "" || k[0] != '"' then Broken
    else
      match ReadString(k[1..])
      case Broken => Broken
      case Got(key, rest) =>
        var colon := SkipSpace(rest);
        if colon == "" || colon[0] != ':' then Broken
        else match ReadValue(SkipSpace(colon[1..])) case Broken => Broken case Got(v, end) => Got(Member(key, v), end)
  }

  function ReadMembers(s: Text): (r: Read<seq<Member>>)
    ensures r.Got? ==> |r.rest| < |s|
    decreases |s|, 2
  {
    match ReadMember(s)
    case Broken => Broken
    case Got(m, rest) =>
      var t := SkipSpace(rest);
      if t == "" then Broken
      else if t[0] == '}' then Got([m], t[1..])
      else if t[0] != ',' then Broken
      else match ReadMembers(t[1..]) case Broken => Broken case Got(ms, end) => Got([m] + ms, end)
  }

  /** All the values of a text, and whether it then ends or breaks off. */
  function ReadAll(s: Text): (r: (seq<Value>, bool))
    decreases |s|
  {
    var t := SkipSpace(s);
    if t == "" then ([], true)
    else
      match ReadValue(t)
      case Broken => ([], false)
      case Got(v, rest) => var (vs, clean) := ReadAll(rest); ([v] + vs, clean)
  }

  /** White space between tokens, as the grammar of JSON has it. */
  predicate IsPadding(pad: Text) {
    forall i | 0 <= i < |pad| :: pad[i] == ' ' || pad[i] == '\t' || pad[i] == '\n' || pad[i] == '\r'
  }

  /** Padding in front of anything that is none is skipped, and nothing else is. */
  lemma {:induction false} PaddingIsSkipped(pad: Text, s: Text)
    requires IsPadding(pad) && (s == "" || !IsPadding(s[..1]))
    ensures SkipSpace(pad + s) == s
  {
    if pad == "" {
      assert pad + s == s;
      if s != "" { assert s[..1][0] == s[0]; }
    } else {
      assert (pad + s)[1..] == pad[1..] + s;
      PaddingIsSkipped(pad[1..], s);
    }
  }

  /** So padding before a file's values does not matter. */
  lemma PaddedFile(pad: Text, s: Text)
    requires IsPadding(pad) && (s == "" || !IsPadding(s[..1]))
    ensures ReadAll(pad + s) == ReadAll(s)
  {
    PaddingIsSkipped(pad, s);
    PaddingIsSkipped("", s);
    assert "" + s == s;
    hide SkipSpace, ReadValue;
  }

  // ---------------------------------------------------------------- reading back what was written

  /** Numbers other than integers are never written; everything else may be. */
  predicate Writable(v: Value)
    decreases v
  {
    match v
    case JOtherNumber => false
    case JArray(items) => forall i | 0 <= i < |items| :: Writable(items[i])
    case JObject(ms) => forall i | 0 <= i < |ms| :: Writable(ms[i].value)
    case _ => true
  }

  /** A text that no number runs on into, and that is not white space. */
  predicate Stops(rest: Text) {
    rest == "" || rest[0] in {',', ']', '}', ':'}
  }

  lemma ReadUnit(c: char, t: Text)
    ensures ReadString(UnitOf(c).Spelled() + t) == Prefixed(c, ReadString(t))
  {
    hide HexText, Hex4;
    var s := UnitOf(c).Spelled() + t;
    if UnitOf(c).Long? {
      HexRoundTrip(c as int, SMALL);
      assert s[2..6] == HexText(c as int, SMALL) && s[6..] == t;
    } else if UnitOf(c).Short? {
      assert s[2..] == t;
    } else {
      assert s[1..] == t;
    }
  }

  lemma ReadQuote(rest: Text)
    ensures ReadString("\"" + rest) == Got("", rest)
  {
    assert ("\"" + rest)[1..] == rest;
  }

  lemma {:induction false} UnitsReadBack(text: Text, rest: Text)
    ensures ReadString(Spell(Units(text)) + ("\"" + rest)) == Got(text, rest)
  {
    if text == "" {
      ReadQuote(rest);
      assert Spell(Units(text)) + ("\"" + rest) == "\"" + rest;
    } else {
      SpellUnits(text);
      hide ReadString, UnitOf, Units, Spell;
      UnitsReadBack(text[1..], rest);
      var tail := Spell(Units(text[1..])) + ("\"" + rest);
      ReadUnit(text[0], tail);
      Concatenated(UnitOf(text[0]).Spelled(), Spell(Units(text[1..])), "\"" + rest);
      assert [text[0]] + text[1..] == text;
    }
  }

  lemma {:induction false} SpellBare(s: Text)
    requires '\\' !in s
    ensures Spell(Bare(s)) == s
  {
    if s != "" {
      SpellBare(s[1..]);
      assert Bare(s)[1..] == Bare(s[1..]);
      assert s == [s[0]] + s[1..];
    }
  }

  /** A string as it is written, in front of anything. */
  lemma SpellQuoted(text: Text, rest: Text)
    ensures Spell(Quoted(text)) + rest == "\"" + (Spell(Units(text)) + ("\"" + rest))
  {
    hide Spell, Units, Bare;
    SpellConcat(Bare("\"") + Units(text), Bare("\""));
    SpellConcat(Bare("\""), Units(text));
    SpellBare("\"");
  }

  // ---------------------------------------------------------------- numbers back

  lemma {:induction false} DigitsEnd(digits: Text, rest: Text)
    requires AllDigits(digits) && Stops(rest)
    ensures DigitsIn(digits + rest) == |digits|
  {
    if digits == "" {
      assert digits + rest == rest;
    } else {
      assert (digits + rest)[1..] == digits[1..] + rest;
      DigitsEnd(digits[1..], rest);
    }
  }

  lemma NothingFollows(rest: Text)
    requires Stops(rest)
    ensures Fraction(rest) == Some(0) && Exponent(rest) == Some(0)
  {
  }

  lemma NumberReadsBack(n: nat, negative: bool, rest: Text)
    requires Stops(rest)
    ensures ReadUnsigned(Digits(n) + rest, negative) == Got(JInt(if negative then -(n as int) else n), rest)
  {
    hide Digits, DigitsIn, DecimalOf, Fraction, Exponent, Stops;
    var d := Digits(n);
    var s := d + rest;
    DigitsSpell(n);
    DigitsEnd(d, rest);
    NothingFollows(rest);
    assert s[..|d|] == d && s[|d|..] == rest && s[0] == d[0];
    assert s[|d| + 0..] == rest && s[|d| + 0 + 0..] == rest;
  }

  // ---------------------------------------------------------------- values back

  /** What a value is written as begins with nothing a reader would skip or take for an end. */
  predicate Solid(s: Text) {
    s != "" && !JsonSpace(s[0]) && s[0] != ']' && s[0] != '}'
  }

  lemma SolidIsNotSkipped(s: Text, rest: Text)
    requires Solid(s)
    ensures SkipSpace(s + rest) == s + rest && Solid(s + rest)
  {
  }

  lemma SpellInt(n: int)
    ensures Spell(Encode(JInt(n))) == if n < 0 then "-" + Digits(-n) else Digits(n)
  {
    hide Spell, Bare, Digits;
    if n < 0 {
      SpellConcat(Bare("-"), Bare(Digits(-n)));
      SpellBare("-");
      SpellBare(Digits(-n));
    } else {
      SpellBare(Digits(n));
    }
  }

  lemma SpellArray(items: seq<Value>)
    ensures Spell(Encode(JArray(items))) == "[" + (Spell(EncodeItems(items)) + "]")
  {
    hide Spell, Bare, EncodeItems;
    SpellConcat(Bare("[") + EncodeItems(items), Bare("]"));
    SpellConcat(Bare("["), EncodeItems(items));
    SpellBare("[");
    SpellBare("]");
  }

  lemma SpellObject(ms: seq<Member>)
    ensures Spell(Encode(JObject(ms))) == "{" + (Spell(EncodeMembers(ms)) + "}")
  {
    hide Spell, Bare, EncodeMembers;
    SpellConcat(Bare("{") + EncodeMembers(ms), Bare("}"));
    SpellConcat(Bare("{"), EncodeMembers(ms));
    SpellBare("{");
    SpellBare("}");
  }

  lemma SpellThree(a: seq<Unit>, b: seq<Unit>, c: seq<Unit>)
    requires AllLegal(a) && AllLegal(b) && AllLegal(c)
    ensures AllLegal(a + b + c) && Spell(a + b + c) == Spell(a) + (Spell(b) + Spell(c))
  {
    hide Spell;
    SpellConcat(a + b, c);
    SpellConcat(a, b);
    Concatenated(Spell(a), Spell(b), Spell(c));
  }

  lemma SpellItems(vs: seq<Value>)
    requires vs != []
    ensures Spell(EncodeItems(vs)) == Spell(Encode(vs[0])) + if |vs| == 1 then "" else "," + Spell(EncodeItems(vs[1..]))
  {
    var comma := if |vs| == 1 then [] else Bare(",");
    assert EncodeItems(vs) == Encode(vs[0]) + comma + EncodeItems(vs[1..]);
    assert |vs| == 1 ==> vs[1..] == [] && EncodeItems(vs[1..]) == [];
    hide Spell, Bare, Encode, EncodeItems;
    SpellThree(Encode(vs[0]), comma, EncodeItems(vs[1..]));
    SpellBare(",");
    SpellNothing();
    if |vs| == 1 { assert "" + "" == ""; }
  }

  lemma SpellNothing()
    ensures Spell([]) == ""
  {
  }

  function SpelledMember(m: Member): Text {
    Spell(Quoted(m.key)) + (":" + Spell(Encode(m.value)))
  }

  /** A member's units, as EncodeMembers lays them out. */
  function MemberUnits(m: Member): (us: seq<Unit>)
    ensures AllLegal(us)
  {
    Quoted(m.key) + Bare(":") + Encode(m.value)
  }

  lemma SpellMember(m: Member)
    ensures Spell(MemberUnits(m)) == SpelledMember(m)
  {
    hide Spell, Bare, Encode, Quoted;
    SpellThree(Quoted(m.key), Bare(":"), Encode(m.value));
    SpellBare(":");
  }

  lemma SpellMembers(ms: seq<Member>)
    requires ms != []
    ensures Spell(EncodeMembers(ms)) == SpelledMember(ms[0]) + if |ms| == 1 then "" else "," + Spell(EncodeMembers(ms[1..]))
  {
    var comma := if |ms| == 1 then [] else Bare(",");
    assert EncodeMembers(ms) == MemberUnits(ms[0]) + comma + EncodeMembers(ms[1..]);
    assert |ms| == 1 ==> ms[1..] == [] && EncodeMembers(ms[1..]) == [];
    hide Spell, Bare, Encode, EncodeMembers, MemberUnits, SpelledMember;
    SpellThree(MemberUnits(ms[0]), comma, EncodeMembers(ms[1..]));
    SpellMember(ms[0]);
    SpellBare(",");
    SpellNothing();
    if |ms| == 1 { assert "" + "" == ""; }
  }

  lemma LiteralsAreSpelled()
    ensures Spell(Encode(JNull)) == "null" && Spell(Encode(JBool(true))) == "true" && Spell(Encode(JBool(false))) == "false"
  {
    hide Spell, Bare;
    SpellBare("null");
    SpellBare("true");
    SpellBare("false");
  }

  lemma QuotedIsSolid(text: Text)
    ensures Solid(Spell(Quoted(text)))
  {
    hide Spell, Units, Quoted;
    SpellQuoted(text, "");
    assert Spell(Quoted(text)) + "" == Spell(Quoted(text));
  }

  lemma IntIsSolid(n: int)
    ensures Solid(Spell(Encode(JInt(n))))
  {
    hide Spell, Encode, Digits;
    SpellInt(n);
  }

  lemma EncodedIsSolid(v: Value)
    requires Writable(v)
    ensures Solid(Spell(Encode(v)))
  {
    assert !v.JOtherNumber?;
    if v.JString? { assert Encode(v) == Quoted(v.s); }
    hide Spell, Encode, Quoted, Writable, Solid;
    match v
    case JNull => LiteralIsSolid(v);
    case JBool(b) => LiteralIsSolid(v);
    case JInt(n) => IntIsSolid(n);
    case JString(s) => QuotedIsSolid(s);
    case JArray(items) => BracketsAreSolid(items, []);
    case JObject(ms) => BracketsAreSolid([], ms);
  }

  lemma LiteralIsSolid(v: Value)
    requires v.JNull? || v.JBool?
    ensures Solid(Spell(Encode(v)))
  {
    hide Spell, Encode;
    LiteralsAreSpelled();
  }

  lemma BracketsAreSolid(items: seq<Value>, ms: seq<Member>)
    ensures Solid(Spell(Encode(JArray(items)))) && Solid(Spell(Encode(JObject(ms))))
  {
    hide Spell, Encode, EncodeItems, EncodeMembers;
    SpellArray(items);
    SpellObject(ms);
  }

  lemma StringValueReadsBack(text: Text, rest: Text)
    ensures ReadValue(Spell(Quoted(text)) + rest) == Got(JString(text), rest)
  {
    hide Spell, Units, Quoted, ReadString;
    SpellQuoted(text, rest);
    var body := Spell(Units(text)) + ("\"" + rest);
    assert ("\"" + body)[1..] == body;
    UnitsReadBack(text, rest);
  }

  lemma ReadNegative(body: Text)
    ensures ReadValue("-" + body) == ReadUnsigned(body, true)
  {
    hide ReadUnsigned, ReadString, ReadItems, ReadMembers;
    assert ("-" + body)[1..] == body;
  }

  lemma ReadPositive(s: Text)
    requires s != "" && '0' <= s[0] <= '9'
    ensures ReadValue(s) == ReadUnsigned(s, false)
  {
    hide ReadUnsigned, ReadString, ReadItems, ReadMembers;
  }

  lemma IntReadsBack(n: int, rest: Text)
    requires Stops(rest)
    ensures ReadValue(Spell(Encode(JInt(n))) + rest) == Got(JInt(n), rest)
  {
    hide Spell, Encode, Digits, ReadUnsigned, ReadValue, Stops;
    SpellInt(n);
    if n < 0 {
      NumberReadsBack(-n, true, rest);
      Concatenated("-", Digits(-n), rest);
      ReadNegative(Digits(-n) + rest);
    } else {
      NumberReadsBack(n, false, rest);
      ReadPositive(Digits(n) + rest);
    }
  }

  lemma LiteralReadsBack(v: Value, rest: Text)
    requires v.JNull? || v.JBool?
    ensures ReadValue(Spell(Encode(v)) + rest) == Got(v, rest)
  {
    hide Spell, Encode, ReadUnsigned, ReadString, ReadItems, ReadMembers;
    LiteralsAreSpelled();
    if v.JNull? {
      assert ("null" + rest)[4..] == rest;
    } else if v.b {
      assert ("true" + rest)[4..] == rest;
    } else {
      assert ("false" + rest)[5..] == rest;
    }
  }

  /** Whatever stands after it, a value that was written is read back as it was, to its end and no further. */
  lemma {:induction false} ValueReadsBack(v: Value, rest: Text)
    requires Writable(v) && Stops(rest)
    ensures ReadValue(Spell(Encode(v)) + rest) == Got(v, rest)
    decreases v, 0
  {
    match v
    case JString(s) => StringValueReadsBack(s, rest);
    case JInt(n) => IntReadsBack(n, rest);
    case JArray(items) => ArrayReadsBack(items, rest);
    case JObject(ms) => ObjectReadsBack(ms, rest);
    case _ => LiteralReadsBack(v, rest);
  }

  lemma {:induction false} ArrayReadsBack(items: seq<Value>, rest: Text)
    requires forall i | 0 <= i < |items| :: Writable(items[i])
    ensures ReadValue(Spell(Encode(JArray(items))) + rest) == Got(JArray(items), rest)
    decreases items, 2
  {
    hide Spell, Encode, EncodeItems, ReadItems, SkipSpace, Writable;
    SpellArray(items);
    var body := Spell(EncodeItems(items)) + ("]" + rest);
    assert Spell(Encode(JArray(items))) + rest == "[" + body;
    assert ("[" + body)[1..] == body;
    if items == [] {
      EndsAtOnce(']', rest);
      assert Spell(EncodeItems(items)) == "" by { EncodesNothing(); }
      assert body == "]" + rest && body[1..] == rest;
    } else {
      ItemsReadBack(items, rest);
      ItemsAreSolid(items);
      SolidIsNotSkipped(Spell(EncodeItems(items)), "]" + rest);
    }
  }

  lemma EncodesNothing()
    ensures Spell(EncodeItems([])) == "" && Spell(EncodeMembers([])) == ""
  {
  }

  lemma EndsAtOnce(c: char, rest: Text)
    requires !JsonSpace(c)
    ensures SkipSpace([c] + rest) == [c] + rest
  {
  }

  lemma ItemsAreSolid(items: seq<Value>)
    requires items != [] && forall i | 0 <= i < |items| :: Writable(items[i])
    ensures Solid(Spell(EncodeItems(items)))
  {
    hide Spell, Encode, EncodeItems, Writable;
    SpellItems(items);
    EncodedIsSolid(items[0]);
  }

  lemma {:induction false} ItemsReadBack(items: seq<Value>, rest: Text)
    requires items != [] && forall i | 0 <= i < |items| :: Writable(items[i])
    ensures ReadItems(Spell(EncodeItems(items)) + ("]" + rest)) == Got(items, rest)
    decreases items, 1
  {
    hide Spell, Encode, EncodeItems, ReadValue, SkipSpace, Writable, Solid;
    SpellItems(items);
    EncodedIsSolid(items[0]);
    var first := Spell(Encode(items[0]));
    if |items| == 1 {
      assert Spell(EncodeItems(items)) + ("]" + rest) == first + ("]" + rest);
      SolidIsNotSkipped(first, "]" + rest);
      ValueReadsBack(items[0], "]" + rest);
      EndsAtOnce(']', rest);
      assert ("]" + rest)[1..] == rest && items == [items[0]];
    } else {
      var tail := Spell(EncodeItems(items[1..])) + ("]" + rest);
      assert Spell(EncodeItems(items)) + ("]" + rest) == first + ("," + tail);
      SolidIsNotSkipped(first, "," + tail);
      ValueReadsBack(items[0], "," + tail);
      EndsAtOnce(',', tail);
      assert ("," + tail)[1..] == tail;
      ItemsReadBack(items[1..], rest);
      assert items == [items[0]] + items[1..];
    }
  }

  lemma {:induction false} ObjectReadsBack(ms: seq<Member>, rest: Text)
    requires forall i | 0 <= i < |ms| :: Writable(ms[i].value)
    ensures ReadValue(Spell(Encode(JObject(ms))) + rest) == Got(JObject(ms), rest)
    decreases ms, 2
  {
    hide Spell, Encode, EncodeMembers, ReadMembers, SkipSpace, Writable;
    SpellObject(ms);
    var body := Spell(EncodeMembers(ms)) + ("}" + rest);
    assert Spell(Encode(JObject(ms))) + rest == "{" + body;
    assert ("{" + body)[1..] == body;
    if ms == [] {
      EndsAtOnce('}', rest);
      assert Spell(EncodeMembers(ms)) == "" by { EncodesNothing(); }
      assert body == "}" + rest && body[1..] == rest;
    } else {
      MembersReadBack(ms, rest);
      MembersAreSolid(ms);
      SolidIsNotSkipped(Spell(EncodeMembers(ms)), "}" + rest);
    }
  }

  lemma MembersAreSolid(ms: seq<Member>)
    requires ms != []
    ensures Solid(Spell(EncodeMembers(ms)))
  {
    hide Spell, Encode, EncodeMembers, Quoted;
    SpellMembers(ms);
    QuotedIsSolid(ms[0].key);
  }

  /** A key, a colon and a value, to their end. */
  lemma {:induction false} MemberReadsBack(m: Member, rest: Text)
    requires Writable(m.value) && Stops(rest)
    ensures ReadMember(SpelledMember(m) + rest) == Got(m, rest)
    decreases m, 1
  {
    hide Spell, Encode, Quoted, Units, ReadString, ReadValue, Writable;
    var value := Spell(Encode(m.value)) + rest;
    assert SpelledMember(m) + rest == Spell(Quoted(m.key)) + (":" + value);
    SpellQuoted(m.key, ":" + value);
    var body := Spell(Units(m.key)) + ("\"" + (":" + value));
    assert ("\"" + body)[1..] == body;
    EndsAtOnce('"', body);
    UnitsReadBack(m.key, ":" + value);
    EndsAtOnce(':', value);
    assert (":" + value)[1..] == value;
    EncodedIsSolid(m.value);
    SolidIsNotSkipped(Spell(Encode(m.value)), rest);
    ValueReadsBack(m.value, rest);
  }

  lemma {:induction false} MembersReadBack(ms: seq<Member>, rest: Text)
    requires ms != [] && forall i | 0 <= i < |ms| :: Writable(ms[i].value)
    ensures ReadMembers(Spell(EncodeMembers(ms)) + ("}" + rest)) == Got(ms, rest)
    decreases ms, 1
  {
    hide Spell, Encode, EncodeMembers, ReadMember, SkipSpace, Writable, SpelledMember;
    SpellMembers(ms);
    var first := SpelledMember(ms[0]);
    if |ms| == 1 {
      assert Spell(EncodeMembers(ms)) + ("}" + rest) == first + ("}" + rest);
      MemberReadsBack(ms[0], "}" + rest);
      EndsAtOnce('}', rest);
      assert ("}" + rest)[1..] == rest && ms == [ms[0]];
    } else {
      var tail := Spell(EncodeMembers(ms[1..])) + ("}" + rest);
      assert Spell(EncodeMembers(ms)) + ("}" + rest) == first + ("," + tail);
      MemberReadsBack(ms[0], "," + tail);
      EndsAtOnce(',', tail);
      assert ("," + tail)[1..] == tail;
      MembersReadBack(ms[1..], rest);
      assert ms == [ms[0]] + ms[1..];
    }
  }

  /** A file that holds one written value reads as just that value, and ends cleanly. */
  lemma FileReadsBack(v: Value)
    requires Writable(v)
    ensures ReadAll(Spell(Encode(v))) == ([v], true)
  {
    hide Spell, Encode, ReadValue, Writable;
    var s := Spell(Encode(v));
    EncodedIsSolid(v);
    SolidIsNotSkipped(s, "");
    assert s + "" == s;
    ValueReadsBack(v, "");
    assert ReadAll("") == ([], true);
    assert [v] + [] == [v];
  }
}
