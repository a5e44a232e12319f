/** The scanner that decides whether every surrogate escape is half of a pair (RFC 8259, section 7). */
module Escapes {
  import opened Prelude

  function HexDigit(c: char): (r: Option<nat>)
    ensures r.Some? ==> r.value < 16
  {
    if '0' <= c <= '9' then Some(c as int - '0' as int)
    else if 'a' <= c <= 'f' then Some(c as int - 'a' as int + 10)
    else if 'A' <= c <= 'F' then Some(c as int - 'A' as int + 10)
    else None
  }

  /** strconv.ParseUint(s, 16, 16) on four characters. */
  function Hex4(s: Text): (r: Option<nat>)
    requires |s| == 4
    ensures r.Some? ==> r.value < 0x1_0000
  {
    var a, b, c, d := HexDigit(s[0]), HexDigit(s[1]), HexDigit(s[2]), HexDigit(s[3]);
    if a.Some? && b.Some? && c.Some? && d.Some?
    then Some(a.value * 4096 + b.value * 256 + c.value * 16 + d.value)
    else None
  }

  predicate Leading(code: nat) { 0xD800 <= code <= 0xDBFF }
  predicate Trailing(code: nat) { 0xDC00 <= code <= 0xDFFF }

  /** Whether the text from here on passes, on any characters at all. */
  predicate Passes(s: Text)
    decreases |s|
  {
    if s == "" then true
    else if s[0] != '\\' then Passes(s[1..])
    else if |s| < 2 then true
    else if s[1] != 'u' then Passes(s[2..])
    else if |s| < 6 then true
    else
      match Hex4(s[2..6])
      case None => Passes(s[2..])
      case Some(code) =>
        if Trailing(code) then false
        else if Leading(code) then
          && |s| >= 12 && s[6] == '\\' && s[7] == 'u'
          && Hex4(s[8..12]).Some? && Trailing(Hex4(s[8..12]).value)
          && Passes(s[12..])
        else Passes(s[6..])
  }

  datatype Problem = LoneTrailing(code: nat) | Unpaired(code: nat)

  /** What stops the scan first, with the surrogate it stops at. */
  function FirstProblem(s: Text): (err: Option<Problem>)
    ensures err == None <==> Passes(s)
    ensures err.Some? ==> if err.value.LoneTrailing? then Trailing(err.value.code) else Leading(err.value.code)
    decreases |s|
  {
    if s == "" then None
    else if s[0] != '\\' then FirstProblem(s[1..])
    else if |s| < 2 then None
    else if s[1] != 'u' then FirstProblem(s[2..])
    else if |s| < 6 then None
    else
      match Hex4(s[2..6])
      case None => FirstProblem(s[2..])
      case Some(code) =>
        if Trailing(code) then Some(LoneTrailing(code))
        else if Leading(code) then
          if |s| >= 12 && s[6] == '\\' && s[7] == 'u' && Hex4(s[8..12]).Some? && Trailing(Hex4(s[8..12]).value)
          then FirstProblem(s[12..])
          else Some(Unpaired(code))
        else FirstProblem(s[6..])
  }

  /** The loop of the source; it has no precondition, so no index is ever out of range. */
  method CheckEscapes(text: Text) returns (err: Option<Problem>)
    ensures err == FirstProblem(text)
    ensures err == None <==> Passes(text)
  {
    var i := 0;
    assert text[0..] == text;
    while i < |text|
      invariant 0 <= i <= |text|
      invariant FirstProblem(text) == FirstProblem(text[i..])
    {
      ghost var s := text[i..];
      assert forall n | 0 <= n <= |s| :: s[n..] == text[i + n..];
      if text[i] != '\\' {
        i := i + 1;
        continue;
      }
      if i + 1 >= |text| {
        break;
      }
      if text[i + 1] != 'u' {
        i := i + 2;
        continue;
      }
      if i + 6 > |text| {
        break;
      }
      assert s[2..6] == text[i + 2..i + 6];
      var point := Hex4(text[i + 2..i + 6]);
      if point == None {
        i := i + 2;
        continue;
      }
      var r := point.value;
      if 0xDC00 <= r <= 0xDFFF {
        return Some(LoneTrailing(r));
      } else if 0xD800 <= r <= 0xDBFF {
        if i + 12 > |text| || text[i + 6] != '\\' || text[i + 7] != 'u' {
          return Some(Unpaired(r));
        }
        assert s[8..12] == text[i + 8..i + 12];
        var low := Hex4(text[i + 8..i + 12]);
        if low == None || low.value < 0xDC00 || low.value > 0xDFFF {
          return Some(Unpaired(r));
        }
        i := i + 12;
      } else {
        i := i + 6;
      }
    }
    return None;
  }

  // ---------------------------------------------------------------- exactness

  /**
   One character of well-formed text: itself, a two-character escape, or \\u and four hexadecimal digits
   that spell a code, each in either letter case. Stray is \\u with something else behind it.
   */
  datatype Unit = Raw(c: char) | Short(c: char) | Long(code: nat, capitals: seq<bool>) | Stray {
    predicate Legal() {
      match this
      case Raw(c) => c != '\\'
      case Short(c) => c != 'u'
      case Long(code, capitals) => code < 0x1_0000 && |capitals| == 4
      case Stray => true
    }

    function Spelled(): Text
      requires Legal()
    {
      match this
      case Raw(c) => [c]
      case Short(c) => ['\\', c]
      case Long(code, capitals) => "\\u" + HexText(code, capitals)
      case Stray => "\\u"
    }

    predicate IsLeading() { Long? && 0xD800 <= code <= 0xDBFF }
    predicate IsTrailing() { Long? && 0xDC00 <= code <= 0xDFFF }
  }

  /** A hexadecimal digit, small or capital. */
  function HexChar(n: nat, capital: bool): char
    requires n < 16
  {
    if capital then "0123456789ABCDEF"[n] else "0123456789abcdef"[n]
  }

  /** A code in four digits, the most significant first. */
  function HexText(n: nat, capitals: seq<bool>): (s: Text)
    requires n < 0x1_0000 && |capitals| == 4
    ensures |s| == 4
  {
    [HexChar(n / 4096, capitals[0]), HexChar(n / 256 % 16, capitals[1]),
     HexChar(n / 16 % 16, capitals[2]), HexChar(n % 16, capitals[3])]
  }

  ghost predicate AllLegal(us: seq<Unit>) {
    forall i | 0 <= i < |us| :: us[i].Legal()
  }

  function Spell(us: seq<Unit>): Text
    requires AllLegal(us)
  {
    if us == [] then "" else us[0].Spelled() + Spell(us[1..])
  }

  /** Every surrogate escape is one half of an adjacent leading-trailing pair. */
  ghost predicate Paired(us: seq<Unit>) {
    && (forall i | 0 <= i < |us| && us[i].IsLeading() :: i + 1 < |us| && us[i + 1].IsTrailing())
    && (forall i | 0 <= i < |us| && us[i].IsTrailing() :: i > 0 && us[i - 1].IsLeading())
  }

  /** One of the twenty-two hexadecimal digits. */
  predicate IsHex(c: char) {
    c in "0123456789abcdefABCDEF"
  }

  /** Four characters follow, and one of them is no hexadecimal digit. */
  predicate NoCode(t: Text) {
    |t| >= 4 && exists k :: 0 <= k < 4 && !IsHex(t[k])
  }

  /** A stray stands only where no code follows. */
  ghost predicate Placed(us: seq<Unit>, tail: Text) {
    && AllLegal(us)
    && (us == [] || ((us[0].Stray? ==> NoCode(Spell(us[1..]) + tail)) && Placed(us[1..], tail)))
  }

  /** What is left when the text ends inside an escape. */
  predicate Cut(tail: Text) {
    tail == "" || tail == "\\" || ("\\u" <= tail && |tail| < 6)
  }

  /** A surrogate escape that is no half of an adjacent pair. */
  predicate LoneAt(us: seq<Unit>, i: nat)
    requires i < |us|
  {
    || (us[i].IsTrailing() && !(i > 0 && us[i - 1].IsLeading()))
    || (us[i].IsLeading() && !(i + 1 < |us| && us[i + 1].IsTrailing()))
  }

  /** What is to be said of the first such. */
  function FirstLone(us: seq<Unit>): Option<Problem> {
    if us == [] then None
    else if us[0].IsTrailing() then Some(LoneTrailing(us[0].code))
    else if !us[0].IsLeading() then FirstLone(us[1..])
    else if |us| > 1 && us[1].IsTrailing() then FirstLone(us[2..])
    else Some(Unpaired(us[0].code))
  }

  lemma NoCodeReadsAsNone(t: Text)
    requires NoCode(t)
    ensures Hex4(t[..4]) == None
  {
    Hex4IsSpelled(t[..4]);
    hide Hex4;
    var k :| 0 <= k < 4 && !IsHex(t[k]);
    assert t[..4][k] == t[k];
  }

  lemma StrayIsScanned(t: Text)
    requires NoCode(t)
    ensures FirstProblem("\\u" + t) == FirstProblem(t) && !StartsTrailing("\\u" + t)
  {
    NoCodeReadsAsNone(t);
    assert |t| >= 4;
    hide Hex4, NoCode;
    var s := "\\u" + t;
    assert s[2..] == t && s[2..6] == t[..4];
  }

  lemma UnitIsScanned(u: Unit, t: Text)
    requires u.Legal() && (u.Stray? ==> NoCode(t))
    ensures var r := FirstProblem(u.Spelled() + t);
            if u.IsTrailing() then r == Some(LoneTrailing(u.code))
            else if u.IsLeading() then r == if StartsTrailing(t) then FirstProblem(t[6..]) else Some(Unpaired(u.code))
            else r == FirstProblem(t)
  {
    var s := u.Spelled() + t;
    match u
    case Raw(c) => assert s[1..] == t;
    case Short(c) => assert s[2..] == t;
    case Stray => StrayIsScanned(t);
    case Long(code, capitals) => LongIsScanned(code, capitals, t);
  }

  lemma LongIsScanned(code: nat, capitals: seq<bool>, t: Text)
    requires code < 0x1_0000 && |capitals| == 4
    ensures var r := FirstProblem("\\u" + HexText(code, capitals) + t);
            if Trailing(code) then r == Some(LoneTrailing(code))
            else if Leading(code) then r == if StartsTrailing(t) then FirstProblem(t[6..]) else Some(Unpaired(code))
            else r == FirstProblem(t)
  {
    HexRoundTrip(code, capitals);
    hide HexText, Hex4;
    var s := "\\u" + HexText(code, capitals) + t;
    assert s[2..6] == HexText(code, capitals) && s[6..] == t;
    if |t| >= 6 { assert s[8..12] == t[2..6] && s[12..] == t[6..]; }
  }

  /** The text goes on with an escape of a trailing surrogate. */
  predicate StartsTrailing(t: Text) {
    |t| >= 6 && t[0] == '\\' && t[1] == 'u' && Hex4(t[2..6]).Some? && Trailing(Hex4(t[2..6]).value)
  }

  lemma PairedWithoutHead(us: seq<Unit>)
    requires us != [] && !us[0].IsLeading() && !us[0].IsTrailing()
    ensures Paired(us) <==> Paired(us[1..])
  {
    var rest := us[1..];
    assert forall i | 0 <= i < |rest| :: rest[i] == us[i + 1];
    if Paired(rest) {
      forall i | 0 <= i < |us| && us[i].IsLeading() ensures i + 1 < |us| && us[i + 1].IsTrailing() {
        assert rest[i - 1] == us[i];
      }
      forall i | 0 <= i < |us| && us[i].IsTrailing() ensures i > 0 && us[i - 1].IsLeading() {
        assert rest[i - 1] == us[i];
      }
    }
    if Paired(us) {
      forall i | 0 <= i < |rest| && rest[i].IsTrailing() ensures i > 0 && rest[i - 1].IsLeading() {
        assert us[i + 1].IsTrailing() && us[i].IsLeading();
      }
    }
  }

  lemma PairedWithoutPair(us: seq<Unit>)
    requires |us| >= 2 && us[0].IsLeading() && us[1].IsTrailing()
    ensures Paired(us) <==> Paired(us[2..])
  {
    var rest := us[2..];
    assert forall i | 0 <= i < |rest| :: rest[i] == us[i + 2];
    if Paired(rest) {
      forall i | 0 <= i < |us| && us[i].IsLeading() ensures i + 1 < |us| && us[i + 1].IsTrailing() {
        if i >= 2 { assert rest[i - 2] == us[i]; }
      }
      forall i | 0 <= i < |us| && us[i].IsTrailing() ensures i > 0 && us[i - 1].IsLeading() {
        if i >= 2 { assert rest[i - 2] == us[i]; }
      }
    }
    if Paired(us) {
      forall i | 0 <= i < |rest| && rest[i].IsTrailing() ensures i > 0 && rest[i - 1].IsLeading() {
        assert us[i + 2].IsTrailing() && us[i + 1].IsLeading();
      }
    }
  }

  lemma TrailingStarts(u: Unit, t: Text)
    requires u.Legal() && u.IsTrailing()
    ensures StartsTrailing(u.Spelled() + t) && (u.Spelled() + t)[6..] == t
  {
    HexRoundTrip(u.code, u.capitals);
    hide HexText, Hex4;
    var s := u.Spelled() + t;
    assert s[2..6] == HexText(u.code, u.capitals);
  }

  /** What a unit other than a trailing surrogate spells does not start like one. */
  lemma NotATrailing(u: Unit, t: Text)
    requires u.Legal() && !u.IsTrailing() && (u.Stray? ==> NoCode(t))
    ensures !StartsTrailing(u.Spelled() + t)
  {
    var s := u.Spelled() + t;
    if u.Long? {
      HexRoundTrip(u.code, u.capitals);
      hide HexText, Hex4;
      assert s[2..6] == HexText(u.code, u.capitals);
    } else if u.Stray? {
      StrayIsScanned(t);
    }
  }

  lemma CutIsFine(tail: Text)
    requires Cut(tail)
    ensures FirstProblem(tail) == None && !StartsTrailing(tail)
  {
  }

  /** On text built of units, whatever it is cut off at, the scan stops at the first lone surrogate, if at any. */
  lemma {:induction false} ScanFindsTheFirstLone(us: seq<Unit>, tail: Text)
    requires Placed(us, tail) && Cut(tail)
    ensures FirstProblem(Spell(us) + tail) == FirstLone(us)
    decreases |us|
  {
    hide FirstProblem, Hex4, HexText, NoCode, Cut;
    if us == [] {
      CutIsFine(tail);
      assert Spell(us) + tail == tail;
    } else {
      var u, rest := us[0], us[1..];
      var t := Spell(rest) + tail;
      Concatenated(u.Spelled(), Spell(rest), tail);
      UnitIsScanned(u, t);
      if u.IsTrailing() {
      } else if !u.IsLeading() {
        ScanFindsTheFirstLone(rest, tail);
      } else if rest == [] {
        CutIsFine(tail);
        assert Spell(rest) + tail == tail;
      } else {
        Concatenated(rest[0].Spelled(), Spell(rest[1..]), tail);
        assert rest[1..] == us[2..];
        if rest[0].IsTrailing() {
          TrailingStarts(rest[0], Spell(rest[1..]) + tail);
          ScanFindsTheFirstLone(us[2..], tail);
        } else {
          NotATrailing(rest[0], Spell(rest[1..]) + tail);
        }
      }
    }
  }

  /** `p` tells of the first lone surrogate from `n` on, which stands at `i`. */
  predicate FirstLoneAt(us: seq<Unit>, n: nat, i: nat, p: Problem) {
    && n <= i < |us| && LoneAt(us, i)
    && p == (if us[i].IsTrailing() then LoneTrailing(us[i].code) else Unpaired(us[i].code))
    && forall j: nat | n <= j < i :: !LoneAt(us, j)
  }

  /** The first lone surrogate, by where it stands. */
  lemma {:induction false} FirstLoneMeans(us: seq<Unit>)
    ensures FirstLone(us) == None <==> Paired(us)
    ensures FirstLone(us).Some? ==> exists i: nat :: FirstLoneAt(us, 0, i, FirstLone(us).value)
    decreases |us|
  {
    hide FirstLoneAt, Paired;
    if us == [] {
      NobodyIsPaired();
    } else if us[0].IsTrailing() {
      LoneAtOnce(us);
    } else if !us[0].IsLeading() {
      FirstLoneMeans(us[1..]);
      PairedWithoutHead(us);
      if FirstLone(us).Some? {
        var i: nat :| FirstLoneAt(us[1..], 0, i, FirstLone(us[1..]).value);
        LoneShifts(us, 1, i, FirstLone(us[1..]).value);
      }
    } else if |us| > 1 && us[1].IsTrailing() {
      FirstLoneMeans(us[2..]);
      PairedWithoutPair(us);
      if FirstLone(us).Some? {
        var i: nat :| FirstLoneAt(us[2..], 0, i, FirstLone(us[2..]).value);
        LoneShifts(us, 2, i, FirstLone(us[2..]).value);
      }
    } else {
      LoneAtOnce(us);
    }
  }

  lemma NobodyIsPaired()
    ensures Paired([])
  {
  }

  lemma LoneAtOnce(us: seq<Unit>)
    requires us != [] && LoneAt(us, 0)
    ensures !Paired(us)
    ensures FirstLoneAt(us, 0, 0, if us[0].IsTrailing() then LoneTrailing(us[0].code) else Unpaired(us[0].code))
  {
  }

  /** Behind what is in order, what is lone stays lone and in its place. */
  lemma LoneShifts(us: seq<Unit>, n: nat, i: nat, p: Problem)
    requires 0 < n <= 2 && n <= |us| && !us[n - 1].IsLeading()
    requires forall j: nat | j < n :: !LoneAt(us, j)
    requires FirstLoneAt(us[n..], 0, i, p)
    ensures FirstLoneAt(us, 0, i + n, p)
  {
    var rest := us[n..];
    forall j: nat | j < |rest| ensures rest[j] == us[j + n] && (LoneAt(rest, j) <==> LoneAt(us, j + n)) { }
    forall j: nat | j < i + n ensures !LoneAt(us, j) {
      if j >= n { assert !LoneAt(rest, j - n); }
    }
  }

  /**
   On any text built of characters, escapes complete or stray, and perhaps cut off, in whatever letter
   case, the scan passes exactly when every surrogate escape is half of an adjacent pair.
   */
  lemma AnyTextPassesIff(us: seq<Unit>, tail: Text)
    requires Placed(us, tail) && Cut(tail)
    ensures Passes(Spell(us) + tail) <==> Paired(us)
    ensures FirstProblem(Spell(us) + tail) == FirstLone(us)
  {
    hide Passes, Placed, Paired;
    ScanFindsTheFirstLone(us, tail);
    FirstLoneMeans(us);
  }

  lemma {:induction false} CompleteIsPlaced(us: seq<Unit>)
    requires AllLegal(us) && forall i | 0 <= i < |us| :: !us[i].Stray?
    ensures Placed(us, "")
  {
    if us != [] { CompleteIsPlaced(us[1..]); }
  }

  /** In particular on text whose backslashes all begin complete escapes. */
  lemma CheckEscapesIsExact(us: seq<Unit>)
    requires AllLegal(us) && forall i | 0 <= i < |us| :: !us[i].Stray?
    ensures Passes(Spell(us)) <==> Paired(us)
  {
    hide Passes, Paired;
    CompleteIsPlaced(us);
    AnyTextPassesIff(us, "");
    assert Spell(us) + "" == Spell(us);
  }

  /** And every text is so built, so the scan is settled on all of them. */
  lemma {:induction false} EveryTextIsUnits(s: Text) returns (us: seq<Unit>, tail: Text)
    ensures Placed(us, tail) && Cut(tail) && s == Spell(us) + tail
    decreases |s|
  {
    hide Hex4, HexText, Placed, Spell, Cut;
    if Cut(s) {
      us, tail := [], s;
      NothingInFront(s);
    } else {
      var u, n := FirstUnit(s);
      var more: seq<Unit>;
      more, tail := EveryTextIsUnits(s[n..]);
      us := [u] + more;
      UnitInFront(u, more, tail);
      assert s == s[..n] + s[n..];
    }
  }

  lemma NothingInFront(s: Text)
    ensures Placed([], s) && Spell([]) + s == s
  {
  }

  lemma UnitInFront(u: Unit, more: seq<Unit>, tail: Text)
    requires u.Legal() && Placed(more, tail) && (u.Stray? ==> NoCode(Spell(more) + tail))
    ensures Placed([u] + more, tail) && Spell([u] + more) + tail == u.Spelled() + (Spell(more) + tail)
  {
    hide NoCode, HexText;
    var us := [u] + more;
    assert us[1..] == more && us[0] == u;
    assert forall i | 1 <= i < |us| :: us[i] == more[i - 1];
    Concatenated(u.Spelled(), Spell(more), tail);
  }

  lemma FirstUnit(s: Text) returns (u: Unit, n: nat)
    requires !Cut(s)
    ensures u.Legal() && 0 < n <= |s| && s[..n] == u.Spelled() && (u.Stray? ==> NoCode(s[n..]))
  {
    if s[0] != '\\' {
      u, n := Raw(s[0]), 1;
    } else if s[1] != 'u' {
      u, n := Short(s[1]), 2;
    } else {
      u, n := FirstEscape(s);
    }
  }

  lemma FirstEscape(s: Text) returns (u: Unit, n: nat)
    requires |s| >= 6 && s[0] == '\\' && s[1] == 'u'
    ensures u.Legal() && 0 < n <= |s| && s[..n] == u.Spelled() && (u.Stray? ==> NoCode(s[n..]))
  {
    hide Hex4, HexText, IsHex, NoCode;
    EscapeIsPrefix(s);
    if Hex4(s[2..6]).Some? {
      var capitals := CapitalsOf(s[2..6]);
      u, n := Long(Hex4(s[2..6]).value, capitals), 6;
    } else {
      u, n := Stray, 2;
      StrayHasNoCode(s);
    }
  }

  lemma EscapeIsPrefix(s: Text)
    requires |s| >= 6 && s[0] == '\\' && s[1] == 'u'
    ensures s[..2] == "\\u" && s[..6] == "\\u" + s[2..6]
  {
  }

  lemma CapitalsOf(d: Text) returns (capitals: seq<bool>)
    requires |d| == 4 && Hex4(d).Some?
    ensures |capitals| == 4 && d == HexText(Hex4(d).value, capitals)
  {
    hide Hex4, HexText;
    Hex4IsSpelled(d);
    capitals :| |capitals| == 4 && d == HexText(Hex4(d).value, capitals);
  }

  lemma StrayHasNoCode(s: Text)
    requires |s| >= 6 && Hex4(s[2..6]) == None
    ensures NoCode(s[2..])
  {
    hide Hex4, HexText, IsHex;
    var d := s[2..6];
    Hex4IsSpelled(d);
    var k :| 0 <= k < 4 && !IsHex(d[k]);
    assert s[2..][k] == d[k];
  }

  // ---------------------------------------------------------------- escaping and reading back

  /** A Unicode scalar value. */
  predicate IsScalar(c: nat) {
    c <= 0x10_FFFF && !(0xD800 <= c <= 0xDFFF)
  }

  /** One \\uXXXX escape, or a pair of them beyond the basic plane, its eight digits in either letter case. */
  function EscapeOne(c: nat, capitals: seq<bool>): (us: seq<Unit>)
    requires IsScalar(c) && |capitals| == 8
    ensures AllLegal(us)
  {
    if c < 0x1_0000 then [Long(c, capitals[..4])]
    else [Long(0xD800 + (c - 0x1_0000) / 0x400, capitals[..4]), Long(0xDC00 + (c - 0x1_0000) % 0x400, capitals[4..])]
  }

  ghost predicate Escapable(cs: seq<nat>, capitals: seq<seq<bool>>) {
    |capitals| == |cs| && forall i | 0 <= i < |cs| :: IsScalar(cs[i]) && |capitals[i]| == 8
  }

  function EscapeAll(cs: seq<nat>, capitals: seq<seq<bool>>): (us: seq<Unit>)
    requires Escapable(cs, capitals)
    ensures AllLegal(us)
  {
    if cs == [] then [] else EscapeOne(cs[0], capitals[0]) + EscapeAll(cs[1..], capitals[1..])
  }

  function ShortValue(c: char): Option<nat> {
    match c
    case '"' => Some(0x22)
    case '\\' => Some(0x5C)
    case '/' => Some(0x2F)
    case 'b' => Some(0x08)
    case 'f' => Some(0x0C)
    case 'n' => Some(0x0A)
    case 'r' => Some(0x0D)
    case 't' => Some(0x09)
    case _ => None
  }

  /** A reader of the text: the scalars it denotes, if every escape in it denotes one. */
  function Decode(s: Text): Option<seq<nat>>
    decreases |s|
  {
    if s == "" then Some([])
    else if s[0] != '\\' then Cons(s[0] as int, Decode(s[1..]))
    else if |s| < 2 then None
    else if s[1] != 'u' then (match ShortValue(s[1]) case None => None case Some(c) => Cons(c, Decode(s[2..])))
    else if |s| < 6 then None
    else
      match Hex4(s[2..6])
      case None => None
      case Some(code) =>
        if Trailing(code) then None
        else if !Leading(code) then Cons(code, Decode(s[6..]))
        else if |s| >= 12 && s[6] == '\\' && s[7] == 'u' && Hex4(s[8..12]).Some? && Trailing(Hex4(s[8..12]).value)
        then Cons(0x1_0000 + (code - 0xD800) * 0x400 + (Hex4(s[8..12]).value - 0xDC00), Decode(s[12..]))
        else None
  }

  function Cons(c: nat, rest: Option<seq<nat>>): Option<seq<nat>> {
    match rest case None => None case Some(cs) => Some([c] + cs)
  }

  /** Of any text at all: what a strict reader can decode, the scan lets through. */
  lemma {:induction false} DecodableTextPasses(s: Text)
    requires Decode(s).Some?
    ensures Passes(s)
    decreases |s|
  {
    hide Hex4, ShortValue;
    if s == "" {
    } else if s[0] != '\\' {
      DecodableTextPasses(s[1..]);
    } else if s[1] != 'u' {
      DecodableTextPasses(s[2..]);
    } else if Leading(Hex4(s[2..6]).value) {
      DecodableTextPasses(s[12..]);
    } else {
      DecodableTextPasses(s[6..]);
    }
  }

  /** Each digit reads as its value, small or capital. */
  lemma HexDigitRoundTrip(n: nat, capital: bool)
    requires n < 16
    ensures HexDigit(HexChar(n, capital)) == Some(n)
  {
  }

  /** And nothing else does: what reads as a digit is that digit, small or capital. */
  lemma HexDigitIsSpelled(c: char)
    ensures HexDigit(c).Some? ==> c == HexChar(HexDigit(c).value, false) || c == HexChar(HexDigit(c).value, true)
    ensures HexDigit(c) == None <==> !IsHex(c)
  {
    OtherCharacters(c);
    hide *;
    DigitsBack(c);
  }

  lemma DigitsBack(c: char)
    ensures HexDigit(c).Some? ==> c == HexChar(HexDigit(c).value, false) || c == HexChar(HexDigit(c).value, true)
  {
  }

  lemma OtherCharacters(c: char)
    ensures HexDigit(c) == None <==> !IsHex(c)
  {
  }

  lemma FourDigits(n: nat)
    requires n < 0x1_0000
    ensures n == n / 4096 * 4096 + n / 256 % 16 * 256 + n / 16 % 16 * 16 + n % 16
  {
    assert n / 4096 == n / 256 / 16 && n / 256 == n / 16 / 16;
  }

  lemma DigitsOfFour(a: nat, b: nat, c: nat, d: nat)
    requires a < 16 && b < 16 && c < 16 && d < 16
    ensures var n := a * 4096 + b * 256 + c * 16 + d;
            n < 0x1_0000 && n / 4096 == a && n / 256 % 16 == b && n / 16 % 16 == c && n % 16 == d
  {
    var n := a * 4096 + b * 256 + c * 16 + d;
    assert n / 16 == a * 256 + b * 16 + c && n / 256 == a * 16 + b;
  }

  /** Four digits that spell a code, each in either letter case, read as that code. */
  lemma HexRoundTrip(n: nat, capitals: seq<bool>)
    requires n < 0x1_0000 && |capitals| == 4
    ensures Hex4(HexText(n, capitals)) == Some(n)
  {
    hide HexDigit, HexChar;
    FourDigits(n);
    HexDigitRoundTrip(n / 4096, capitals[0]);
    HexDigitRoundTrip(n / 256 % 16, capitals[1]);
    HexDigitRoundTrip(n / 16 % 16, capitals[2]);
    HexDigitRoundTrip(n % 16, capitals[3]);
  }

  /** Conversely what reads as a code spells it, and four characters read as nothing exactly when one is no digit. */
  lemma Hex4IsSpelled(s: Text)
    requires |s| == 4
    ensures Hex4(s).Some? ==> exists capitals: seq<bool> :: |capitals| == 4 && s == HexText(Hex4(s).value, capitals)
    ensures Hex4(s) == None <==> exists i :: 0 <= i < 4 && !IsHex(s[i])
  {
    forall i | 0 <= i < 4
      ensures HexDigit(s[i]) == None <==> !IsHex(s[i])
    {
      HexDigitIsSpelled(s[i]);
    }
    if Hex4(s).Some? { CodeIsSpelled(s); }
  }

  lemma TextOfDigits(a: nat, b: nat, c: nat, d: nat, capitals: seq<bool>)
    requires a < 16 && b < 16 && c < 16 && d < 16 && |capitals| == 4
    ensures var n := a * 4096 + b * 256 + c * 16 + d;
            n < 0x1_0000
            && HexText(n, capitals) == [HexChar(a, capitals[0]), HexChar(b, capitals[1]), HexChar(c, capitals[2]), HexChar(d, capitals[3])]
  {
    hide HexChar;
    DigitsOfFour(a, b, c, d);
  }

  lemma FourCharacters(s: Text, a: char, b: char, c: char, d: char)
    requires |s| == 4 && s[0] == a && s[1] == b && s[2] == c && s[3] == d
    ensures s == [a, b, c, d]
  {
  }

  lemma DigitIsSpelled(c: char) returns (capital: bool)
    requires HexDigit(c).Some?
    ensures c == HexChar(HexDigit(c).value, capital)
  {
    HexDigitIsSpelled(c);
    capital := c == HexChar(HexDigit(c).value, true);
  }

  lemma CodeOfDigits(s: Text)
    requires |s| == 4 && Hex4(s).Some?
    ensures HexDigit(s[0]).Some? && HexDigit(s[1]).Some? && HexDigit(s[2]).Some? && HexDigit(s[3]).Some?
    ensures Hex4(s).value == HexDigit(s[0]).value * 4096 + HexDigit(s[1]).value * 256 + HexDigit(s[2]).value * 16 + HexDigit(s[3]).value
  {
  }

  lemma CodeIsSpelled(s: Text)
    requires |s| == 4 && Hex4(s).Some?
    ensures exists capitals: seq<bool> :: |capitals| == 4 && s == HexText(Hex4(s).value, capitals)
  {
    hide HexDigit, HexChar, HexText, Hex4;
    CodeOfDigits(s);
    var p := DigitIsSpelled(s[0]);
    var q := DigitIsSpelled(s[1]);
    var r := DigitIsSpelled(s[2]);
    var t := DigitIsSpelled(s[3]);
    TextOfDigits(HexDigit(s[0]).value, HexDigit(s[1]).value, HexDigit(s[2]).value, HexDigit(s[3]).value, [p, q, r, t]);
    assert s == [s[0], s[1], s[2], s[3]];
  }

  lemma {:induction false} SpellConcat(a: seq<Unit>, b: seq<Unit>)
    requires AllLegal(a) && AllLegal(b)
    ensures AllLegal(a + b) && Spell(a + b) == Spell(a) + Spell(b)
  {
    hide HexText;
    if a == [] {
      assert a + b == b;
    } else {
      assert (a + b)[1..] == a[1..] + b && (a + b)[0] == a[0];
      SpellConcat(a[1..], b);
      Concatenated(a[0].Spelled(), Spell(a[1..]), Spell(b));
    }
  }

  lemma SpellOne(u: Unit)
    requires u.Legal()
    ensures Spell([u]) == u.Spelled()
  {
    assert [u][1..] == [];
  }

  lemma SpellTwo(u: Unit, v: Unit)
    requires u.Legal() && v.Legal()
    ensures Spell([u, v]) == u.Spelled() + v.Spelled()
  {
    assert [u, v][1..] == [v];
    SpellOne(v);
  }

  /** One escaped scalar in front of any text is read back as that scalar, and passes if the text does. */
  lemma EscapedOne(c: nat, capitals: seq<bool>, t: Text)
    requires IsScalar(c) && |capitals| == 8
    ensures Decode(Spell(EscapeOne(c, capitals)) + t) == Cons(c, Decode(t))
    ensures Passes(Spell(EscapeOne(c, capitals)) + t) <==> Passes(t)
  {
    hide HexText, Hex4;
    var s := Spell(EscapeOne(c, capitals)) + t;
    if c < 0x1_0000 {
      HexRoundTrip(c, capitals[..4]);
      SpellOne(Long(c, capitals[..4]));
      assert s[2..6] == HexText(c, capitals[..4]) && s[6..] == t;
    } else {
      var hi, lo := 0xD800 + (c - 0x1_0000) / 0x400, 0xDC00 + (c - 0x1_0000) % 0x400;
      HexRoundTrip(hi, capitals[..4]);
      HexRoundTrip(lo, capitals[4..]);
      SpellTwo(Long(hi, capitals[..4]), Long(lo, capitals[4..]));
      assert s[2..6] == HexText(hi, capitals[..4]) && s[8..12] == HexText(lo, capitals[4..]) && s[12..] == t;
    }
  }

  /** Escaping any sequence of Unicode scalars, in any letter case, gives text that is accepted and reads back as that sequence. */
  lemma {:induction false} EscapedTextReadsBack(cs: seq<nat>, capitals: seq<seq<bool>>)
    requires Escapable(cs, capitals)
    ensures Passes(Spell(EscapeAll(cs, capitals))) && Decode(Spell(EscapeAll(cs, capitals))) == Some(cs)
  {
    if cs != [] {
      hide Passes, Decode, EscapeOne, Spell;
      EscapedTextReadsBack(cs[1..], capitals[1..]);
      SpellConcat(EscapeOne(cs[0], capitals[0]), EscapeAll(cs[1..], capitals[1..]));
      EscapedOne(cs[0], capitals[0], Spell(EscapeAll(cs[1..], capitals[1..])));
      assert cs == [cs[0]] + cs[1..];
    }
  }
}
