/** How encoding/json writes a tree down, and why the loader's scan never refuses what it writes. */
module Encoding {
  import opened Prelude
  import opened Json
  import opened Escapes

  /** A character inside a string: as it is, by a short escape, or by its code, as Go does for HTML's sake too. */
  function UnitOf(c: char): (u: Unit)
    ensures Whole(u)
  {
    if c == '"' || c == '\\' then Short(c)
    else if c == '\n' then Short('n')
    else if c == '\r' then Short('r')
    else if c == '\t' then Short('t')
    else if c as int == 0x08 then Short('b')
    else if c as int == 0x0C then Short('f')
    else if c as int < 0x20 || c in {'<', '>', '&'} || c as int in {0x2028, 0x2029} then
      Long(c as int, SMALL)
    else Raw(c)
  }

  /** The encoder's hexadecimal digits are small. */
  const SMALL: seq<bool> := [false, false, false, false]

  ghost predicate AllWhole(us: seq<Unit>) {
    forall i | 0 <= i < |us| :: Whole(us[i])
  }

  /** A complete escape, or none, and no half of a pair. */
  predicate Whole(u: Unit) {
    u.Legal() && !u.Stray? && !u.IsLeading() && !u.IsTrailing()
  }

  function Units(s: Text): (us: seq<Unit>)
    ensures AllWhole(us)
  {
    if s == "" then [] else [UnitOf(s[0])] + Units(s[1..])
  }

  /** Text that needs no escape: punctuation, digits and the three literals. */
  function Bare(s: Text): (us: seq<Unit>)
    requires '\\' !in s
    ensures AllWhole(us)
  {
    seq(|s|, i requires 0 <= i < |s| => Raw(s[i]))
  }

  function Quoted(s: Text): (us: seq<Unit>)
    ensures AllWhole(us)
  {
    Bare("\"") + Units(s) + Bare("\"")
  }

  /** The whole tree. A number that is not an integer is never written by this program; some literal stands for it. */
  function Encode(v: Value): (us: seq<Unit>)
    ensures AllWhole(us)
    decreases v, 0
  {
    match v
    case JNull => Bare("null")
    case JBool(b) => if b then Bare("true") else Bare("false")
    case JInt(n) => if n < 0 then Bare("-") + Bare(Digits(-n)) else Bare(Digits(n))
    case JOtherNumber => Bare("0.5")
    case JString(s) => Quoted(s)
    case JArray(items) => Bare("[") + EncodeItems(items) + Bare("]")
    case JObject(members) => Bare("{") + EncodeMembers(members) + Bare("}")
  }

  function EncodeItems(vs: seq<Value>): (us: seq<Unit>)
    ensures AllWhole(us)
    decreases vs, 0
  {
    if vs == [] then []
    else Encode(vs[0]) + (if |vs| == 1 then [] else Bare(",")) + EncodeItems(vs[1..])
  }

  function EncodeMembers(ms: seq<Member>): (us: seq<Unit>)
    ensures AllWhole(us)
    decreases ms, 0
  {
    if ms == [] then []
    else Quoted(ms[0].key) + Bare(":") + Encode(ms[0].value) + (if |ms| == 1 then [] else Bare(",")) + EncodeMembers(ms[1..])
  }

  /** What is written passes the scan, whatever the strings hold: quotes, backslashes, a spelled-out \ud800. */
  lemma EncodedTextPasses(v: Value)
    ensures Passes(Spell(Encode(v)))
  {
    hide Passes, Encode, Spell;
    WholeIsPaired(Encode(v));
    CheckEscapesIsExact(Encode(v));
  }

  lemma WholeIsPaired(us: seq<Unit>)
    requires AllWhole(us)
    ensures AllLegal(us) && Paired(us) && forall i | 0 <= i < |us| :: !us[i].Stray?
  {
  }

  function Codes(s: Text): seq<nat> {
    seq(|s|, i requires 0 <= i < |s| => s[i] as int)
  }

  lemma DecodeUnit(c: char, t: Text)
    ensures Decode(UnitOf(c).Spelled() + t) == Cons(c as int, Decode(t))
  {
    hide HexText, Hex4;
    var s := UnitOf(c).Spelled() + t;
    if UnitOf(c).Long? {
      HexRoundTrip(c as int, SMALL);
      assert s[2..6] == HexText(c as int, SMALL) && s[6..] == t;
    } else if UnitOf(c).Short? {
      assert s[2..] == t;
    } else {
      assert s[1..] == t;
    }
  }

  /** And every string in it reads back as itself. */
  lemma {:induction false} StringReadsBack(s: Text)
    ensures Decode(Spell(Units(s))) == Some(Codes(s))
  {
    if s == "" {
      assert Spell(Units(s)) == "" && Codes(s) == [];
    } else {
      SpellUnits(s);
      CodesFirst(s);
      hide Decode, UnitOf, Units, Spell, Codes;
      StringReadsBack(s[1..]);
      DecodeUnit(s[0], Spell(Units(s[1..])));
    }
  }

  lemma SpellUnits(s: Text)
    requires s != ""
    ensures Spell(Units(s)) == UnitOf(s[0]).Spelled() + Spell(Units(s[1..]))
  {
    hide UnitOf;
    assert Units(s)[0] == UnitOf(s[0]) && Units(s)[1..] == Units(s[1..]);
  }

  lemma CodesFirst(s: Text)
    requires s != ""
    ensures Codes(s) == [s[0] as int] + Codes(s[1..])
  {
  }
}
