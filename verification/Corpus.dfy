/** The loader of the conformance corpus: strict decoding, validation, and the way back. */
module Corpus {
  import opened Prelude
  import opened Json
  import KeyCheck
  import Escapes
  import Encoding
  import Reading

  datatype Scope = Scope(operation: Text, schema: Text, relation: Text, columnsWritten: seq<Text>, condition: Text)

  datatype Vector = Vector(name: Text, statement: Text, verdict: Text, scope: Option<Scope>, because: Text)

  datatype Corpus = Corpus(subsetVersion: int, vectors: seq<Vector>)

  const IN_SUBSET := "in_subset"
  const OUT_OF_GRAMMAR := "out_of_grammar"
  const UNSUPPORTED := "unsupported"
  const SELECT := "select"
  const INSERT := "insert"
  const UPDATE := "update"
  const DELETE := "delete"

  /** The largest integer every JSON reader represents exactly. */
  const MAX_EXACT := 0x1F_FFFF_FFFF_FFFF

  predicate AssignsColumns(operation: Text) { operation == UPDATE || operation == INSERT }
  predicate HasPredicate(operation: Text) { operation != INSERT }

  // ---------------------------------------------------------------- decoding

  /** The value under a key; there is at most one once the keys have been checked. */
  function Lookup(ms: seq<Member>, key: Text): Option<Value> {
    if ms == [] then None else if ms[0].key == key then Some(ms[0].value) else Lookup(ms[1..], key)
  }

  predicate Has(ms: seq<Member>, key: Text) { Lookup(ms, key).Some? }

  /** Into a string: absent and null leave it empty, any other type is an error. */
  function DecodeText(v: Option<Value>): Option<Text> {
    match v
    case None => Some("")
    case Some(JNull) => Some("")
    case Some(JString(s)) => Some(s)
    case _ => None
  }

  function DecodeItems(items: seq<Value>): Option<seq<Text>> {
    if items == [] then Some([])
    else
      match (DecodeText(Some(items[0])), DecodeItems(items[1..]))
      case (Some(s), Some(rest)) => Some([s] + rest)
      case _ => None
  }

  function DecodeTexts(v: Option<Value>): Option<seq<Text>> {
    match v
    case None => Some([])
    case Some(JNull) => Some([])
    case Some(JArray(items)) => DecodeItems(items)
    case _ => None
  }

  const SCOPE_KEYS: set<Text> := {"operation", "schema", "relation", "columns_written", "predicate"}
  const VECTOR_KEYS: set<Text> := {"name", "statement", "verdict", "scope", "because"}
  const CORPUS_KEYS: set<Text> := {"subset_version", "vectors"}

  function DecodeScope(ms: seq<Member>): Option<Scope> {
    if !(Keys(ms) <= SCOPE_KEYS) then None
    else
      match (DecodeText(Lookup(ms, "operation")), DecodeText(Lookup(ms, "schema")), DecodeText(Lookup(ms, "relation")),
             DecodeTexts(Lookup(ms, "columns_written")), DecodeText(Lookup(ms, "predicate")))
      case (Some(o), Some(s), Some(r), Some(c), Some(p)) => Some(Scope(o, s, r, c, p))
      case _ => None
  }

  /** The pointer to a scope: nil for absent and null. The outer option is the decoder's error. */
  function DecodeScopePointer(v: Option<Value>): Option<Option<Scope>> {
    match v
    case None => Some(None)
    case Some(JNull) => Some(None)
    case Some(JObject(ms)) => (match DecodeScope(ms) case None => None case Some(s) => Some(Some(s)))
    case _ => None
  }

  function MembersOf(v: Value): Option<seq<Member>> {
    match v case JNull => Some([]) case JObject(ms) => Some(ms) case _ => None
  }

  function DecodeVector(ms: seq<Member>): Option<Vector> {
    if !(Keys(ms) <= VECTOR_KEYS) then None
    else
      match (DecodeText(Lookup(ms, "name")), DecodeText(Lookup(ms, "statement")), DecodeText(Lookup(ms, "verdict")),
             DecodeScopePointer(Lookup(ms, "scope")), DecodeText(Lookup(ms, "because")))
      case (Some(n), Some(st), Some(v), Some(sc), Some(b)) => Some(Vector(n, st, v, sc, b))
      case _ => None
  }

  // ---------------------------------------------------------------- validation

  /** Scope.validate; `written` are the keys its author wrote. */
  predicate ValidScope(s: Scope, written: seq<Member>) {
    && s.operation in {SELECT, INSERT, UPDATE, DELETE}
    && !Blank(s.schema) && !Blank(s.relation)
    && (AssignsColumns(s.operation) ==> |s.columnsWritten| != 0)
    && (!AssignsColumns(s.operation) ==> !Has(written, "columns_written"))
    && (forall i | 0 <= i < |s.columnsWritten| :: !Blank(s.columnsWritten[i]))
    && (HasPredicate(s.operation) ==> !Blank(s.condition))
    && (!HasPredicate(s.operation) ==> !Has(written, "predicate"))
  }

  /** Vector.validate; a forbidden field is rejected for being present, not for being non-zero. */
  predicate ValidVector(v: Vector, written: seq<Member>) {
    && !Blank(v.name) && !Blank(v.statement) && v.verdict in {IN_SUBSET, OUT_OF_GRAMMAR, UNSUPPORTED}
    && (if v.verdict == IN_SUBSET then
          && v.scope.Some? && !Has(written, "because")
          && Lookup(written, "scope").Some? && Lookup(written, "scope").value.JObject?
          && ValidScope(v.scope.value, Lookup(written, "scope").value.members)
        else !Blank(v.because) && !Has(written, "scope"))
  }

  function LoadVector(raw: Value): Option<Vector> {
    match MembersOf(raw)
    case None => None
    case Some(ms) =>
      match DecodeVector(ms)
      case None => None
      case Some(v) => if ValidVector(v, ms) then Some(v) else None
  }

  // ---------------------------------------------------------------- the file

  /** A file: its text, and whether its bytes were text at all. */
  datatype File = File(text: Text, utf8: bool) {
    /** The documents a decoder reads in it before it breaks off or ends. */
    function Docs(): seq<Value> { Reading.ReadAll(text).0 }

    predicate Clean() { Reading.ReadAll(text).1 }
  }

  predicate Readable(f: File) {
    f.utf8 && Escapes.Passes(f.text) && f.Clean() && forall i | 0 <= i < |f.Docs()| :: KeyCheck.GoodKeys(f.Docs()[i])
  }

  /** The two fields of the envelope, present and of the right type. */
  function Envelope(f: File): Option<(int, seq<Value>)> {
    if |f.Docs()| != 1 || !f.Docs()[0].JObject? || !(Keys(f.Docs()[0].members) <= CORPUS_KEYS) then None
    else
      match (Lookup(f.Docs()[0].members, "subset_version"), Lookup(f.Docs()[0].members, "vectors"))
      case (Some(JInt(n)), Some(JArray(items))) =>
        if -0x8000_0000_0000_0000 <= n < 0x8000_0000_0000_0000 then Some((n, items)) else None
      case _ => None
  }

  /** What `c` must be for the file to load as it. */
  ghost predicate LoadsAs(f: File, c: Corpus) {
    && Readable(f) && Envelope(f).Some?
    && c.subsetVersion == Envelope(f).value.0 && 0 <= c.subsetVersion <= MAX_EXACT
    && |c.vectors| == |Envelope(f).value.1|
    && (forall i | 0 <= i < |c.vectors| :: LoadVector(Envelope(f).value.1[i]) == Some(c.vectors[i]))
    && (forall i, j | 0 <= i < j < |c.vectors| :: c.vectors[i].name != c.vectors[j].name)
  }

  datatype Reason =
    | NotUTF8
    | BadEscape(problem: Escapes.Problem)
    | BadKeys(verdict: KeyCheck.Verdict)
    | NotACorpus
    | BadVersion(version: int)
    | BadVector(index: nat)
    | NameTwice(index: nat)

  datatype Result = Loaded(corpus: Corpus) | Rejected(why: Reason)

  predicate VersionInRange(version: int) { 0 <= version <= MAX_EXACT }

  /** The first `n` vectors load, under distinct names. */
  predicate LoadsUpTo(items: seq<Value>, n: nat)
    requires n <= |items|
  {
    && (forall i | 0 <= i < n :: LoadVector(items[i]).Some?)
    && (forall i, j | 0 <= i < j < n :: LoadVector(items[i]).value.name != LoadVector(items[j]).value.name)
  }

  /** What each reason says of the file: everything before it was in order, and this was not. */
  ghost predicate Because(f: File, why: Reason) {
    match why
    case NotUTF8 => !f.utf8
    case BadEscape(p) => f.utf8 && Escapes.FirstProblem(f.text) == Some(p)
    case BadKeys(v) =>
      && f.utf8 && Escapes.Passes(f.text) && v != KeyCheck.Accepted
      && v == KeyCheck.Machine([], TokensOfAll(f.Docs()), f.Clean())
    case NotACorpus => Readable(f) && Envelope(f) == None
    case BadVersion(n) => Readable(f) && Envelope(f).Some? && n == Envelope(f).value.0 && !VersionInRange(n)
    case BadVector(i) =>
      && Readable(f) && Envelope(f).Some? && VersionInRange(Envelope(f).value.0)
      && var items := Envelope(f).value.1;
         i < |items| && LoadsUpTo(items, i) && LoadVector(items[i]) == None
    case NameTwice(i) =>
      && Readable(f) && Envelope(f).Some? && VersionInRange(Envelope(f).value.0)
      && var items := Envelope(f).value.1;
         i < |items| && LoadsUpTo(items, i) && LoadVector(items[i]).Some? && !LoadsUpTo(items, i + 1)
  }

  /** A file that is rejected loads as nothing. */
  lemma RejectedLoadsAsNothing(f: File, why: Reason)
    requires Because(f, why)
    ensures forall c :: !LoadsAs(f, c)
  {
    hide LoadVector, Envelope;
    match why
    case BadKeys(v) => KeysAreExact(f);
    case BadVector(i) =>
    case NameTwice(i) =>
    case _ =>
  }

  /** The check on keys passes exactly the readable files, given the two scans before it. */
  lemma KeysAreExact(f: File)
    requires f.utf8 && Escapes.Passes(f.text)
    ensures KeyCheck.Machine([], TokensOfAll(f.Docs()), f.Clean()) == KeyCheck.Accepted <==> Readable(f)
  {
    hide KeyCheck.GoodKeys, Escapes.Passes, Reading.ReadAll, KeyCheck.Machine;
    KeyCheck.CheckKeysIsExact(f.Docs());
    UncleanIsRejected([], TokensOfAll(f.Docs()));
  }

  /** Loads exactly the files that load as some corpus, and as that corpus; a rejected one for the first reason there is. */
  method Load(f: File) returns (r: Result)
    ensures r.Loaded? ==> LoadsAs(f, r.corpus)
    ensures r.Rejected? ==> Because(f, r.why)
    ensures r.Rejected? ==> forall c :: !LoadsAs(f, c)
  {
    r := LoadFirst(f);
    if r.Rejected? { RejectedLoadsAsNothing(f, r.why); }
  }

  method LoadFirst(f: File) returns (r: Result)
    ensures r.Loaded? ==> LoadsAs(f, r.corpus)
    ensures r.Rejected? ==> Because(f, r.why)
  {
    hide Readable, Envelope, Escapes.Passes, LoadVector, LoadsUpTo, KeyCheck.Machine, Reading.ReadAll;
    if !f.utf8 {
      return Rejected(NotUTF8);
    }
    var problem := Escapes.CheckEscapes(f.text);
    if problem.Some? {
      return Rejected(BadEscape(problem.value));
    }
    var verdict := KeyCheck.CheckKeys(TokensOfAll(f.Docs()), f.Clean());
    if !verdict.Accepted? {
      return Rejected(BadKeys(verdict));
    }
    KeysAreExact(f);
    var envelope := Envelope(f);
    if envelope == None {
      return Rejected(NotACorpus);
    }
    var (version, items) := envelope.value;
    if version < 0 || version > MAX_EXACT {
      return Rejected(BadVersion(version));
    }
    var vectors, bad := LoadVectors(items);
    if bad.Some? {
      return Rejected(bad.value);
    }
    LoadedVectorsAreDistinct(items, vectors);
    return Loaded(Corpus(version, vectors));
  }

  /** The loop over the raw vectors. */
  method LoadVectors(items: seq<Value>) returns (vectors: seq<Vector>, bad: Option<Reason>)
    ensures bad == None ==> LoadsUpTo(items, |items|) && |vectors| == |items|
    ensures bad == None ==> forall i | 0 <= i < |items| :: LoadVector(items[i]) == Some(vectors[i])
    ensures bad.Some? ==> (bad.value.BadVector? || bad.value.NameTwice?) && bad.value.index < |items|
    ensures bad.Some? ==> LoadsUpTo(items, bad.value.index)
    ensures bad.Some? ==> if bad.value.BadVector? then LoadVector(items[bad.value.index]) == None
                          else LoadVector(items[bad.value.index]).Some? && !LoadsUpTo(items, bad.value.index + 1)
  {
    hide LoadVector;
    vectors, bad := [], None;
    var seen: set<Text> := {};
    for i := 0 to |items|
      invariant |vectors| == i && LoadsUpTo(items, i)
      invariant forall k | 0 <= k < i :: LoadVector(items[k]) == Some(vectors[k])
      invariant seen == set k | 0 <= k < i :: vectors[k].name
    {
      var v := LoadVector(items[i]);
      if v == None {
        return vectors, Some(BadVector(i));
      }
      if v.value.name in seen {
        var k :| 0 <= k < i && vectors[k].name == v.value.name;
        assert LoadVector(items[k]).value.name == LoadVector(items[i]).value.name;
        return vectors, Some(NameTwice(i));
      }
      seen := seen + {v.value.name};
      vectors := vectors + [v.value];
    }
  }

  lemma LoadedVectorsAreDistinct(items: seq<Value>, vectors: seq<Vector>)
    requires LoadsUpTo(items, |items|) && |vectors| == |items|
    requires forall i | 0 <= i < |items| :: LoadVector(items[i]) == Some(vectors[i])
    ensures forall i, j | 0 <= i < j < |vectors| :: vectors[i].name != vectors[j].name
  {
    hide LoadVector;
    forall i, j | 0 <= i < j < |vectors| ensures vectors[i].name != vectors[j].name {
      assert LoadVector(items[i]).value.name != LoadVector(items[j]).value.name;
    }
  }

  lemma {:induction false} UncleanIsRejected(stack: seq<KeyCheck.Frame>, tokens: seq<Token>)
    ensures KeyCheck.Machine(stack, tokens, false) != KeyCheck.Accepted
    decreases |tokens|
  {
    hide KeyCheck.FIELDS;
    if tokens != [] {
      var step := KeyCheck.Take(stack, tokens[0]);
      if step.Go? { UncleanIsRejected(step.stack, tokens[1..]); }
    }
  }

  // ---------------------------------------------------------------- what a loaded corpus is

  /** The one shape each operation's scope may have. */
  predicate LegalScope(s: Scope) {
    && !Blank(s.schema) && !Blank(s.relation)
    && (forall i | 0 <= i < |s.columnsWritten| :: !Blank(s.columnsWritten[i]))
    && ((s.operation == "select" && s.columnsWritten == [] && !Blank(s.condition)) ||
        (s.operation == "delete" && s.columnsWritten == [] && !Blank(s.condition)) ||
        (s.operation == "update" && s.columnsWritten != [] && !Blank(s.condition)) ||
        (s.operation == "insert" && s.columnsWritten != [] && s.condition == ""))
  }

  predicate LegalVector(v: Vector) {
    && !Blank(v.name) && !Blank(v.statement)
    && ((v.verdict == "in_subset" && v.because == "" && v.scope.Some? && LegalScope(v.scope.value)) ||
        (v.verdict in {"out_of_grammar", "unsupported"} && !Blank(v.because) && v.scope == None))
  }

  predicate Legal(c: Corpus) {
    && 0 <= c.subsetVersion <= 9_007_199_254_740_991
    && (forall i | 0 <= i < |c.vectors| :: LegalVector(c.vectors[i]))
    && (forall i, j | 0 <= i < j < |c.vectors| :: c.vectors[i].name != c.vectors[j].name)
  }

  lemma LoadedVectorIsLegal(raw: Value)
    requires LoadVector(raw).Some?
    ensures LegalVector(LoadVector(raw).value)
  {
    hide Blank;
    var ms := MembersOf(raw).value;
    var v := LoadVector(raw).value;
    if v.verdict == IN_SUBSET {
      var written := Lookup(ms, "scope").value.members;
      assert DecodeScope(written) == Some(v.scope.value);
    }
  }

  // ---------------------------------------------------------------- and back

  function Optional(present: bool, m: Member): seq<Member> {
    if present then [m] else []
  }

  function MarshalTexts(ts: seq<Text>): seq<Value> {
    seq(|ts|, i requires 0 <= i < |ts| => JString(ts[i]))
  }

  /** encoding/json on a Scope, with its omitempty tags. */
  function MarshalScope(s: Scope): seq<Member> {
    [Member("operation", JString(s.operation))] + ([Member("schema", JString(s.schema))] +
    ([Member("relation", JString(s.relation))] +
    (Optional(s.columnsWritten != [], Member("columns_written", JArray(MarshalTexts(s.columnsWritten)))) +
     Optional(s.condition != "", Member("predicate", JString(s.condition))))))
  }

  function MarshalVector(v: Vector): seq<Member> {
    [Member("name", JString(v.name))] + ([Member("statement", JString(v.statement))] +
    ([Member("verdict", JString(v.verdict))] +
    (Optional(v.scope.Some?, Member("scope", if v.scope.Some? then JObject(MarshalScope(v.scope.value)) else JNull)) +
     Optional(v.because != "", Member("because", JString(v.because))))))
  }

  function MarshalVectors(vs: seq<Vector>): seq<Value> {
    seq(|vs|, i requires 0 <= i < |vs| => JObject(MarshalVector(vs[i])))
  }

  function Marshal(c: Corpus): Value {
    JObject([Member("subset_version", JInt(c.subsetVersion)), Member("vectors", JArray(MarshalVectors(c.vectors)))])
  }

  lemma LookupFirst(m: Member, rest: seq<Member>, key: Text)
    ensures Lookup([m] + rest, key) == if m.key == key then Some(m.value) else Lookup(rest, key)
    ensures Keys([m] + rest) == {m.key} + Keys(rest)
  {
    var ms := [m] + rest;
    assert ms[1..] == rest;
    assert Keys(ms) == {m.key} + Keys(rest) by {
      assert forall x :: x in ms <==> x == m || x in rest;
    }
  }

  lemma LookupOptional(present: bool, m: Member, rest: seq<Member>, key: Text)
    ensures Lookup(Optional(present, m) + rest, key)
            == if present && m.key == key then Some(m.value) else Lookup(rest, key)
    ensures Keys(Optional(present, m) + rest) == (if present then {m.key} else {}) + Keys(rest)
  {
    if present { LookupFirst(m, rest, key); } else { assert Optional(present, m) + rest == rest; }
  }

  lemma LookupEmpty(present: bool, m: Member, key: Text)
    ensures Lookup(Optional(present, m), key) == if present && m.key == key then Some(m.value) else None
    ensures Keys(Optional(present, m)) == if present then {m.key} else {}
  {
    LookupOptional(present, m, [], key);
    assert Optional(present, m) + [] == Optional(present, m);
  }

  /** Three members always written and two that may be omitted. */
  function Five(a: Member, b: Member, c: Member, hasD: bool, d: Member, hasE: bool, e: Member): seq<Member> {
    [a] + ([b] + ([c] + (Optional(hasD, d) + Optional(hasE, e))))
  }

  /** Every lookup in such a list at once. */
  ghost predicate FiveHolds(ms: seq<Member>, a: Member, b: Member, c: Member, hasD: bool, d: Member, hasE: bool, e: Member) {
    && Keys(ms) <= {a.key, b.key, c.key, d.key, e.key}
    && forall key :: Lookup(ms, key)
         == if a.key == key then Some(a.value) else if b.key == key then Some(b.value) else if c.key == key then Some(c.value)
            else if hasD && d.key == key then Some(d.value) else if hasE && e.key == key then Some(e.value) else None
  }

  lemma LookupTwo(hasD: bool, d: Member, hasE: bool, e: Member, key: Text)
    ensures Lookup(Optional(hasD, d) + Optional(hasE, e), key)
            == if hasD && d.key == key then Some(d.value) else if hasE && e.key == key then Some(e.value) else None
    ensures Keys(Optional(hasD, d) + Optional(hasE, e)) <= {d.key, e.key}
  {
    hide Lookup, Optional, Keys;
    LookupOptional(hasD, d, Optional(hasE, e), key);
    LookupEmpty(hasE, e, key);
  }

  lemma LookupFive(a: Member, b: Member, c: Member, hasD: bool, d: Member, hasE: bool, e: Member)
    ensures FiveHolds(Five(a, b, c, hasD, d, hasE, e), a, b, c, hasD, d, hasE, e)
  {
    hide Lookup, Optional, Keys;
    var tail := Optional(hasD, d) + Optional(hasE, e);
    forall key
      ensures Lookup(Five(a, b, c, hasD, d, hasE, e), key)
              == if a.key == key then Some(a.value) else if b.key == key then Some(b.value) else if c.key == key then Some(c.value)
                 else if hasD && d.key == key then Some(d.value) else if hasE && e.key == key then Some(e.value) else None
    {
      LookupFirst(a, [b] + ([c] + tail), key);
      LookupFirst(b, [c] + tail, key);
      LookupFirst(c, tail, key);
      LookupTwo(hasD, d, hasE, e, key);
    }
    LookupFirst(a, [b] + ([c] + tail), "");
    LookupFirst(b, [c] + tail, "");
    LookupFirst(c, tail, "");
    LookupTwo(hasD, d, hasE, e, "");
  }

  lemma {:induction false} ItemsRoundTrip(ts: seq<Text>)
    ensures DecodeItems(MarshalTexts(ts)) == Some(ts)
  {
    if ts != [] {
      ItemsRoundTrip(ts[1..]);
      assert MarshalTexts(ts)[1..] == MarshalTexts(ts[1..]);
      assert ts == [ts[0]] + ts[1..];
    }
  }

  lemma ScopeRoundTrip(s: Scope)
    requires LegalScope(s)
    ensures DecodeScope(MarshalScope(s)) == Some(s) && ValidScope(s, MarshalScope(s))
  {
    hide Blank, Lookup, Optional, DecodeItems;
    var ms := MarshalScope(s);
    var a, b, c := Member("operation", JString(s.operation)), Member("schema", JString(s.schema)), Member("relation", JString(s.relation));
    var d, e := Member("columns_written", JArray(MarshalTexts(s.columnsWritten))), Member("predicate", JString(s.condition));
    assert ms == Five(a, b, c, s.columnsWritten != [], d, s.condition != "", e);
    LookupFive(a, b, c, s.columnsWritten != [], d, s.condition != "", e);
    ItemsRoundTrip(s.columnsWritten);
  }

  lemma VectorRoundTrip(v: Vector)
    requires LegalVector(v)
    ensures LoadVector(JObject(MarshalVector(v))) == Some(v)
  {
    hide Blank, Lookup, Optional, DecodeScope, ValidScope, MarshalScope;
    var ms := MarshalVector(v);
    var a, b, c := Member("name", JString(v.name)), Member("statement", JString(v.statement)), Member("verdict", JString(v.verdict));
    var d := Member("scope", if v.scope.Some? then JObject(MarshalScope(v.scope.value)) else JNull);
    var e := Member("because", JString(v.because));
    assert ms == Five(a, b, c, v.scope.Some?, d, v.because != "", e);
    LookupFive(a, b, c, v.scope.Some?, d, v.because != "", e);
    if v.scope.Some? { ScopeRoundTrip(v.scope.value); }
    BlankOfNothing();
  }

  // ---------------------------------------------------------------- what is read, member by member

  predicate DistinctKeys(ms: seq<Member>) {
    forall i, j | 0 <= i < j < |ms| :: ms[i].key != ms[j].key
  }

  /** The key is written with this value, or not at all. */
  ghost predicate WrittenAs(ms: seq<Member>, key: Text, v: Option<Value>) {
    match v
    case None => forall m | m in ms :: m.key != key
    case Some(x) => Member(key, x) in ms
  }

  /** Of distinct keys each has one value, and that is the one looked up. */
  lemma {:induction false} LookupIsWritten(ms: seq<Member>, key: Text, v: Option<Value>)
    requires DistinctKeys(ms)
    ensures WrittenAs(ms, key, v) <==> Lookup(ms, key) == v
  {
    if ms != [] {
      LookupIsWritten(ms[1..], key, v);
      assert forall m :: m in ms <==> m == ms[0] || m in ms[1..];
      assert forall m | m in ms[1..] :: m.key != ms[0].key;
    }
  }

  lemma KeysAreAmong(ms: seq<Member>, keys: set<Text>)
    ensures Keys(ms) <= keys <==> forall m | m in ms :: m.key in keys
  {
    forall m | m in ms ensures m.key in Keys(ms) { }
  }

  /** A list of texts, as it is written. */
  predicate TextsWritten(v: Value, ts: seq<Text>) {
    v.JArray? && |v.items| == |ts| && forall i | 0 <= i < |ts| :: v.items[i] == JString(ts[i])
  }

  /** Exactly these members, in any order: the three always, the other two when there is something to write. */
  ghost predicate ScopeWritten(ms: seq<Member>, s: Scope) {
    && (forall m | m in ms :: m.key in {"operation", "schema", "relation", "columns_written", "predicate"})
    && Member("operation", JString(s.operation)) in ms && Member("schema", JString(s.schema)) in ms
    && Member("relation", JString(s.relation)) in ms
    && (if s.columnsWritten == [] then forall m | m in ms :: m.key != "columns_written"
        else exists m :: m in ms && m.key == "columns_written" && TextsWritten(m.value, s.columnsWritten))
    && (if s.condition == "" then forall m | m in ms :: m.key != "predicate" else Member("predicate", JString(s.condition)) in ms)
  }

  ghost predicate VectorWritten(raw: Value, v: Vector) {
    && raw.JObject?
    && var ms := raw.members;
       && (forall m | m in ms :: m.key in {"name", "statement", "verdict", "scope", "because"})
       && Member("name", JString(v.name)) in ms && Member("statement", JString(v.statement)) in ms
       && Member("verdict", JString(v.verdict)) in ms
       && (match v.scope
           case None => forall m | m in ms :: m.key != "scope"
           case Some(s) => exists m :: m in ms && m.key == "scope" && m.value.JObject? && ScopeWritten(m.value.members, s))
       && (if v.because == "" then forall m | m in ms :: m.key != "because" else Member("because", JString(v.because)) in ms)
  }

  /** A text that is not blank was written, as a string. */
  lemma TextIsWritten(v: Option<Value>, t: Text)
    requires !Blank(t)
    ensures DecodeText(v) == Some(t) <==> v == Some(JString(t))
  {
  }

  lemma {:induction false} ItemsAreWritten(items: seq<Value>, ts: seq<Text>)
    requires forall i | 0 <= i < |ts| :: !Blank(ts[i])
    ensures DecodeItems(items) == Some(ts) <==> |items| == |ts| && forall i | 0 <= i < |ts| :: items[i] == JString(ts[i])
  {
    hide Blank;
    if items != [] {
      if ts == [] {
      } else {
        ItemsAreWritten(items[1..], ts[1..]);
        TextIsWritten(Some(items[0]), ts[0]);
        assert ts == [ts[0]] + ts[1..];
        assert forall i | 1 <= i < |ts| && |items| == |ts| :: items[i] == items[1..][i - 1] && ts[i] == ts[1..][i - 1];
      }
    }
  }

  lemma SomethingIsWritten(ms: seq<Member>, key: Text)
    requires DistinctKeys(ms)
    ensures Lookup(ms, key) == None <==> forall m | m in ms :: m.key != key
    ensures forall m | m in ms && m.key == key :: Lookup(ms, key) == Some(m.value)
    ensures Lookup(ms, key).Some? ==> Member(key, Lookup(ms, key).value) in ms
  {
    LookupIsWritten(ms, key, None);
    LookupIsWritten(ms, key, Lookup(ms, key));
    forall m | m in ms && m.key == key ensures Lookup(ms, key) == Some(m.value) {
      LookupIsWritten(ms, key, Some(m.value));
    }
  }

  /** ScopeWritten, in terms of lookups. */
  ghost predicate ScopeFound(ms: seq<Member>, s: Scope) {
    && Keys(ms) <= SCOPE_KEYS
    && Lookup(ms, "operation") == Some(JString(s.operation)) && Lookup(ms, "schema") == Some(JString(s.schema))
    && Lookup(ms, "relation") == Some(JString(s.relation))
    && (if s.columnsWritten == [] then Lookup(ms, "columns_written") == None
        else Lookup(ms, "columns_written").Some? && TextsWritten(Lookup(ms, "columns_written").value, s.columnsWritten))
    && Lookup(ms, "predicate") == if s.condition == "" then None else Some(JString(s.condition))
  }

  lemma WrittenIsFound(ms: seq<Member>, s: Scope)
    requires DistinctKeys(ms)
    ensures ScopeWritten(ms, s) <==> ScopeFound(ms, s)
  {
    hide Lookup, DistinctKeys, TextsWritten;
    KeysAreAmong(ms, SCOPE_KEYS);
    LookupIsWritten(ms, "operation", Some(JString(s.operation)));
    LookupIsWritten(ms, "schema", Some(JString(s.schema)));
    LookupIsWritten(ms, "relation", Some(JString(s.relation)));
    LookupIsWritten(ms, "predicate", if s.condition == "" then None else Some(JString(s.condition)));
    SomethingIsWritten(ms, "columns_written");
  }

  lemma ColumnsAreWritten(v: Option<Value>, ts: seq<Text>)
    requires ts != [] && forall i | 0 <= i < |ts| :: !Blank(ts[i])
    ensures DecodeTexts(v) == Some(ts) <==> v.Some? && TextsWritten(v.value, ts)
  {
    hide Blank;
    if v.Some? && v.value.JArray? { ItemsAreWritten(v.value.items, ts); }
  }

  lemma FoundScopeLoads(ms: seq<Member>, s: Scope)
    requires LegalScope(s) && ScopeFound(ms, s)
    ensures DecodeScope(ms) == Some(s) && ValidScope(s, ms)
  {
    hide Lookup, Blank;
    if s.columnsWritten != [] { ColumnsAreWritten(Lookup(ms, "columns_written"), s.columnsWritten); }
  }

  lemma LoadedScopeIsFound(ms: seq<Member>, s: Scope)
    requires DecodeScope(ms) == Some(s) && ValidScope(s, ms)
    ensures LegalScope(s) && ScopeFound(ms, s)
  {
    BlankOfNothing();
    OperationIsNotBlank(s.operation);
    TextIsWritten(Lookup(ms, "operation"), s.operation);
    TextIsWritten(Lookup(ms, "schema"), s.schema);
    TextIsWritten(Lookup(ms, "relation"), s.relation);
    if HasPredicate(s.operation) { TextIsWritten(Lookup(ms, "predicate"), s.condition); }
    hide Lookup, Blank;
    if s.columnsWritten != [] { ColumnsAreWritten(Lookup(ms, "columns_written"), s.columnsWritten); }
  }

  lemma OperationIsNotBlank(operation: Text)
    requires operation in {SELECT, INSERT, UPDATE, DELETE}
    ensures !Blank(operation)
  {
    assert !IsSpace(operation[0]);
  }

  /** What the loader takes for a scope is exactly a legal one, its members written in any order and no others. */
  lemma ScopeLoadsIff(ms: seq<Member>, s: Scope)
    requires DistinctKeys(ms)
    ensures DecodeScope(ms) == Some(s) && ValidScope(s, ms) <==> LegalScope(s) && ScopeWritten(ms, s)
  {
    hide DecodeScope, ValidScope, LegalScope, ScopeWritten, ScopeFound;
    WrittenIsFound(ms, s);
    if DecodeScope(ms) == Some(s) && ValidScope(s, ms) { LoadedScopeIsFound(ms, s); }
    if LegalScope(s) && ScopeFound(ms, s) { FoundScopeLoads(ms, s); }
  }

  ghost predicate VectorFound(ms: seq<Member>, v: Vector) {
    && Keys(ms) <= VECTOR_KEYS
    && Lookup(ms, "name") == Some(JString(v.name)) && Lookup(ms, "statement") == Some(JString(v.statement))
    && Lookup(ms, "verdict") == Some(JString(v.verdict))
    && (match v.scope
        case None => Lookup(ms, "scope") == None
        case Some(s) => && Lookup(ms, "scope").Some? && Lookup(ms, "scope").value.JObject?
                        && ScopeWritten(Lookup(ms, "scope").value.members, s))
    && Lookup(ms, "because") == if v.because == "" then None else Some(JString(v.because))
  }

  lemma VectorWrittenIsFound(ms: seq<Member>, v: Vector)
    requires DistinctKeys(ms)
    ensures VectorWritten(JObject(ms), v) <==> VectorFound(ms, v)
  {
    hide Lookup, DistinctKeys, ScopeWritten;
    KeysAreAmong(ms, VECTOR_KEYS);
    LookupIsWritten(ms, "name", Some(JString(v.name)));
    LookupIsWritten(ms, "statement", Some(JString(v.statement)));
    LookupIsWritten(ms, "verdict", Some(JString(v.verdict)));
    LookupIsWritten(ms, "because", if v.because == "" then None else Some(JString(v.because)));
    SomethingIsWritten(ms, "scope");
  }

  /** Inside an object with good keys every object's keys are distinct. */
  lemma InnerKeys(ms: seq<Member>)
    requires KeyCheck.GoodKeys(JObject(ms))
    ensures DistinctKeys(ms)
    ensures Lookup(ms, "scope").Some? && Lookup(ms, "scope").value.JObject? ==> DistinctKeys(Lookup(ms, "scope").value.members)
  {
    SomethingIsWritten(ms, "scope");
    if Lookup(ms, "scope").Some? {
      assert KeyCheck.GoodKeys(Lookup(ms, "scope").value);
    }
  }

  lemma VerdictIsNotBlank(verdict: Text)
    requires verdict in {IN_SUBSET, OUT_OF_GRAMMAR, UNSUPPORTED}
    ensures !Blank(verdict)
  {
    assert !IsSpace(verdict[0]);
  }

  lemma FoundVectorLoads(ms: seq<Member>, v: Vector)
    requires LegalVector(v) && VectorFound(ms, v)
    requires Lookup(ms, "scope").Some? && Lookup(ms, "scope").value.JObject? ==> DistinctKeys(Lookup(ms, "scope").value.members)
    ensures LoadVector(JObject(ms)) == Some(v)
  {
    hide Lookup, Blank, DecodeScope, ValidScope, LegalScope, ScopeWritten;
    BlankOfNothing();
    if v.scope.Some? { ScopeLoadsIff(Lookup(ms, "scope").value.members, v.scope.value); }
  }

  lemma LoadedVectorIsFound(ms: seq<Member>, v: Vector)
    requires LoadVector(JObject(ms)) == Some(v)
    requires Lookup(ms, "scope").Some? && Lookup(ms, "scope").value.JObject? ==> DistinctKeys(Lookup(ms, "scope").value.members)
    ensures LegalVector(v) && VectorFound(ms, v)
  {
    LoadedVectorIsLegal(JObject(ms));
    VerdictIsNotBlank(v.verdict);
    BlankOfNothing();
    TextIsWritten(Lookup(ms, "name"), v.name);
    TextIsWritten(Lookup(ms, "statement"), v.statement);
    TextIsWritten(Lookup(ms, "verdict"), v.verdict);
    if v.because != "" { TextIsWritten(Lookup(ms, "because"), v.because); }
    hide Lookup, Blank, DecodeScope, ValidScope, LegalScope, ScopeWritten;
    if v.verdict == IN_SUBSET { ScopeLoadsIff(Lookup(ms, "scope").value.members, v.scope.value); }
  }

  /**
   What the loader takes for a vector is exactly a legal one, its members written in any order and no
   others: nothing null, nothing empty, nothing that belongs elsewhere.
   */
  lemma VectorLoadsIff(raw: Value, v: Vector)
    requires KeyCheck.GoodKeys(raw)
    ensures LoadVector(raw) == Some(v) <==> LegalVector(v) && VectorWritten(raw, v)
  {
    if raw.JObject? {
      InnerKeys(raw.members);
      hide LoadVector, LegalVector, VectorWritten, VectorFound, Lookup;
      VectorWrittenIsFound(raw.members, v);
      if LoadVector(raw) == Some(v) { LoadedVectorIsFound(raw.members, v); }
      if LegalVector(v) && VectorFound(raw.members, v) { FoundVectorLoads(raw.members, v); }
    } else {
      BlankOfNothing();
      hide Blank;
    }
  }

  /** The keys the format knows are those of the three objects. */
  lemma FieldsOfTheFormat()
    ensures KeyCheck.FIELDS == {"subset_version", "vectors"} + {"name", "statement", "verdict", "scope", "because"}
                               + {"operation", "schema", "relation", "columns_written", "predicate"}
  {
  }

  // ---------------------------------------------------------------- what is marshalled has good keys

  lemma GoodFirst(m: Member, rest: seq<Member>, seen: set<Text>)
    requires m.key in KeyCheck.FIELDS && m.key !in seen && KeyCheck.GoodKeys(m.value)
    requires KeyCheck.GoodMembers(rest, seen + {m.key})
    ensures KeyCheck.GoodMembers([m] + rest, seen)
  {
    hide KeyCheck.GoodKeys, KeyCheck.FIELDS;
    assert ([m] + rest)[1..] == rest;
  }

  lemma GoodOptional(present: bool, m: Member, rest: seq<Member>, seen: set<Text>)
    requires m.key in KeyCheck.FIELDS && m.key !in seen && KeyCheck.GoodKeys(m.value)
    requires KeyCheck.GoodMembers(rest, seen + {m.key}) && KeyCheck.GoodMembers(rest, seen)
    ensures KeyCheck.GoodMembers(Optional(present, m) + rest, seen)
  {
    if present { GoodFirst(m, rest, seen); } else { assert Optional(present, m) + rest == rest; }
  }

  lemma GoodFive(a: Member, b: Member, c: Member, hasD: bool, d: Member, hasE: bool, e: Member)
    requires forall m | m in {a, b, c, d, e} :: m.key in KeyCheck.FIELDS && KeyCheck.GoodKeys(m.value)
    requires a.key !in {b.key, c.key, d.key, e.key} && b.key !in {c.key, d.key, e.key} && c.key !in {d.key, e.key} && d.key != e.key
    ensures KeyCheck.GoodKeys(JObject(Five(a, b, c, hasD, d, hasE, e)))
  {
    hide KeyCheck.FIELDS, KeyCheck.GoodMembers, Optional;
    var s3 := {} + {a.key} + {b.key} + {c.key};
    forall seen: set<Text> ensures KeyCheck.GoodMembers([], seen) { NoMembersAreGood(seen); }
    forall seen: set<Text> | e.key !in seen ensures KeyCheck.GoodMembers(Optional(hasE, e), seen) {
      GoodOptional(hasE, e, [], seen);
      assert Optional(hasE, e) + [] == Optional(hasE, e);
    }
    GoodOptional(hasD, d, Optional(hasE, e), s3);
    var tail := Optional(hasD, d) + Optional(hasE, e);
    GoodFirst(c, tail, {} + {a.key} + {b.key});
    GoodFirst(b, [c] + tail, {} + {a.key});
    GoodFirst(a, [b] + ([c] + tail), {});
    KeyCheck.GoodMembersMeans(Five(a, b, c, hasD, d, hasE, e), {});
  }

  lemma NoMembersAreGood(seen: set<Text>)
    ensures KeyCheck.GoodMembers([], seen)
  {
  }

  lemma MarshalledScopeHasGoodKeys(s: Scope)
    ensures KeyCheck.GoodKeys(JObject(MarshalScope(s)))
  {
    var columns := JArray(MarshalTexts(s.columnsWritten));
    assert KeyCheck.GoodKeys(columns);
    GoodFive(Member("operation", JString(s.operation)), Member("schema", JString(s.schema)),
             Member("relation", JString(s.relation)), s.columnsWritten != [], Member("columns_written", columns),
             s.condition != "", Member("predicate", JString(s.condition)));
  }

  lemma MarshalledVectorHasGoodKeys(v: Vector)
    ensures KeyCheck.GoodKeys(JObject(MarshalVector(v)))
  {
    hide MarshalScope;
    var scope := if v.scope.Some? then JObject(MarshalScope(v.scope.value)) else JNull;
    if v.scope.Some? { MarshalledScopeHasGoodKeys(v.scope.value); }
    GoodFive(Member("name", JString(v.name)), Member("statement", JString(v.statement)), Member("verdict", JString(v.verdict)),
             v.scope.Some?, Member("scope", scope), v.because != "", Member("because", JString(v.because)));
  }

  lemma MarshalledCorpusHasGoodKeys(c: Corpus)
    ensures KeyCheck.GoodKeys(Marshal(c))
  {
    hide MarshalVector;
    var vs := MarshalVectors(c.vectors);
    forall i | 0 <= i < |vs| ensures KeyCheck.GoodKeys(vs[i]) { MarshalledVectorHasGoodKeys(c.vectors[i]); }
    assert KeyCheck.GoodKeys(JArray(vs));
  }

  // ---------------------------------------------------------------- main results

  /** What Load accepts has unique nonblank names and, in each vector, exactly the one legal shape. */
  lemma LoadedCorpusIsLegal(f: File, c: Corpus)
    requires LoadsAs(f, c)
    ensures Legal(c)
  {
    hide LoadVector, LegalVector, Readable, Envelope;
    forall i | 0 <= i < |c.vectors|
      ensures LegalVector(c.vectors[i])
    {
      LoadedVectorIsLegal(Envelope(f).value.1[i]);
    }
  }

  /** A document that writes the corpus down: version and vectors, in whatever order its members are. */
  ghost predicate CorpusWritten(doc: Value, c: Corpus) {
    && doc.JObject?
    && (forall m | m in doc.members :: m.key in {"subset_version", "vectors"})
    && Member("subset_version", JInt(c.subsetVersion)) in doc.members
    && exists m :: m in doc.members && m.key == "vectors" && VectorsWritten(m.value, c.vectors)
  }

  ghost predicate VectorsWritten(v: Value, vs: seq<Vector>) {
    v.JArray? && |v.items| == |vs| && forall i | 0 <= i < |vs| :: VectorWritten(v.items[i], vs[i])
  }

  lemma EnvelopeIsWritten(f: File, c: Corpus)
    requires |f.Docs()| == 1 && KeyCheck.GoodKeys(f.Docs()[0]) && VersionInRange(c.subsetVersion)
    ensures CorpusWritten(f.Docs()[0], c) <==>
              Envelope(f).Some? && Envelope(f).value.0 == c.subsetVersion && VectorsWritten(JArray(Envelope(f).value.1), c.vectors)
  {
    hide Reading.ReadAll, Lookup, VectorWritten, VectorsWritten;
    var doc := f.Docs()[0];
    if doc.JObject? {
      assert DistinctKeys(doc.members);
      hide DistinctKeys, KeyCheck.GoodKeys;
      KeysAreAmong(doc.members, CORPUS_KEYS);
      LookupIsWritten(doc.members, "subset_version", Some(JInt(c.subsetVersion)));
      SomethingIsWritten(doc.members, "vectors");
      VectorsAreAList(doc.members, c.vectors);
    }
  }

  lemma VectorsAreAList(ms: seq<Member>, vs: seq<Vector>)
    ensures forall m | m in ms && VectorsWritten(m.value, vs) :: m.value == JArray(m.value.items)
  {
  }

  /**
   What Load loads, with neither its decoder nor its validation mentioned: text that is UTF-8, its escapes
   paired, holding one document with good keys that writes a legal corpus down, and nothing after it.
   */
  lemma CorpusLoadsIff(f: File, c: Corpus)
    ensures LoadsAs(f, c) <==>
              && f.utf8 && Escapes.Passes(f.text) && f.Clean() && |f.Docs()| == 1 && KeyCheck.GoodKeys(f.Docs()[0])
              && Legal(c) && CorpusWritten(f.Docs()[0], c)
  {
    hide Reading.ReadAll, Escapes.Passes, KeyCheck.GoodKeys, LoadVector, LegalVector, VectorWritten, CorpusWritten;
    if LoadsAs(f, c) {
      LoadedCorpusIsLegal(f, c);
      OneDocument(f);
    }
    if |f.Docs()| == 1 && KeyCheck.GoodKeys(f.Docs()[0]) && Legal(c) {
      EnvelopeIsWritten(f, c);
      if Envelope(f).Some? {
        ItemsHaveGoodKeys(f);
        var items := Envelope(f).value.1;
        hide Envelope;
        forall i | 0 <= i < |items| && i < |c.vectors|
          ensures LoadVector(items[i]) == Some(c.vectors[i]) <==> LegalVector(c.vectors[i]) && VectorWritten(items[i], c.vectors[i])
        {
          VectorLoadsIff(items[i], c.vectors[i]);
        }
      }
    }
  }

  lemma OneDocument(f: File)
    requires Envelope(f).Some?
    ensures |f.Docs()| == 1
  {
    hide Reading.ReadAll, Lookup;
  }

  lemma ItemsHaveGoodKeys(f: File)
    requires Envelope(f).Some? && KeyCheck.GoodKeys(f.Docs()[0])
    ensures forall i | 0 <= i < |Envelope(f).value.1| :: KeyCheck.GoodKeys(Envelope(f).value.1[i])
  {
    hide Reading.ReadAll;
    var ms := f.Docs()[0].members;
    assert DistinctKeys(ms);
    SomethingIsWritten(ms, "vectors");
    assert KeyCheck.GoodKeys(Lookup(ms, "vectors").value);
  }

  lemma MarshalledEnvelope(f: File, c: Corpus)
    requires f.Docs() == [Marshal(c)] && 0 <= c.subsetVersion <= MAX_EXACT
    ensures Envelope(f) == Some((c.subsetVersion, MarshalVectors(c.vectors)))
  {
    hide MarshalVectors, Reading.ReadAll;
    var a, b := Member("subset_version", JInt(c.subsetVersion)), Member("vectors", JArray(MarshalVectors(c.vectors)));
    assert Marshal(c).members == [a] + [b];
    assert [b] + [] == [b];
    forall key
      ensures Lookup([a] + [b], key) == if a.key == key then Some(a.value) else if b.key == key then Some(b.value) else None
      ensures Keys([a] + [b]) <= CORPUS_KEYS
    {
      LookupFirst(a, [b], key);
      LookupFirst(b, [], key);
    }
  }

  lemma FiveIsWritable(a: Member, b: Member, c: Member, hasD: bool, d: Member, hasE: bool, e: Member)
    requires forall m | m in {a, b, c, d, e} :: Reading.Writable(m.value)
    ensures Reading.Writable(JObject(Five(a, b, c, hasD, d, hasE, e)))
  {
    var ms := Five(a, b, c, hasD, d, hasE, e);
    assert forall i | 0 <= i < |ms| :: ms[i] in {a, b, c, d, e};
  }

  lemma MarshalledVectorIsWritable(v: Vector)
    ensures Reading.Writable(JObject(MarshalVector(v)))
  {
    hide Five, Optional;
    if v.scope.Some? {
      var s := v.scope.value;
      assert Reading.Writable(JArray(MarshalTexts(s.columnsWritten)));
      FiveIsWritable(Member("operation", JString(s.operation)), Member("schema", JString(s.schema)),
                     Member("relation", JString(s.relation)), s.columnsWritten != [],
                     Member("columns_written", JArray(MarshalTexts(s.columnsWritten))),
                     s.condition != "", Member("predicate", JString(s.condition)));
      FiveOfScope(s);
    }
    var scope := Member("scope", if v.scope.Some? then JObject(MarshalScope(v.scope.value)) else JNull);
    FiveIsWritable(Member("name", JString(v.name)), Member("statement", JString(v.statement)), Member("verdict", JString(v.verdict)),
                   v.scope.Some?, scope, v.because != "", Member("because", JString(v.because)));
    FiveOfVector(v);
  }

  lemma FiveOfScope(s: Scope)
    ensures MarshalScope(s)
            == Five(Member("operation", JString(s.operation)), Member("schema", JString(s.schema)),
                    Member("relation", JString(s.relation)), s.columnsWritten != [],
                    Member("columns_written", JArray(MarshalTexts(s.columnsWritten))),
                    s.condition != "", Member("predicate", JString(s.condition)))
  {
    hide Optional;
  }

  lemma FiveOfVector(v: Vector)
    ensures MarshalVector(v)
            == Five(Member("name", JString(v.name)), Member("statement", JString(v.statement)), Member("verdict", JString(v.verdict)),
                    v.scope.Some?, Member("scope", if v.scope.Some? then JObject(MarshalScope(v.scope.value)) else JNull),
                    v.because != "", Member("because", JString(v.because)))
  {
    hide Optional, MarshalScope;
  }

  lemma MarshalledCorpusIsWritable(c: Corpus)
    ensures Reading.Writable(Marshal(c))
  {
    hide MarshalVector;
    var vs := MarshalVectors(c.vectors);
    forall i | 0 <= i < |vs| ensures Reading.Writable(vs[i]) { MarshalledVectorIsWritable(c.vectors[i]); }
    assert Reading.Writable(JArray(vs));
  }

  /** The file json.Marshal writes for a corpus: its text, and nothing but its text. */
  function Written(c: Corpus): File {
    File(Escapes.Spell(Encoding.Encode(Marshal(c))), true)
  }

  lemma WrittenReadsBack(c: Corpus)
    ensures Written(c).Docs() == [Marshal(c)] && Written(c).Clean() && Escapes.Passes(Written(c).text)
  {
    hide Marshal, Encoding.Encode, Escapes.Spell, Escapes.Passes, Reading.ReadAll, Reading.Writable;
    MarshalledCorpusIsWritable(c);
    Reading.FileReadsBack(Marshal(c));
    Encoding.EncodedTextPasses(Marshal(c));
  }

  /** A corpus is legal exactly when the text written for it, read again from its first character, loads as it. */
  lemma CorpusRoundTrip(c: Corpus)
    ensures Legal(c) <==> LoadsAs(Written(c), c)
  {
    hide LoadVector, Envelope, LegalVector, Escapes.Passes, KeyCheck.GoodKeys, Marshal, Written, Reading.ReadAll;
    var f := Written(c);
    if LoadsAs(f, c) { LoadedCorpusIsLegal(f, c); }
    if Legal(c) {
      WrittenReadsBack(c);
      WrittenIsText(c);
      MarshalledCorpusHasGoodKeys(c);
      MarshalledEnvelope(f, c);
      forall i | 0 <= i < |c.vectors|
        ensures LoadVector(MarshalVectors(c.vectors)[i]) == Some(c.vectors[i])
      {
        VectorRoundTrip(c.vectors[i]);
      }
    }
  }

  lemma WrittenIsText(c: Corpus)
    ensures Written(c).utf8
  {
  }

  /** So whatever loads can be written out and read again, unchanged. */
  lemma WhateverLoadsReloads(f: File, c: Corpus)
    requires LoadsAs(f, c)
    ensures LoadsAs(Written(c), c)
  {
    LoadedCorpusIsLegal(f, c);
    CorpusRoundTrip(c);
  }
}
