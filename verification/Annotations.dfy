/** The rules every method's declared behaviour must obey, over descriptor sets. */
module Annotations {
  import opened Prelude

  // ---------------------------------------------------------------- descriptors

  /** Numbers of the Idempotency enum; a descriptor set may carry others. */
  const UNSPECIFIED := 0
  const NATURAL := 1
  const KEYED := 2
  const UNSAFE := 3

  predicate Known(idempotency: int) { UNSPECIFIED <= idempotency <= UNSAFE }

  /** A method that declares no behaviour has the zero value: not safe, UNSPECIFIED, no field. */
  datatype Behaviour = Behaviour(safe: bool, idempotency: int, keyField: string)

  datatype Level = IDEMPOTENCY_UNKNOWN | NO_SIDE_EFFECTS | IDEMPOTENT

  datatype FieldType = TypeString | TypeBytes | TypeOther

  datatype Field = Field(name: string, repeated: bool, kind: FieldType, inOneof: bool, proto3Optional: bool)

  datatype Message = Message(name: string, fields: seq<Field>, nested: seq<Message>)

  datatype Rpc = Rpc(name: string, input: string, level: Level, behaviour: Behaviour)

  datatype Service = Service(name: string, methods: seq<Rpc>)

  datatype File = File(name: string, package: string, services: seq<Service>, messages: seq<Message>)

  function Qualify(prefix: string, name: string): string {
    if prefix == "" then name else if name == "" then prefix else prefix + "." + name
  }

  /** A method as a check meets it: in a file, under its fully-qualified name. */
  datatype Declared = Declared(file: string, name: string, rpc: Rpc)

  function MethodsOfService(f: File, s: Service): seq<Declared> {
    seq(|s.methods|, i requires 0 <= i < |s.methods| =>
      Declared(f.name, Qualify(Qualify(f.package, s.name), s.methods[i].name), s.methods[i]))
  }

  function MethodsOfServices(f: File, ss: seq<Service>): seq<Declared> {
    if ss == [] then [] else MethodsOfServices(f, ss[..|ss| - 1]) + MethodsOfService(f, ss[|ss| - 1])
  }

  /** All methods, in the order of the nested loops. */
  function MethodsOf(fs: seq<File>): seq<Declared> {
    if fs == [] then [] else MethodsOf(fs[..|fs| - 1]) + MethodsOfServices(fs[|fs| - 1], fs[|fs| - 1].services)
  }

  function IndexMessage(into: map<string, Message>, prefix: string, m: Message): map<string, Message>
    decreases m, 0
  {
    var name := Qualify(prefix, m.name);
    IndexNested(into[name := m], name, m.nested)
  }

  function IndexNested(into: map<string, Message>, prefix: string, ms: seq<Message>): map<string, Message>
    decreases ms, 0
  {
    if ms == [] then into else IndexNested(IndexMessage(into, prefix, ms[0]), prefix, ms[1..])
  }

  /** Every message of every file, nested ones included, by fully-qualified name; the last one of a name wins. */
  function IndexMessages(fs: seq<File>): map<string, Message> {
    if fs == [] then map[]
    else IndexNested(IndexMessages(fs[..|fs| - 1]), fs[|fs| - 1].package, fs[|fs| - 1].messages)
  }

  /** indexMessage: writes the message and then, one by one, those nested in it. */
  method FillMessage(into: map<string, Message>, prefix: string, m: Message) returns (messages: map<string, Message>)
    ensures messages == IndexMessage(into, prefix, m)
    decreases m
  {
    var name := Qualify(prefix, m.name);
    messages := into[name := m];
    ghost var all := messages;
    for i := 0 to |m.nested|
      invariant IndexNested(messages, name, m.nested[i..]) == IndexNested(all, name, m.nested)
    {
      assert m.nested[i..][1..] == m.nested[i + 1..];
      messages := FillMessage(messages, name, m.nested[i]);
    }
  }

  /** indexMessages. */
  method FillMessages(fs: seq<File>) returns (messages: map<string, Message>)
    ensures messages == IndexMessages(fs)
  {
    messages := map[];
    for i := 0 to |fs|
      invariant messages == IndexMessages(fs[..i])
    {
      ghost var before, ms := messages, fs[i].messages;
      for j := 0 to |fs[i].messages|
        invariant IndexNested(messages, fs[i].package, ms[j..]) == IndexNested(before, fs[i].package, ms)
      {
        assert ms[j..][1..] == ms[j + 1..];
        messages := FillMessage(messages, fs[i].package, fs[i].messages[j]);
      }
      assert fs[..i + 1][..i] == fs[..i];
    }
    assert fs[..|fs|] == fs;
  }

  // ---------------------------------------------------------------- what the index of messages holds

  /** A message under its fully-qualified name. */
  datatype Entry = Entry(name: string, message: Message)

  /** A message and all nested in it, each under its own name, in the order in which they are met. */
  function EntriesOf(prefix: string, m: Message): seq<Entry>
    decreases m, 0
  {
    [Entry(Qualify(prefix, m.name), m)] + EntriesOfAll(Qualify(prefix, m.name), m.nested)
  }

  function EntriesOfAll(prefix: string, ms: seq<Message>): seq<Entry>
    decreases ms, 0
  {
    if ms == [] then [] else EntriesOf(prefix, ms[0]) + EntriesOfAll(prefix, ms[1..])
  }

  /** Every message the files declare, nested ones included. */
  function EntriesIn(fs: seq<File>): seq<Entry> {
    if fs == [] then [] else EntriesIn(fs[..|fs| - 1]) + EntriesOfAll(fs[|fs| - 1].package, fs[|fs| - 1].messages)
  }

  function Put(into: map<string, Message>, es: seq<Entry>): map<string, Message> {
    if es == [] then into else Put(into, es[..|es| - 1])[es[|es| - 1].name := es[|es| - 1].message]
  }

  lemma {:induction false} PutConcat(into: map<string, Message>, a: seq<Entry>, b: seq<Entry>)
    ensures Put(into, a + b) == Put(Put(into, a), b)
  {
    if b == [] {
      assert a + b == a;
    } else {
      PutConcat(into, a, b[..|b| - 1]);
      assert (a + b)[..|a + b| - 1] == a + b[..|b| - 1] && (a + b)[|a + b| - 1] == b[|b| - 1];
    }
  }

  lemma PutOne(into: map<string, Message>, e: Entry)
    ensures Put(into, [e]) == into[e.name := e.message]
  {
    assert [e][..0] == [];
    assert Put(into, []) == into;
  }

  lemma {:induction false} IndexPuts(into: map<string, Message>, prefix: string, m: Message)
    ensures IndexMessage(into, prefix, m) == Put(into, EntriesOf(prefix, m))
    decreases m, 0
  {
    hide Put, Qualify;
    var first, nested := [Entry(Qualify(prefix, m.name), m)], EntriesOfAll(Qualify(prefix, m.name), m.nested);
    PutOne(into, first[0]);
    PutConcat(into, first, nested);
    NestedPuts(Put(into, first), Qualify(prefix, m.name), m.nested);
  }

  lemma {:induction false} NestedPuts(into: map<string, Message>, prefix: string, ms: seq<Message>)
    ensures IndexNested(into, prefix, ms) == Put(into, EntriesOfAll(prefix, ms))
    decreases ms, 0
  {
    hide IndexMessage, EntriesOf;
    if ms == [] {
      assert Put(into, []) == into;
    } else {
      hide Put;
      IndexPuts(into, prefix, ms[0]);
      PutConcat(into, EntriesOf(prefix, ms[0]), EntriesOfAll(prefix, ms[1..]));
      NestedPuts(Put(into, EntriesOf(prefix, ms[0])), prefix, ms[1..]);
    }
  }

  lemma {:induction false} FilesPut(fs: seq<File>)
    ensures IndexMessages(fs) == Put(map[], EntriesIn(fs))
  {
    hide IndexNested, EntriesOfAll;
    if fs == [] {
      assert Put(map[], []) == map[];
    } else {
      hide Put;
      var last := fs[|fs| - 1];
      FilesPut(fs[..|fs| - 1]);
      NestedPuts(IndexMessages(fs[..|fs| - 1]), last.package, last.messages);
      PutConcat(map[], EntriesIn(fs[..|fs| - 1]), EntriesOfAll(last.package, last.messages));
    }
  }

  /** `m` is the last of the entries of that name. */
  ghost predicate LastOf(es: seq<Entry>, name: string, m: Message) {
    exists i :: 0 <= i < |es| && es[i] == Entry(name, m) && forall j | i < j < |es| :: es[j].name != name
  }

  lemma LastStays(init: seq<Entry>, last: Entry, name: string, m: Message)
    requires LastOf(init, name, m) && last.name != name
    ensures LastOf(init + [last], name, m)
  {
    var i :| 0 <= i < |init| && init[i] == Entry(name, m) && forall j | i < j < |init| :: init[j].name != name;
    assert (init + [last])[i] == init[i];
  }

  lemma {:induction false} PutHolds(es: seq<Entry>, name: string)
    ensures name in Put(map[], es) <==> exists i :: 0 <= i < |es| && es[i].name == name
    ensures name in Put(map[], es) ==> LastOf(es, name, Put(map[], es)[name])
  {
    if es != [] {
      var init, last := es[..|es| - 1], es[|es| - 1];
      assert es == init + [last];
      PutHolds(init, name);
      if last.name == name {
        assert es[|es| - 1] == Entry(name, last.message);
      } else if name in Put(map[], init) {
        LastStays(init, last, name, Put(map[], init)[name]);
      } else {
        assert forall i | 0 <= i < |init| :: es[i] == init[i];
      }
    }
  }

  /**
   A name is in the index exactly when some message of the files, nested or not, is declared under it,
   and what it leads to is the last such message.
   */
  lemma IndexHoldsTheDeclared(fs: seq<File>, name: string)
    ensures name in IndexMessages(fs) <==> exists i :: 0 <= i < |EntriesIn(fs)| && EntriesIn(fs)[i].name == name
    ensures name in IndexMessages(fs) ==> LastOf(EntriesIn(fs), name, IndexMessages(fs)[name])
  {
    hide IndexMessages, EntriesIn, Put;
    FilesPut(fs);
    PutHolds(EntriesIn(fs), name);
  }

  // ---------------------------------------------------------------- names, dotted

  /** The parts that are not empty, with dots between them. */
  function Dotted(parts: seq<string>): string {
    if parts == [] then ""
    else
      var rest := Dotted(parts[1..]);
      if parts[0] == "" then rest else if rest == "" then parts[0] else parts[0] + ("." + rest)
  }

  lemma {:induction false} QualifyAddsAPart(parts: seq<string>, name: string)
    ensures Qualify(Dotted(parts), name) == Dotted(parts + [name])
  {
    if parts == [] {
      assert parts + [name] == [name] && [name][1..] == [];
    } else {
      assert (parts + [name])[1..] == parts[1..] + [name];
      QualifyAddsAPart(parts[1..], name);
    }
  }

  /** `m` is declared in `m0`, or is it, under these names from the outermost in. */
  ghost predicate NestedAs(m0: Message, names: seq<string>, m: Message)
    decreases |names|
  {
    && names != [] && names[0] == m0.name
    && if |names| == 1 then m == m0
       else exists k :: 0 <= k < |m0.nested| && NestedAs(m0.nested[k], names[1..], m)
  }

  ghost predicate DeclaredAs(f: File, names: seq<string>, m: Message) {
    exists k :: 0 <= k < |f.messages| && NestedAs(f.messages[k], names, m)
  }

  /** A name under which the file declares the message: package, outer messages and its own, dotted. */
  ghost predicate NamedInFile(f: File, name: string, m: Message) {
    exists names :: DeclaredAs(f, names, m) && name == Dotted([f.package] + names)
  }

  ghost predicate NamedIn(fs: seq<File>, name: string, m: Message) {
    exists k :: 0 <= k < |fs| && NamedInFile(fs[k], name, m)
  }

  /** The entries of a message are it and those declared in it, under dotted names. */
  lemma {:induction false} EntriesAreDotted(outer: seq<string>, m0: Message, e: Entry)
    ensures e in EntriesOf(Dotted(outer), m0) <==>
              exists names :: NestedAs(m0, names, e.message) && e.name == Dotted(outer + names)
    decreases m0, 0
  {
    hide Dotted, NestedAs;
    var inside := outer + [m0.name];
    QualifyAddsAPart(outer, m0.name);
    hide Qualify;
    NestedEntriesAreDotted(inside, m0.nested, e);
    if e == Entry(Dotted(inside), m0) {
      ItselfNested(m0);
    }
    if k, names :| 0 <= k < |m0.nested| && NestedAs(m0.nested[k], names, e.message) && e.name == Dotted(inside + names) {
      DeeperNested(m0, k, names, e.message);
      assert outer + ([m0.name] + names) == inside + names;
    }
    if names :| NestedAs(m0, names, e.message) && e.name == Dotted(outer + names) {
      WhereNested(m0, names, e.message);
      assert |names| > 1 ==> inside + names[1..] == outer + names;
    }
  }

  lemma ItselfNested(m: Message)
    ensures NestedAs(m, [m.name], m)
  {
  }

  lemma DeeperNested(m0: Message, k: nat, names: seq<string>, m: Message)
    requires k < |m0.nested| && NestedAs(m0.nested[k], names, m)
    ensures NestedAs(m0, [m0.name] + names, m)
  {
    assert ([m0.name] + names)[1..] == names;
  }

  lemma WhereNested(m0: Message, names: seq<string>, m: Message)
    requires NestedAs(m0, names, m)
    ensures names != [] && names[0] == m0.name
    ensures |names| == 1 ==> names == [m0.name] && m == m0
    ensures |names| > 1 ==> exists k :: 0 <= k < |m0.nested| && NestedAs(m0.nested[k], names[1..], m)
  {
  }

  lemma {:induction false} NestedEntriesAreDotted(outer: seq<string>, ms: seq<Message>, e: Entry)
    ensures e in EntriesOfAll(Dotted(outer), ms) <==>
              exists k, names :: 0 <= k < |ms| && NestedAs(ms[k], names, e.message) && e.name == Dotted(outer + names)
    decreases ms, 0
  {
    hide Qualify, Dotted, NestedAs;
    if ms != [] {
      EntriesAreDotted(outer, ms[0], e);
      NestedEntriesAreDotted(outer, ms[1..], e);
      assert forall k | 1 <= k < |ms| :: ms[k] == ms[1..][k - 1];
      assert forall k | 0 <= k < |ms[1..]| :: ms[1..][k] == ms[k + 1];
    }
  }

  lemma {:induction false} EntriesInAreNamed(fs: seq<File>, e: Entry)
    ensures e in EntriesIn(fs) <==> NamedIn(fs, e.name, e.message)
  {
    hide NamedInFile, EntriesOfAll;
    if fs != [] {
      var init, last := fs[..|fs| - 1], fs[|fs| - 1];
      EntriesInAreNamed(init, e);
      EntriesOfFile(last, e);
      assert forall k | 0 <= k < |init| :: fs[k] == init[k];
    }
  }

  lemma EntriesOfFile(f: File, e: Entry)
    ensures e in EntriesOfAll(f.package, f.messages) <==> NamedInFile(f, e.name, e.message)
  {
    OnePart(f.package);
    NestedEntriesAreDotted([f.package], f.messages, e);
    hide Dotted, NestedAs, EntriesOfAll;
    if k, names :| 0 <= k < |f.messages| && NestedAs(f.messages[k], names, e.message) && e.name == Dotted([f.package] + names) {
      assert DeclaredAs(f, names, e.message);
    }
  }

  lemma OnePart(part: string)
    ensures Dotted([part]) == part
  {
  }

  /**
   A name is in the index exactly when some message is declared under it: its package, the messages
   around it and its own name, dotted, empty parts skipped. And what it leads to is so declared.
   */
  lemma IndexIsByDottedName(fs: seq<File>, name: string)
    ensures name in IndexMessages(fs) <==> exists m :: NamedIn(fs, name, m)
    ensures name in IndexMessages(fs) ==> NamedIn(fs, name, IndexMessages(fs)[name])
  {
    hide IndexMessages, EntriesIn, NamedIn;
    IndexHoldsTheDeclared(fs, name);
    if name in IndexMessages(fs) {
      assert Entry(name, IndexMessages(fs)[name]) in EntriesIn(fs);
      EntriesInAreNamed(fs, Entry(name, IndexMessages(fs)[name]));
    }
    forall m | NamedIn(fs, name, m) ensures name in IndexMessages(fs) {
      EntriesInAreNamed(fs, Entry(name, m));
      IsEntry(EntriesIn(fs), Entry(name, m));
    }
  }

  lemma IsEntry(es: seq<Entry>, e: Entry)
    requires e in es
    ensures exists i :: 0 <= i < |es| && es[i].name == e.name
  {
    var i :| 0 <= i < |es| && es[i] == e;
  }

  /** Where a name is declared once, the index leads to what is declared. */
  lemma IndexLeadsThere(fs: seq<File>, name: string, m: Message)
    requires NamedIn(fs, name, m) && forall m' | NamedIn(fs, name, m') :: m' == m
    ensures name in IndexMessages(fs) && IndexMessages(fs)[name] == m
  {
    hide IndexMessages, NamedIn;
    IndexIsByDottedName(fs, name);
  }

  predicate IsMethodOf(f: File, j: int, i: int) {
    0 <= j < |f.services| && 0 <= i < |f.services[j].methods|
  }

  predicate IsMethod(fs: seq<File>, k: int, j: int, i: int) {
    0 <= k < |fs| && IsMethodOf(fs[k], j, i)
  }

  /** A method of a file, under package, service and its own name, dotted. */
  function Under(f: File, j: int, i: int): Declared
    requires IsMethodOf(f, j, i)
  {
    var s, m := f.services[j], f.services[j].methods[i];
    Declared(f.name, Dotted([f.package, s.name, m.name]), m)
  }

  ghost predicate MethodNamedIn(fs: seq<File>, d: Declared) {
    exists k, j, i :: IsMethod(fs, k, j, i) && d == Under(fs[k], j, i)
  }

  /** The methods of the nested loops are just the methods of the files, under their dotted names. */
  lemma {:induction false} MethodsAreNamed(fs: seq<File>, d: Declared)
    ensures d in MethodsOf(fs) <==> MethodNamedIn(fs, d)
  {
    hide Dotted, MethodsOfServices;
    if fs != [] {
      var init, last := fs[..|fs| - 1], fs[|fs| - 1];
      MethodsAreNamed(init, d);
      MethodsOfFile(last, last.services, d);
      assert forall k | 0 <= k < |init| :: fs[k] == init[k];
      if MethodNamedIn(init, d) {
        var k, j, i :| IsMethod(init, k, j, i) && d == Under(init[k], j, i);
        assert IsMethod(fs, k, j, i);
      }
      if j, i :| IsMethodOf(last, j, i) && j < |last.services| && d == Under(last, j, i) {
        assert IsMethod(fs, |init|, j, i);
      }
      if k, j, i :| IsMethod(fs, k, j, i) && d == Under(fs[k], j, i) {
        if k < |init| { assert IsMethod(init, k, j, i); } else { assert IsMethodOf(last, j, i); }
      }
    }
  }

  lemma {:induction false} MethodsOfFile(f: File, ss: seq<Service>, d: Declared)
    requires ss <= f.services
    ensures d in MethodsOfServices(f, ss) <==> exists j, i :: IsMethodOf(f, j, i) && j < |ss| && d == Under(f, j, i)
  {
    hide Dotted, MethodsOfService;
    if ss != [] {
      var last := |ss| - 1;
      MethodsOfFile(f, ss[..last], d);
      MethodsOfOne(f, last, d);
      assert ss[last] == f.services[last];
    }
  }

  lemma MethodsOfOne(f: File, j: nat, d: Declared)
    requires j < |f.services|
    ensures d in MethodsOfService(f, f.services[j]) <==> exists i :: IsMethodOf(f, j, i) && d == Under(f, j, i)
  {
    var s := f.services[j];
    var ds := MethodsOfService(f, s);
    forall i | 0 <= i < |s.methods| ensures ds[i] == Under(f, j, i) {
      ThreeParts(f.package, s.name, s.methods[i].name);
    }
    if i :| IsMethodOf(f, j, i) && d == Under(f, j, i) { assert ds[i] == d; }
    if d in ds {
      var i :| 0 <= i < |ds| && ds[i] == d;
      assert IsMethodOf(f, j, i);
    }
  }

  lemma ThreeParts(a: string, b: string, c: string)
    ensures Qualify(Qualify(a, b), c) == Dotted([a, b, c])
  {
    OnePart(a);
    QualifyAddsAPart([a], b);
    QualifyAddsAPart([a, b], c);
    assert [a] + [b] == [a, b] && [a, b] + [c] == [a, b, c];
  }

  // ---------------------------------------------------------------- the rules

  /** A key survives a retry in a singular string or bytes outside any real oneof. */
  predicate CarriesKey(f: Field) {
    !f.repeated && (f.kind == TypeString || f.kind == TypeBytes) && (f.inOneof ==> f.proto3Optional)
  }

  /** The first field of that name can carry a key. */
  predicate KeyFieldIn(fields: seq<Field>, name: string) {
    exists i | 0 <= i < |fields| ::
      fields[i].name == name && CarriesKey(fields[i]) && forall j | 0 <= j < i :: fields[j].name != name
  }

  /** What a behaviour alone must satisfy: a decision, in the known vocabulary, that does not contradict itself. */
  predicate Decided(b: Behaviour) {
    && Known(b.idempotency)
    && (b.safe || b.idempotency != UNSPECIFIED)
    && !(b.safe && b.idempotency == UNSAFE)
    && (b.keyField != "" <==> b.idempotency == KEYED)
  }

  /** The rules of the record, each in its own terms. */
  predicate Obeys(m: Rpc, messages: map<string, Message>) {
    var b, request := m.behaviour, TrimPrefix(m.input, ".");
    && Decided(b)
    && (b.safe <==> m.level == NO_SIDE_EFFECTS)
    && (m.level == IDEMPOTENT ==> b.idempotency == NATURAL || b.idempotency == KEYED)
    && (b.idempotency == KEYED ==> request in messages && KeyFieldIn(messages[request].fields, b.keyField))
  }

  // ---------------------------------------------------------------- the checks

  datatype Reason =
    | UnknownIdempotency
    | NoBehaviour
    | SafeAndUnsafe
    | NoSideEffectsWithoutSafe
    | SafeWithoutNoSideEffects
    | IdempotentButUnsafe
    | KeyedWithoutField
    | RequestNotInSet
    | FieldCannotCarryKey
    | FieldNotInRequest
    | FieldMeansNothing

  predicate DecisionBreaks(b: Behaviour, r: Reason) {
    || (r == NoBehaviour && !b.safe && b.idempotency == UNSPECIFIED)
    || (r == SafeAndUnsafe && b.safe && b.idempotency == UNSAFE)
  }

  predicate LevelBreaks(level: Level, safe: bool, idempotency: int, r: Reason) {
    || (r == NoSideEffectsWithoutSafe && level == NO_SIDE_EFFECTS && !safe)
    || (r == SafeWithoutNoSideEffects && level != NO_SIDE_EFFECTS && safe)
    || (r == IdempotentButUnsafe && level == IDEMPOTENT && idempotency == UNSAFE)
  }

  /** A key is looked for only where one is due. */
  predicate KeyedBreaks(m: Rpc, messages: map<string, Message>, r: Reason) {
    if m.behaviour.idempotency == KEYED then KeyBreaks(m, messages, m.behaviour.keyField, r)
    else r == FieldMeansNothing && m.behaviour.keyField != ""
  }

  /** What each reason means. The unknown idempotency comes alone. */
  predicate Breaks(m: Rpc, messages: map<string, Message>, r: Reason) {
    if !Known(m.behaviour.idempotency) then r == UnknownIdempotency
    else
      || DecisionBreaks(m.behaviour, r)
      || LevelBreaks(m.level, m.behaviour.safe, m.behaviour.idempotency, r)
      || KeyedBreaks(m, messages, r)
  }

  /** The three kinds share no reason. */
  lemma KindsAreApart(m: Rpc, messages: map<string, Message>, r: Reason)
    ensures DecisionBreaks(m.behaviour, r) ==> !LevelBreaks(m.level, m.behaviour.safe, m.behaviour.idempotency, r)
    ensures DecisionBreaks(m.behaviour, r) || LevelBreaks(m.level, m.behaviour.safe, m.behaviour.idempotency, r) ==> !KeyedBreaks(m, messages, r)
  {
    hide KeyFieldIn;
  }

  /** The first obstacle between the method and a field that can carry its key. */
  predicate KeyBreaks(m: Rpc, messages: map<string, Message>, keyField: string, r: Reason) {
    var request := TrimPrefix(m.input, ".");
    if keyField == "" then r == KeyedWithoutField
    else if request !in messages then r == RequestNotInSet
    else if forall i | 0 <= i < |messages[request].fields| :: messages[request].fields[i].name != keyField then r == FieldNotInRequest
    else r == FieldCannotCarryKey && !KeyFieldIn(messages[request].fields, keyField)
  }

  /** A method obeys exactly when there is no reason against it. */
  lemma ObeysIffNothingBreaks(m: Rpc, messages: map<string, Message>)
    ensures Obeys(m, messages) <==> forall r :: !Breaks(m, messages, r)
  {
    hide KeyFieldIn;
    if forall r :: !Breaks(m, messages, r) {
      assert !Breaks(m, messages, UnknownIdempotency);
      assert !Breaks(m, messages, NoBehaviour) && !Breaks(m, messages, SafeAndUnsafe);
      assert !Breaks(m, messages, NoSideEffectsWithoutSafe) && !Breaks(m, messages, SafeWithoutNoSideEffects);
      assert !Breaks(m, messages, IdempotentButUnsafe) && !Breaks(m, messages, FieldMeansNothing);
      assert !Breaks(m, messages, KeyedWithoutField) && !Breaks(m, messages, RequestNotInSet);
      assert !Breaks(m, messages, FieldNotInRequest) && !Breaks(m, messages, FieldCannotCarryKey);
    } else if Obeys(m, messages) {
      var r :| Breaks(m, messages, r);
      KeyFieldIsThere(m, messages);
      assert false;
    }
  }

  lemma KeyFieldIsThere(m: Rpc, messages: map<string, Message>)
    requires Obeys(m, messages)
    ensures !Breaks(m, messages, FieldNotInRequest)
  {
  }

  /** The first field of that name is a singular string or bytes, and no member of a real oneof. */
  predicate KeyedFieldOf(fields: seq<Field>, name: string, i: nat) {
    && i < |fields| && fields[i].name == name && (forall j: nat | j < i :: fields[j].name != name)
    && fields[i].repeated == false && fields[i].kind != TypeOther && (fields[i].inOneof == false || fields[i].proto3Optional)
  }

  /**
   What is said against the key of a keyed method whose input is a dot and then a dotted name. If no
   message is declared under the name, that its request is not there. If one is: nothing if its first
   field of the key's name is a singular string or bytes outside every real oneof; that there is no such
   field if none bears the name; and that it cannot carry a key otherwise.
   */
  lemma KeyedMethodsAreHeard(fs: seq<File>, rpc: Rpc, name: string, m: Message)
    requires rpc.behaviour.idempotency == KEYED && rpc.behaviour.keyField != "" && rpc.input == "." + name
    ensures (forall m' :: !NamedIn(fs, name, m')) ==> forall r :: KeyedBreaks(rpc, IndexMessages(fs), r) <==> r == RequestNotInSet
    ensures NamedIn(fs, name, m) && (forall m' | NamedIn(fs, name, m') :: m' == m) ==>
              forall r :: KeyedBreaks(rpc, IndexMessages(fs), r) <==>
                && (forall i :: !KeyedFieldOf(m.fields, rpc.behaviour.keyField, i))
                && r == if exists i :: 0 <= i < |m.fields| && m.fields[i].name == rpc.behaviour.keyField
                        then FieldCannotCarryKey else FieldNotInRequest
  {
    hide NamedIn, IndexMessages;
    assert TrimPrefix(rpc.input, ".") == name;
    IndexIsByDottedName(fs, name);
    if NamedIn(fs, name, m) && (forall m' | NamedIn(fs, name, m') :: m' == m) {
      IndexLeadsThere(fs, name, m);
      KeyFieldMeans(m.fields, rpc.behaviour.keyField);
    }
  }

  lemma KeyFieldMeans(fields: seq<Field>, name: string)
    ensures KeyFieldIn(fields, name) <==> exists i :: KeyedFieldOf(fields, name, i)
  {
    if KeyFieldIn(fields, name) {
      var i :| 0 <= i < |fields| && fields[i].name == name && CarriesKey(fields[i]) && forall j | 0 <= j < i :: fields[j].name != name;
      assert KeyedFieldOf(fields, name, i);
    }
  }

  function KeyFieldShape(f: Field): Option<Reason> {
    if f.repeated then Some(FieldCannotCarryKey)
    else if f.kind != TypeString && f.kind != TypeBytes then Some(FieldCannotCarryKey)
    else if f.inOneof && !f.proto3Optional then Some(FieldCannotCarryKey)
    else None
  }

  predicate Distinct<T(==)>(s: seq<T>) {
    forall i, j | 0 <= i < j < |s| :: s[i] != s[j]
  }

  lemma DistinctConcat<T>(a: seq<T>, b: seq<T>)
    requires Distinct(a) && Distinct(b) && forall x | x in a :: x !in b
    ensures Distinct(a + b)
  {
    forall i, j | 0 <= i < j < |a + b| ensures (a + b)[i] != (a + b)[j] {
      if i < |a| <= j { assert a[i] in a && b[j - |a|] in b; }
    }
  }

  method CheckIdempotencyLevel(m: Rpc, safe: bool, idempotency: int) returns (reasons: seq<Reason>)
    ensures forall r :: r in reasons <==> LevelBreaks(m.level, safe, idempotency, r)
    ensures Distinct(reasons)
  {
    reasons := [];
    match m.level
    case NO_SIDE_EFFECTS =>
      if !safe { reasons := reasons + [NoSideEffectsWithoutSafe]; }
    case IDEMPOTENT =>
      if safe { reasons := reasons + [SafeWithoutNoSideEffects]; }
      if idempotency == UNSAFE { reasons := reasons + [IdempotentButUnsafe]; }
    case IDEMPOTENCY_UNKNOWN =>
      if safe { reasons := reasons + [SafeWithoutNoSideEffects]; }
  }

  /** At most one reason: the first obstacle between the method and a field that can carry its key. */
  method CheckKey(m: Rpc, messages: map<string, Message>, keyField: string) returns (reasons: seq<Reason>)
    ensures reasons == [] <==>
              && keyField != "" && TrimPrefix(m.input, ".") in messages
              && KeyFieldIn(messages[TrimPrefix(m.input, ".")].fields, keyField)
    ensures |reasons| <= 1
    ensures forall r :: r in reasons <==> KeyBreaks(m, messages, keyField, r)
  {
    if keyField == "" {
      return [KeyedWithoutField];
    }
    var request := TrimPrefix(m.input, ".");
    if request !in messages {
      return [RequestNotInSet];
    }
    var fields := messages[request].fields;
    for i := 0 to |fields|
      invariant forall j | 0 <= j < i :: fields[j].name != keyField
    {
      if fields[i].name == keyField {
        var reason := KeyFieldShape(fields[i]);
        if reason.Some? {
          return [reason.value];
        }
        return [];
      }
    }
    return [FieldNotInRequest];
  }

  /** What the behaviour alone decides. */
  method CheckDecision(b: Behaviour) returns (reasons: seq<Reason>)
    ensures Distinct(reasons)
    ensures forall r :: r in reasons <==> DecisionBreaks(b, r)
  {
    reasons := [];
    if !b.safe && b.idempotency == UNSPECIFIED {
      reasons := reasons + [NoBehaviour];
    }
    if b.safe && b.idempotency == UNSAFE {
      reasons := reasons + [SafeAndUnsafe];
    }
  }

  /** The key where one is due, and a field named where none is. */
  method CheckKeyed(m: Rpc, messages: map<string, Message>) returns (reasons: seq<Reason>)
    ensures Distinct(reasons)
    ensures forall r :: r in reasons <==> KeyedBreaks(m, messages, r)
  {
    reasons := [];
    if m.behaviour.idempotency == KEYED {
      reasons := CheckKey(m, messages, m.behaviour.keyField);
    } else if m.behaviour.keyField != "" {
      reasons := reasons + [FieldMeansNothing];
    }
  }

  /** Exactly the reasons there are, each once, so none exactly when every rule is obeyed. */
  method CheckMethod(m: Rpc, messages: map<string, Message>) returns (reasons: seq<Reason>)
    ensures Distinct(reasons)
    ensures forall r :: r in reasons <==> Breaks(m, messages, r)
    ensures reasons == [] <==> Obeys(m, messages)
  {
    hide Obeys, Distinct, DecisionBreaks, LevelBreaks, KeyedBreaks;
    ObeysIffNothingBreaks(m, messages);
    forall r ensures DecisionBreaks(m.behaviour, r) ==> !LevelBreaks(m.level, m.behaviour.safe, m.behaviour.idempotency, r)
             ensures DecisionBreaks(m.behaviour, r) || LevelBreaks(m.level, m.behaviour.safe, m.behaviour.idempotency, r) ==> !KeyedBreaks(m, messages, r)
    {
      KindsAreApart(m, messages, r);
    }
    var b := m.behaviour;
    if !Known(b.idempotency) {
      reasons := [UnknownIdempotency];
      OneIsDistinct(UnknownIdempotency);
      assert reasons[0] in reasons;
      return;
    }
    reasons := CheckDecision(b);
    var more := CheckIdempotencyLevel(m, b.safe, b.idempotency);
    DistinctConcat(reasons, more);
    reasons := reasons + more;
    more := CheckKeyed(m, messages);
    DistinctConcat(reasons, more);
    reasons := reasons + more;
    if reasons != [] { assert reasons[0] in reasons; }
  }

  lemma OneIsDistinct<T>(x: T)
    ensures Distinct([x])
  {
  }

  datatype Violation = Violation(file: string, name: string, reason: Reason)

  datatype Report = Report(methodsChecked: nat, violations: seq<Violation>)

  /** Clean: every declared method obeys. */
  predicate Clean(owned: seq<File>, all: seq<File>) {
    forall i | 0 <= i < |MethodsOf(owned)| :: Obeys(MethodsOf(owned)[i].rpc, IndexMessages(all))
  }

  /** How often a violation is due: once for each method declared in its file under its name that its reason is against. */
  function Tally(ds: seq<Declared>, messages: map<string, Message>, v: Violation): nat {
    if ds == [] then 0
    else
      var d := ds[|ds| - 1];
      Tally(ds[..|ds| - 1], messages, v) + if d.file == v.file && d.name == v.name && Breaks(d.rpc, messages, v.reason) then 1 else 0
  }

  /** The violations are exactly the reasons there are against the methods, each as often as it is due. */
  ghost predicate Reported(ds: seq<Declared>, messages: map<string, Message>, vs: seq<Violation>) {
    forall v: Violation :: multiset(vs)[v] == Tally(ds, messages, v)
  }

  lemma {:induction false} TallyConcat(a: seq<Declared>, b: seq<Declared>, messages: map<string, Message>, v: Violation)
    ensures Tally(a + b, messages, v) == Tally(a, messages, v) + Tally(b, messages, v)
  {
    hide Breaks;
    if b == [] {
      assert a + b == a;
    } else {
      TallyConcat(a, b[..|b| - 1], messages, v);
      assert (a + b)[..|a + b| - 1] == a + b[..|b| - 1] && (a + b)[|a + b| - 1] == b[|b| - 1];
    }
  }

  lemma ReportedConcat(a: seq<Declared>, va: seq<Violation>, b: seq<Declared>, vb: seq<Violation>, messages: map<string, Message>)
    requires Reported(a, messages, va) && Reported(b, messages, vb)
    ensures Reported(a + b, messages, va + vb)
  {
    hide Tally;
    forall v: Violation
      ensures multiset(va + vb)[v] == Tally(a + b, messages, v)
    {
      TallyConcat(a, b, messages, v);
    }
  }

  /** The reasons against one method, under its file and name. */
  function Against(file: string, name: string, reasons: seq<Reason>): seq<Violation> {
    seq(|reasons|, k requires 0 <= k < |reasons| => Violation(file, name, reasons[k]))
  }

  lemma {:induction false} AgainstCounts(file: string, name: string, reasons: seq<Reason>, v: Violation)
    requires Distinct(reasons)
    ensures multiset(Against(file, name, reasons))[v] == if v.file == file && v.name == name && v.reason in reasons then 1 else 0
  {
    if reasons != [] {
      var init, last := reasons[..|reasons| - 1], reasons[|reasons| - 1];
      assert reasons == init + [last] && last !in init;
      AgainstCounts(file, name, init, v);
      assert Against(file, name, reasons) == Against(file, name, init) + [Violation(file, name, last)];
    }
  }

  lemma ReportedOne(d: Declared, reasons: seq<Reason>, messages: map<string, Message>)
    requires Distinct(reasons) && forall r :: r in reasons <==> Breaks(d.rpc, messages, r)
    ensures Reported([d], messages, Against(d.file, d.name, reasons))
  {
    hide Breaks, Against, Distinct;
    forall v: Violation
      ensures multiset(Against(d.file, d.name, reasons))[v] == Tally([d], messages, v)
    {
      AgainstCounts(d.file, d.name, reasons, v);
      assert [d][..0] == [];
      assert Tally([], messages, v) == 0;
    }
  }

  lemma ReportedNone(messages: map<string, Message>)
    ensures Reported([], messages, [])
  {
  }

  lemma {:induction false} TallyFinds(ds: seq<Declared>, messages: map<string, Message>, i: nat, r: Reason)
    requires i < |ds| && Breaks(ds[i].rpc, messages, r)
    ensures Tally(ds, messages, Violation(ds[i].file, ds[i].name, r)) > 0
  {
    hide Breaks;
    if i < |ds| - 1 { TallyFinds(ds[..|ds| - 1], messages, i, r); }
  }

  lemma {:induction false} NoReasonNoTally(ds: seq<Declared>, messages: map<string, Message>, v: Violation)
    requires forall i | 0 <= i < |ds| :: !Breaks(ds[i].rpc, messages, v.reason)
    ensures Tally(ds, messages, v) == 0
  {
    hide Breaks;
    if ds != [] { NoReasonNoTally(ds[..|ds| - 1], messages, v); }
  }

  /** So the report is empty exactly when all obey. */
  lemma EmptyMeansClean(owned: seq<File>, all: seq<File>, vs: seq<Violation>)
    requires Reported(MethodsOf(owned), IndexMessages(all), vs)
    ensures vs == [] <==> Clean(owned, all)
  {
    hide Breaks, Obeys, MethodsOf, IndexMessages, Tally;
    var ds, messages := MethodsOf(owned), IndexMessages(all);
    forall i | 0 <= i < |ds|
      ensures Obeys(ds[i].rpc, messages) <==> forall r :: !Breaks(ds[i].rpc, messages, r)
    {
      ObeysIffNothingBreaks(ds[i].rpc, messages);
    }
    if vs == [] {
      forall i, r | 0 <= i < |ds| ensures !Breaks(ds[i].rpc, messages, r) {
        if Breaks(ds[i].rpc, messages, r) { TallyFinds(ds, messages, i, r); }
      }
    } else {
      assert multiset(vs)[vs[0]] > 0;
      if Clean(owned, all) {
        NoReasonNoTally(ds, messages, vs[0]);
        assert false;
      }
    }
  }

  /** One service's methods, appended to the report on those declared before it. */
  method CheckService(file: File, s: Service, messages: map<string, Message>, before: Report, ghost earlier: seq<Declared>)
    returns (report: Report)
    requires Reported(earlier, messages, before.violations) && before.methodsChecked == |earlier|
    ensures report.methodsChecked == |earlier + MethodsOfService(file, s)|
    ensures Reported(earlier + MethodsOfService(file, s), messages, report.violations)
  {
    hide Reported, Against, Distinct;
    report := before;
    ghost var ds := MethodsOfService(file, s);
    assert earlier + ds[..0] == earlier;
    for i := 0 to |s.methods|
      invariant report.methodsChecked == |earlier| + i
      invariant Reported(earlier + ds[..i], messages, report.violations)
    {
      var reasons := CheckMethod(s.methods[i], messages);
      var name := Qualify(Qualify(file.package, s.name), s.methods[i].name);
      ReportedOne(ds[i], reasons, messages);
      ReportedConcat(earlier + ds[..i], report.violations, [ds[i]], Against(file.name, name, reasons), messages);
      assert earlier + ds[..i + 1] == earlier + ds[..i] + [ds[i]];
      report := Report(report.methodsChecked + 1, report.violations + Against(file.name, name, reasons));
    }
    assert ds[..|s.methods|] == ds;
  }

  /** One file's services, in turn. */
  method CheckFile(file: File, messages: map<string, Message>, before: Report, ghost earlier: seq<Declared>)
    returns (report: Report)
    requires Reported(earlier, messages, before.violations) && before.methodsChecked == |earlier|
    ensures report.methodsChecked == |earlier + MethodsOfServices(file, file.services)|
    ensures Reported(earlier + MethodsOfServices(file, file.services), messages, report.violations)
  {
    hide Reported, MethodsOfService;
    report := before;
    ghost var ss := file.services;
    assert earlier + MethodsOfServices(file, ss[..0]) == earlier;
    for j := 0 to |file.services|
      invariant report.methodsChecked == |earlier + MethodsOfServices(file, ss[..j])|
      invariant Reported(earlier + MethodsOfServices(file, ss[..j]), messages, report.violations)
    {
      ghost var done := earlier + MethodsOfServices(file, ss[..j]);
      report := CheckService(file, file.services[j], messages, report, done);
      assert ss[..j + 1][..j] == ss[..j];
      assert done + MethodsOfService(file, ss[j]) == earlier + MethodsOfServices(file, ss[..j + 1]);
    }
    assert ss[..|ss|] == ss;
  }

  /** Looks at every method of every service of every owned file, and reports exactly the reasons there are. */
  method CheckAnnotations(owned: seq<File>, all: seq<File>) returns (report: Report)
    ensures report.methodsChecked == |MethodsOf(owned)|
    ensures Reported(MethodsOf(owned), IndexMessages(all), report.violations)
    ensures report.violations == [] <==> Clean(owned, all)
  {
    hide Reported, Clean, MethodsOfServices;
    var messages := FillMessages(all);
    report := Report(0, []);
    ReportedNone(messages);
    for i := 0 to |owned|
      invariant report.methodsChecked == |MethodsOf(owned[..i])|
      invariant Reported(MethodsOf(owned[..i]), messages, report.violations)
    {
      report := CheckFile(owned[i], messages, report, MethodsOf(owned[..i]));
      assert owned[..i + 1][..i] == owned[..i];
    }
    assert owned[..|owned|] == owned;
    EmptyMeansClean(owned, all, report.violations);
  }
}
